/** Little-endian fields and NUL-terminated strings inside a file's bytes. */
module Binary {
  import opened Wrappers
  import opened Substring

  function Little(s: Bytes): nat {
    if s == [] then 0 else s[0] as nat + 256 * Little(s[1..])
  }

  /** The value a field has, byte by byte. */
  lemma LittleIs(a: Byte, b: Byte, c: Byte, d: Byte)
    ensures Little([a]) == a as nat && Little([a, b]) == a as nat + 256 * b as nat
    ensures Little([a, b, c, d]) == a as nat + 256 * b as nat + 65_536 * c as nat + 16_777_216 * d as nat
  {
    assert [a][1..] == [] && [a, b][1..] == [b] && [b][1..] == [] && [d][1..] == [];
    assert [a, b, c, d][1..] == [b, c, d] && [b, c, d][1..] == [c, d] && [c, d][1..] == [d];
    assert Little([]) == 0 && Little([d]) == d as nat && Little([b]) == b as nat;
    assert Little([c, d]) == c as nat + 256 * Little([d]);
    assert Little([b, c, d]) == b as nat + 256 * Little([c, d]);
  }

  /** A byte more is worth its place. */
  lemma {:induction false} LittleAppend(s: Bytes, b: Byte)
    ensures Little(s + [b]) == Little(s) + Range(|s|) * b as nat
  {
    if s == [] {
      assert [] + [b] == [b] && [b][1..] == [];
    } else {
      assert (s + [b])[1..] == s[1..] + [b];
      LittleAppend(s[1..], b);
      assert Range(|s|) * b as nat == 256 * (Range(|s| - 1) * b as nat);
    }
  }

  /** `unpack_from`: `None` past the end of the file. */
  function Unpack(data: Bytes, at: nat, n: nat): (r: Option<nat>) {
    if at + n <= |data| then Some(Little(data[at..at + n])) else None
  }

  /** The text lies at `at`, holds no NUL and is followed by one. */
  ghost predicate IsText(data: Bytes, at: nat, text: Bytes) {
    && at + |text| < |data|
    && data[at..at + |text|] == text
    && (forall i | at <= i < at + |text| :: data[i] != 0)
    && data[at + |text|] == 0
  }

  lemma OneText(data: Bytes, at: nat, a: Bytes, b: Bytes)
    requires IsText(data, at, a) && IsText(data, at, b)
    ensures a == b
  {
  }

  /** `data[at:data.index(0, at)]`, which fails when no NUL follows. */
  function TextAt(data: Bytes, at: nat): Option<Bytes> {
    match FindFrom(data, [0], at)
    case None => None
    case Some(end) => if at <= end then Some(data[at..end]) else None
  }

  lemma ZeroOccursAt(data: Bytes, k: nat)
    ensures OccursAt(data, [0], k) <==> k < |data| && data[k] == 0
  {
    if k < |data| {
      assert data[k..k + 1] == [data[k]];
    }
  }

  /** A text is read exactly where there is one. */
  lemma TextAtFinds(data: Bytes, at: nat, text: Bytes)
    ensures TextAt(data, at) == Some(text) <==> IsText(data, at, text)
  {
    hide OccursAt, FindFrom;
    FindFromIsLeftmost(data, [0], at);
    forall k: nat ensures OccursAt(data, [0], k) <==> k < |data| && data[k] == 0 {
      ZeroOccursAt(data, k);
    }
    var end := FindFrom(data, [0], at);
    if IsText(data, at, text) {
      assert OccursAt(data, [0], at + |text|);
    }
    if end.Some? {
      assert OccursAt(data, [0], end.value);
      assert IsText(data, at, data[at..end.value]);
    }
  }

  // --- writing ------------------------------------------------------------------------------

  function Range(n: nat): nat {
    if n == 0 then 1 else 256 * Range(n - 1)
  }

  function Zeros(n: nat): (r: Bytes)
    ensures |r| == n
  {
    seq(n, i => 0)
  }

  /** The low `n` bytes of `v`, least significant first. */
  function Put(v: nat, n: nat): (r: Bytes)
    ensures |r| == n
  {
    if n == 0 then [] else [(v % 256) as Byte] + Put(v / 256, n - 1)
  }

  lemma {:induction false} LittlePut(v: nat, n: nat)
    requires v < Range(n)
    ensures Little(Put(v, n)) == v
  {
    if n > 0 {
      assert Put(v, n)[1..] == Put(v / 256, n - 1);
      LittlePut(v / 256, n - 1);
    }
  }

  lemma Ranges()
    ensures Range(2) == 0x1_0000 && Range(4) == 0x1_0000_0000 && Range(8) == 0x1_0000_0000_0000_0000
  {
    assert Range(4) == 256 * (256 * Range(2));
    assert Range(8) == 256 * (256 * (256 * (256 * Range(4))));
  }

  ghost predicate Holds(data: Bytes, at: nat, part: Bytes) {
    at + |part| <= |data| && data[at..at + |part|] == part
  }

  predicate FieldIs(data: Bytes, at: nat, v: nat, n: nat) {
    at + n <= |data| && Little(data[at..at + n]) == v
  }

  lemma HoldsBoth(data: Bytes, at: nat, a: Bytes, b: Bytes)
    requires Holds(data, at, a + b)
    ensures Holds(data, at, a) && Holds(data, at + |a|, b)
  {
    var both := data[at..at + |a| + |b|];
    assert both[..|a|] == data[at..at + |a|] && both[|a|..] == data[at + |a|..at + |a| + |b|];
    assert (a + b)[..|a|] == a && (a + b)[|a|..] == b;
  }

  /** A written field reads back, and what follows it stands right behind it. */
  lemma FieldThen(data: Bytes, at: nat, v: nat, n: nat, rest: Bytes)
    requires Holds(data, at, Put(v, n) + rest) && v < Range(n)
    ensures Unpack(data, at, n) == Some(v) && Holds(data, at + n, rest)
  {
    HoldsBoth(data, at, Put(v, n), rest);
    LittlePut(v, n);
  }
}
