/** Occurrences of one byte string in another, and the leftmost non-overlapping
    replacement that Python's `bytes.replace` performs. */
module Substring {
  import opened Wrappers

  newtype Byte = b: int | 0 <= b < 256
  type Bytes = seq<Byte>

  predicate OccursAt(s: Bytes, q: Bytes, k: nat) {
    k + |q| <= |s| && s[k..k + |q|] == q
  }

  ghost predicate Absent(s: Bytes, q: Bytes) {
    forall k: nat :: !OccursAt(s, q, k)
  }

  /** The leftmost occurrence at or after `from`. */
  function FindFrom(s: Bytes, q: Bytes, from: nat): (r: Option<nat>)
    ensures r.Some? ==> r.value + |q| <= |s|
    decreases |s| - from
  {
    if from + |q| > |s| then None
    else if OccursAt(s, q, from) then Some(from)
    else if from == |s| then None
    else FindFrom(s, q, from + 1)
  }

  function Find(s: Bytes, q: Bytes): (r: Option<nat>)
    ensures r.Some? ==> r.value + |q| <= |s|
  {
    FindFrom(s, q, 0)
  }

  lemma {:induction false} FindFromIsLeftmost(s: Bytes, q: Bytes, from: nat)
    ensures var r := FindFrom(s, q, from);
      && (r.None? ==> forall k: nat :: from <= k ==> !OccursAt(s, q, k))
      && (r.Some? ==> from <= r.value && OccursAt(s, q, r.value)
                      && forall k: nat :: from <= k < r.value ==> !OccursAt(s, q, k))
    decreases |s| - from
  {
    if from < |s| {
      FindFromIsLeftmost(s, q, from + 1);
    }
  }

  /** `Find` answers `None` exactly for an absent text, and otherwise its leftmost occurrence. */
  lemma FindIsLeftmost(s: Bytes, q: Bytes)
    ensures var r := Find(s, q);
      && (r.None? <==> Absent(s, q))
      && (r.Some? ==> OccursAt(s, q, r.value) && forall k: nat :: k < r.value ==> !OccursAt(s, q, k))
  {
    FindFromIsLeftmost(s, q, 0);
  }

  function Left(limit: int): int {
    if limit < 0 then limit else limit - 1
  }

  /** `s.replace(q, t, limit)`: leftmost non-overlapping occurrences; a negative limit means all. */
  function Replace(s: Bytes, q: Bytes, t: Bytes, limit: int): Bytes
    requires |q| > 0
    decreases |s|
  {
    if limit == 0 then s
    else match Find(s, q)
      case None => s
      case Some(k) => s[..k] + t + Replace(s[k + |q|..], q, t, Left(limit))
  }

  /** With `q` laid over `t` so that `q[0]` sits on `t[d]`, some shared position differs. */
  predicate Clash(q: Bytes, t: Bytes, d: int) {
    exists x | 0 <= x < |t| :: 0 <= x - d < |q| && q[x - d] != t[x]
  }

  /** `q` cannot overlap `t` in any alignment: not inside, not around, not straddling an end. */
  predicate Apart(q: Bytes, t: Bytes) {
    |t| > 0 && forall d | -|q| < d < |t| :: Clash(q, t, d)
  }

  /** `q` cannot overlap a copy of itself that starts later. */
  predicate SelfApart(q: Bytes) {
    |q| > 0 && forall d | -|q| < d < 0 :: Clash(q, q, d)
  }

  function AllButLast(q: Bytes): Bytes
    requires |q| > 0
  {
    q[..|q| - 1]
  }

  /** One differing byte rules an occurrence out. */
  lemma MismatchAt(s: Bytes, q: Bytes, k: nat, x: nat)
    requires k <= x < |s| && x < k + |q| && s[x] != q[x - k]
    ensures !OccursAt(s, q, k)
  {
    assert k + |q| <= |s| ==> s[k..k + |q|][x - k] == s[x];
  }

  /** The same bytes in two places are occurrences of the same texts. */
  lemma SameWindow(s: Bytes, k: nat, s': Bytes, k': nat, q: Bytes)
    requires k + |q| <= |s| && k' + |q| <= |s'|
    requires forall x | k <= x < k + |q| :: s[x] == s'[x - k + k']
    ensures OccursAt(s, q, k) <==> OccursAt(s', q, k')
  {
    assert s[k..k + |q|] == s'[k'..k' + |q|];
  }

  lemma NoOccurrenceOver(pre: Bytes, t: Bytes, post: Bytes, q: Bytes, k: nat)
    requires Clash(q, t, k - |pre|)
    ensures !OccursAt(pre + t + post, q, k)
  {
    var x :| 0 <= x < |t| && 0 <= x - (k - |pre|) < |q| && q[x - (k - |pre|)] != t[x];
    MismatchAt(pre + t + post, q, k, |pre| + x);
  }

  /** Substituting one stretch by a text `q` cannot touch creates no occurrence of `q`. */
  lemma SwapKeepsAbsent(pre: Bytes, u: Bytes, t: Bytes, post: Bytes, q: Bytes)
    requires Absent(pre + u + post, q)
    requires Apart(q, t)
    ensures Absent(pre + t + post, q)
  {
    var s, s' := pre + u + post, pre + t + post;
    forall k: nat ensures !OccursAt(s', q, k) {
      if k + |q| <= |pre| {
        SameWindow(s', k, s, k, q);
      } else if k < |pre| + |t| {
        NoOccurrenceOver(pre, t, post, q, k);
      } else if k + |q| <= |s'| {
        SameWindow(s', k, s, k - |t| + |u|, q);
      }
    }
  }

  lemma AbsentInPart(pre: Bytes, mid: Bytes, post: Bytes, q: Bytes)
    requires Absent(pre + mid + post, q)
    ensures Absent(mid, q)
  {
    forall k: nat ensures !OccursAt(mid, q, k) {
      if k + |q| <= |mid| {
        SameWindow(mid, k, pre + mid + post, |pre| + k, q);
      }
    }
  }

  lemma PresentInWhole(pre: Bytes, q: Bytes, post: Bytes)
    ensures OccursAt(pre + q + post, q, |pre|)
    ensures !Absent(pre + q + post, q)
  {
    assert (pre + q + post)[|pre|..|pre| + |q|] == q;
    assert OccursAt(pre + q + post, q, |pre|);
  }

  /** If `q` is nowhere in `pre`, its first occurrence in `pre + q` is the appended copy. */
  lemma FirstIsOwn(pre: Bytes, q: Bytes)
    requires SelfApart(q) && Absent(pre, q)
    ensures Absent(pre + AllButLast(q), q)
  {
    var s := pre + AllButLast(q);
    forall k: nat ensures !OccursAt(s, q, k) {
      if k + |q| <= |pre| {
        SameWindow(s, k, pre, k, q);
      } else if k < |pre| {
        var d := k - |pre|;
        assert Clash(q, q, d);
        var x :| 0 <= x < |q| && 0 <= x - d < |q| && q[x - d] != q[x];
        MismatchAt(s, q, k, |pre| + x);
      }
    }
  }

  /** Where a replacement starts: nothing before the copy of `q` at `|pre|`. */
  lemma FindAt(pre: Bytes, q: Bytes, post: Bytes)
    requires |q| > 0 && Absent(pre + AllButLast(q), q)
    ensures Find(pre + q + post, q) == Some(|pre|)
  {
    var s := pre + q + post;
    PresentInWhole(pre, q, post);
    FindIsLeftmost(s, q);
    forall k: nat | k < |pre| ensures !OccursAt(s, q, k) {
      SameWindow(s, k, pre + AllButLast(q), k, q);
    }
  }

  lemma NothingEarlier(s: Bytes, q: Bytes)
    requires |q| > 0 && Find(s, q).Some?
    ensures Absent(s[..Find(s, q).value] + AllButLast(q), q)
  {
    var k := Find(s, q).value;
    var cut := s[..k] + AllButLast(q);
    FindIsLeftmost(s, q);
    assert s[k..k + |q|] == q;
    forall i: nat ensures !OccursAt(cut, q, i) {
      if i + |q| <= |cut| {
        SameWindow(cut, i, s, i, q);
      }
    }
  }

  lemma SplitAtFind(s: Bytes, q: Bytes)
    requires |q| > 0 && Find(s, q).Some?
    ensures var k := Find(s, q).value; s == s[..k] + q + s[k + |q|..]
  {
    FindIsLeftmost(s, q);
  }

  lemma ReplaceAt(pre: Bytes, q: Bytes, post: Bytes, t: Bytes, limit: int)
    requires |q| > 0 && Absent(pre + AllButLast(q), q) && limit != 0
    ensures Replace(pre + q + post, q, t, limit) == pre + t + Replace(post, q, t, Left(limit))
  {
    FindAt(pre, q, post);
    var s := pre + q + post;
    assert s[..|pre|] == pre && s[|pre| + |q|..] == post;
  }

  lemma {:induction false} ReplaceBySame(s: Bytes, q: Bytes, limit: int)
    requires |q| > 0
    ensures Replace(s, q, q, limit) == s
    decreases |s|
  {
    if limit != 0 && Find(s, q).Some? {
      var k := Find(s, q).value;
      var pre, post := s[..k], s[k + |q|..];
      SplitAtFind(s, q);
      NothingEarlier(s, q);
      ReplaceAt(pre, q, post, q, limit);
      ReplaceBySame(post, q, Left(limit));
    }
  }

  /** Replacing everything and replacing it back is the identity, for a new text that is
      absent from the input and cannot overlap itself. */
  lemma {:induction false} ReplaceRoundTrip(s: Bytes, q: Bytes, t: Bytes, limit: int)
    requires |q| > 0 && SelfApart(t) && Absent(s, t)
    ensures Replace(Replace(s, q, t, limit), t, q, limit) == s
    decreases |s|
  {
    if limit == 0 {
    } else if Find(s, q).Some? {
      var k := Find(s, q).value;
      var pre, post := s[..k], s[k + |q|..];
      SplitAtFind(s, q);
      AbsentInPart([], pre, q + post, t) by { assert [] + pre + (q + post) == s; }
      AbsentInPart(pre + q, post, [], t) by { assert (pre + q) + post + [] == s; }
      FirstIsOwn(pre, t);
      ReplaceRoundTrip(post, q, t, Left(limit));
      ReplaceAt(pre, t, Replace(post, q, t, Left(limit)), q, limit);
    } else {
      FindIsLeftmost(s, t);
    }
  }

  /** `s.replace(q, t, 1)`. */
  function ReplaceFirst(s: Bytes, q: Bytes, t: Bytes): Bytes
    requires |q| > 0
  {
    match Find(s, q)
    case None => s
    case Some(k) => s[..k] + t + s[k + |q|..]
  }

  /** A one-shot replacement is the general one with a limit of one. */
  lemma ReplaceFirstIsReplaceOne(s: Bytes, q: Bytes, t: Bytes)
    requires |q| > 0
    ensures ReplaceFirst(s, q, t) == Replace(s, q, t, 1)
  {
    if Find(s, q).Some? {
      assert Replace(s[Find(s, q).value + |q|..], q, t, 0) == s[Find(s, q).value + |q|..];
    }
  }

  lemma ReplaceFirstAt(pre: Bytes, q: Bytes, post: Bytes, t: Bytes)
    requires |q| > 0 && Absent(pre + AllButLast(q), q)
    ensures ReplaceFirst(pre + q + post, q, t) == pre + t + post
  {
    FindAt(pre, q, post);
    var s := pre + q + post;
    assert s[..|pre|] == pre && s[|pre| + |q|..] == post;
  }

  /** `pre` is finished: it holds no `q` and none can begin in it. */
  ghost predicate Settled(pre: Bytes, q: Bytes, t: Bytes)
    requires |q| > 0
  {
    && Apart(q, t)
    && Absent(pre + AllButLast(q), q)
    && (pre == [] || (|t| <= |pre| && pre[|pre| - |t|..] == t))
  }

  lemma SettledStaysAbsent(pre: Bytes, s: Bytes, q: Bytes, t: Bytes)
    requires |q| > 0 && Settled(pre, q, t) && Absent(s, q)
    ensures Absent(pre + s, q)
  {
    forall k: nat ensures !OccursAt(pre + s, q, k) {
      if k + |q| > |pre + s| {
      } else if k >= |pre| {
        SameWindow(pre + s, k, s, k - |pre|, q);
      } else if k + |q| <= |pre| {
        SameWindow(pre + s, k, pre + AllButLast(q), k, q);
      } else {
        var p := pre[..|pre| - |t|];
        assert p + t + s == pre + s;
        NoOccurrenceOver(p, t, s, q, k);
      }
    }
  }

  lemma ReplaceAfterAt(pre: Bytes, a: Bytes, b: Bytes, q: Bytes, t: Bytes, limit: int)
    requires |q| > 0 && Settled(pre, q, t) && Absent(a + AllButLast(q), q) && limit != 0
    ensures Replace(pre + (a + q + b), q, t, limit) == pre + Replace(a + q + b, q, t, limit)
  {
    hide Replace;
    SettledStaysAbsent(pre, a + AllButLast(q), q, t);
    assert pre + (a + AllButLast(q)) == (pre + a) + AllButLast(q);
    assert pre + (a + q + b) == (pre + a) + q + b;
    ReplaceAt(pre + a, q, b, t, limit);
    ReplaceAt(a, q, b, t, limit);
    var rest := Replace(b, q, t, Left(limit));
    assert (pre + a) + t + rest == pre + (a + t + rest);
  }

  lemma ReplaceAfter(pre: Bytes, s: Bytes, q: Bytes, t: Bytes, limit: int)
    requires |q| > 0 && Settled(pre, q, t)
    ensures Replace(pre + s, q, t, limit) == pre + Replace(s, q, t, limit)
  {
    if limit != 0 {
      if Find(s, q).None? {
        FindIsLeftmost(s, q);
        SettledStaysAbsent(pre, s, q, t);
        FindIsLeftmost(pre + s, q);
      } else {
        SplitAtFind(s, q);
        NothingEarlier(s, q);
        var k := Find(s, q).value;
        ReplaceAfterAt(pre, s[..k], s[k + |q|..], q, t, limit);
      }
    }
  }

  lemma SettledAfterPatch(a: Bytes, q: Bytes, t: Bytes)
    requires |q| > 0 && Apart(q, t) && Absent(a + AllButLast(q), q)
    ensures Settled(a + t, q, t)
  {
    assert a + [] + AllButLast(q) == a + AllButLast(q);
    SwapKeepsAbsent(a, [], t, AllButLast(q), q);
  }

  /** A one-shot replacement followed by `n` more is `n + 1` from the start. */
  lemma OneThenRest(s: Bytes, q: Bytes, t: Bytes, n: nat)
    requires |q| > 0 && Apart(q, t)
    ensures Replace(ReplaceFirst(s, q, t), q, t, n) == Replace(s, q, t, n + 1)
  {
    if Find(s, q).Some? {
      var k := Find(s, q).value;
      var a, b := s[..k], s[k + |q|..];
      SplitAtFind(s, q);
      NothingEarlier(s, q);
      SettledAfterPatch(a, q, t);
      ReplaceAfter(a + t, b, q, t, n);
      assert ReplaceFirst(s, q, t) == (a + t) + b;
    }
  }

  /** Consecutive one-shot replacements patch exactly the first occurrences, one each. */
  lemma {:induction false} CallsPatchFirstOccurrences(texts: seq<Bytes>, q: Bytes, t: Bytes)
    requires |texts| > 0 && |q| > 0 && Apart(q, t)
    requires forall i | 0 < i < |texts| :: texts[i] == ReplaceFirst(texts[i - 1], q, t)
    ensures texts[|texts| - 1] == Replace(texts[0], q, t, |texts| - 1)
    decreases |texts|
  {
    if |texts| > 1 {
      CallsPatchFirstOccurrences(texts[1..], q, t);
      OneThenRest(texts[0], q, t, |texts| - 2);
    }
  }
}
