/** Duplicate identities across flavors, looked for twice: by owner registries and by comparing
    every pair. */
module FlavorIdentity {
  import opened Wrappers
  import CodeHalf

  // --- one field ---------------------------------------------------------------------------

  /** The identity field's value in each flavor that carries it. */
  type Field<V> = seq<Option<V>>

  ghost function Distinct<V>(values: Field<V>): set<V> {
    set i | 0 <= i < |values| && values[i].Some? :: values[i].value
  }

  function Carried<V>(values: Field<V>): (r: seq<V>) {
    if values == [] then []
    else (if values[0].Some? then [values[0].value] else []) + Carried(values[1..])
  }

  predicate SameIdentity<V(==)>(values: Field<V>, i: nat, j: nat)
    requires i < |values| && j < |values|
  {
    values[i].Some? && values[i] == values[j]
  }

  ghost predicate PairwiseDistinct<V>(values: Field<V>) {
    forall i, j | 0 <= i < j < |values| :: !SameIdentity(values, i, j)
  }

  lemma {:induction false} CarriedAppend<V>(values: Field<V>, v: Option<V>)
    ensures Carried(values + [v]) == Carried(values) + if v.Some? then [v.value] else []
  {
    if values == [] {
      assert Carried([v]) == (if v.Some? then [v.value] else []) + Carried([]);
    } else {
      var head := if values[0].Some? then [values[0].value] else [];
      assert (values + [v])[1..] == values[1..] + [v] && (values + [v])[0] == values[0];
      assert Carried(values + [v]) == head + Carried(values[1..] + [v]);
      CarriedAppend(values[1..], v);
    }
  }

  predicate Names<V(==)>(values: Field<V>, errors: seq<(nat, nat)>) {
    forall e | e in errors :: e.0 < e.1 < |values| && SameIdentity(values, e.0, e.1)
  }

  predicate Registered<V(==)>(values: Field<V>, owners: map<V, nat>, n: nat) {
    forall v | v in owners :: owners[v] < n <= |values| && values[owners[v]] == Some(v)
  }

  /** One registry: a value seen before is an error against its first owner. */
  method OwnerPass<V(==)>(values: Field<V>) returns (errors: seq<(nat, nat)>)
    ensures |errors| == |Carried(values)| - |Distinct(values)|
    ensures Names(values, errors)
    ensures errors == [] <==> PairwiseDistinct(values)
  {
    hide Distinct, Carried, PairwiseDistinct, Tallied;
    TallyStart(values);
    errors := [];
    var owners: map<V, nat> := map[];
    assert owners.Keys == {};
    for i := 0 to |values|
      invariant Registered(values, owners, i) && Names(values, errors)
      invariant Tallied(values, owners.Keys, |errors|, i)
    {
      TallyStep(values, owners.Keys, |errors|, i);
      if values[i].Some? {
        var v := values[i].value;
        if v in owners {
          errors := errors + [(owners[v], i)];
        } else {
          assert owners[v := i].Keys == owners.Keys + {v};
          owners := owners[v := i];
        }
      }
    }
    TallyEnd(values, owners.Keys, |errors|);
  }

  /** One set of values seen: a value met again is an error. */
  method SeenPass<V(==)>(values: Field<V>) returns (errors: seq<nat>)
    ensures |errors| == |Carried(values)| - |Distinct(values)|
    ensures errors == [] <==> PairwiseDistinct(values)
  {
    hide Distinct, Carried, PairwiseDistinct, Tallied;
    TallyStart(values);
    errors := [];
    var seen: set<V> := {};
    for i := 0 to |values|
      invariant Tallied(values, seen, |errors|, i)
    {
      TallyStep(values, seen, |errors|, i);
      if values[i].Some? {
        var v := values[i].value;
        if v in seen {
          errors := errors + [i];
        }
        assert v in seen ==> seen + {v} == seen;
        seen := seen + {v};
      }
    }
    TallyEnd(values, seen, |errors|);
  }

  /** After `i` flavors: the values seen so far, and how many errors that makes. */
  ghost predicate Tallied<V>(values: Field<V>, seen: set<V>, errors: nat, i: nat)
    requires i <= |values|
  {
    && seen == Distinct(values[..i])
    && errors == |Carried(values[..i])| - |seen|
    && (errors == 0 <==> PairwiseDistinct(values[..i]))
  }

  lemma TallyStart<V>(values: Field<V>)
    ensures Tallied(values, {}, 0, 0)
  {
    hide Distinct, Carried, PairwiseDistinct;
    NoValues<V>();
    assert values[..0] == [];
  }

  lemma TallyEnd<V>(values: Field<V>, seen: set<V>, errors: nat)
    requires Tallied(values, seen, errors, |values|)
    ensures errors == |Carried(values)| - |Distinct(values)|
    ensures errors == 0 <==> PairwiseDistinct(values)
  {
    assert values[..|values|] == values;
  }

  lemma TallyStep<V>(values: Field<V>, seen: set<V>, errors: nat, i: nat)
    requires i < |values| && Tallied(values, seen, errors, i)
    ensures values[i].None? ==> Tallied(values, seen, errors, i + 1)
    ensures values[i].Some? ==>
      var v := values[i].value;
      if v in seen then Tallied(values, seen, errors + 1, i + 1) else Tallied(values, seen + {v}, errors, i + 1)
  {
    hide Distinct, Carried, PairwiseDistinct;
    PrefixStep(values, i);
    if values[i].Some? && values[i].value in seen {
      assert seen + {values[i].value} == seen;
    }
  }

  lemma PrefixStep<V>(values: Field<V>, i: nat)
    requires i < |values|
    ensures Distinct(values[..i + 1])
         == Distinct(values[..i]) + if values[i].Some? then {values[i].value} else {}
    ensures |Carried(values[..i + 1])| == |Carried(values[..i])| + if values[i].Some? then 1 else 0
    ensures PairwiseDistinct(values[..i + 1]) <==>
      PairwiseDistinct(values[..i]) && (values[i].Some? ==> values[i].value !in Distinct(values[..i]))
  {
    var before, after := values[..i], values[..i + 1];
    assert after == before + [values[i]];
    CarriedAppend(before, values[i]);
    forall v | v in Distinct(after)
      ensures v in Distinct(before) + if values[i].Some? then {values[i].value} else {}
    {
      var k :| 0 <= k < |after| && after[k].Some? && after[k].value == v;
      assert k < i ==> before[k] == after[k];
    }
    forall v | v in Distinct(before) ensures v in Distinct(after) {
      var k :| 0 <= k < |before| && before[k].Some? && before[k].value == v;
      assert after[k] == before[k];
    }
    if values[i].Some? {
      assert after[i].value == values[i].value;
    }
    PrefixDistinct(values, i);
  }

  lemma PrefixDistinct<V>(values: Field<V>, i: nat)
    requires i < |values|
    ensures PairwiseDistinct(values[..i + 1]) <==>
      PairwiseDistinct(values[..i]) && (values[i].Some? ==> values[i].value !in Distinct(values[..i]))
  {
    var before, after := values[..i], values[..i + 1];
    assert forall a, b | 0 <= a < b < i :: SameIdentity(after, a, b) == SameIdentity(before, a, b);
    assert forall a | 0 <= a < i :: SameIdentity(after, a, i) <==> values[i].Some? && before[a] == values[i];
    if values[i].Some? && values[i].value in Distinct(before) {
      var k :| 0 <= k < |before| && before[k].Some? && before[k].value == values[i].value;
      assert SameIdentity(after, k, i);
    } else {
      assert forall a | 0 <= a < i :: !SameIdentity(after, a, i);
    }
  }

  lemma NoValues<V>()
    ensures Distinct<V>([]) == {} && Carried<V>([]) == [] && PairwiseDistinct<V>([])
  {
  }

  /** The errors of the pairwise pass, pair by pair in loop order. */
  function PairsFrom<V(==)>(values: Field<V>, i: nat, j: nat): seq<(nat, nat)>
    requires i < j <= |values|
    decreases |values| - j
  {
    if j == |values| then []
    else (if SameIdentity(values, i, j) then [(i, j)] else []) + PairsFrom(values, i, j + 1)
  }

  function Pairs<V(==)>(values: Field<V>, i: nat): seq<(nat, nat)>
    requires i <= |values|
    decreases |values| - i
  {
    if i == |values| then [] else PairsFrom(values, i, i + 1) + Pairs(values, i + 1)
  }

  method PairPass<V(==)>(values: Field<V>) returns (errors: seq<(nat, nat)>)
    ensures errors == Pairs(values, 0)
  {
    errors := [];
    for i := 0 to |values|
      invariant errors + Pairs(values, i) == Pairs(values, 0)
    {
      ghost var before := errors;
      for j := i + 1 to |values|
        invariant errors + PairsFrom(values, i, j) == before + PairsFrom(values, i, i + 1)
      {
        if SameIdentity(values, i, j) {
          errors := errors + [(i, j)];
        }
      }
      assert before + Pairs(values, i) == (before + PairsFrom(values, i, i + 1)) + Pairs(values, i + 1);
    }
  }

  // --- how many errors each pass reports ------------------------------------------------------

  function Choose2(k: nat): nat {
    k * (k - 1) / 2
  }

  /** Sum of `k(k-1)/2` over the multiplicities of the values in `vs`. */
  ghost function PairSum<V>(vs: set<V>, m: multiset<V>): nat {
    if vs == {} then 0
    else
      var v :| v in vs;
      Choose2(m[v]) + PairSum(vs - {v}, m)
  }

  lemma {:induction false} PairSumAny<V>(vs: set<V>, m: multiset<V>, x: V)
    requires x in vs
    ensures PairSum(vs, m) == Choose2(m[x]) + PairSum(vs - {x}, m)
    decreases |vs|
  {
    var v :| v in vs && PairSum(vs, m) == Choose2(m[v]) + PairSum(vs - {v}, m);
    if v != x {
      PairSumAny(vs - {v}, m, x);
      PairSumAny(vs - {x}, m, v);
      assert vs - {v} - {x} == vs - {x} - {v};
    }
  }

  lemma {:induction false} PairSumSame<V>(vs: set<V>, m: multiset<V>, m': multiset<V>)
    requires forall v | v in vs :: m[v] == m'[v]
    ensures PairSum(vs, m) == PairSum(vs, m')
    decreases |vs|
  {
    if vs != {} {
      var v :| v in vs;
      PairSumAny(vs, m, v);
      PairSumAny(vs, m', v);
      PairSumSame(vs - {v}, m, m');
    }
  }

  lemma Choose2Next(k: nat)
    ensures Choose2(k + 1) == Choose2(k) + k
  {
    assert (k + 1) * k == k * (k - 1) + 2 * k;
  }

  lemma CountFirst<V>(x: V, rest: seq<V>, v: V)
    ensures multiset([x] + rest)[v] == multiset(rest)[v] + if x == v then 1 else 0
  {
    assert multiset([x] + rest) == multiset{x} + multiset(rest);
  }

  lemma {:induction false} PairsFromCount<V>(values: Field<V>, i: nat, j: nat)
    requires i < j <= |values|
    ensures |PairsFrom(values, i, j)|
         == if values[i].Some? then multiset(Carried(values[j..]))[values[i].value] else 0
    decreases |values| - j
  {
    if j < |values| {
      PairsFromCount(values, i, j + 1);
      PairsFromNext(values, i, j);
      hide PairsFrom;
      if values[i].Some? {
        CarriedCount(values, j, values[i].value);
      }
    }
  }

  lemma PairsFromNext<V>(values: Field<V>, i: nat, j: nat)
    requires i < j < |values|
    ensures |PairsFrom(values, i, j)|
         == |PairsFrom(values, i, j + 1)| + if values[i].Some? && values[j] == values[i] then 1 else 0
  {
  }

  lemma CarriedCount<V>(values: Field<V>, j: nat, v: V)
    requires j < |values|
    ensures multiset(Carried(values[j..]))[v]
         == multiset(Carried(values[j + 1..]))[v] + if values[j] == Some(v) then 1 else 0
  {
    CarriedFrom(values, j);
    hide Carried;
    if values[j].Some? {
      CountFirst(values[j].value, Carried(values[j + 1..]), v);
    }
  }

  ghost function Elements<V>(s: seq<V>): set<V> {
    set v | v in s
  }

  lemma CarriedFrom<V>(values: Field<V>, i: nat)
    requires i < |values|
    ensures Carried(values[i..])
         == if values[i].Some? then [values[i].value] + Carried(values[i + 1..]) else Carried(values[i + 1..])
  {
    assert values[i..][1..] == values[i + 1..];
  }

  /** The pairwise pass reports one error for each unordered pair of flavors sharing a value. */
  lemma {:induction false} PairsCount<V>(values: Field<V>, i: nat)
    requires i <= |values|
    ensures var carried := Carried(values[i..]);
      |Pairs(values, i)| == PairSum(Elements(carried), multiset(carried))
    decreases |values| - i
  {
    if i == |values| {
      assert Elements(Carried(values[i..])) == {};
    } else {
      PairsCount(values, i + 1);
      PairsNext(values, i);
      hide Pairs, PairSum, Carried, Elements;
      CarriedFrom(values, i);
      if values[i].Some? {
        AddOne(values[i].value, Carried(values[i + 1..]));
      }
    }
  }

  lemma PairsNext<V>(values: Field<V>, i: nat)
    requires i < |values|
    ensures |Pairs(values, i)| == |Pairs(values, i + 1)|
         + if values[i].Some? then multiset(Carried(values[i + 1..]))[values[i].value] else 0
  {
    hide PairsFrom, Carried;
    PairsFromCount(values, i, i + 1);
  }

  lemma AddOne<V>(x: V, rest: seq<V>)
    ensures PairSum(Elements([x] + rest), multiset([x] + rest))
         == PairSum(Elements(rest), multiset(rest)) + multiset(rest)[x]
  {
    var all := [x] + rest;
    var vs, ws := Elements(all), Elements(rest);
    var m, n := multiset(all), multiset(rest);
    assert m == multiset{x} + n;
    assert x in all;
    assert forall v :: v in all <==> v == x || v in rest;
    assert vs - {x} == ws - {x};
    PairSumAny(vs, m, x);
    PairSumSame(ws - {x}, m, n);
    Choose2Next(n[x]);
    if x in rest {
      PairSumAny(ws, n, x);
    } else {
      assert ws - {x} == ws;
      assert n[x] == 0;
    }
  }

  lemma {:induction false} PairsFromNone<V>(values: Field<V>, i: nat, j: nat)
    requires i < j <= |values|
    ensures PairsFrom(values, i, j) == [] <==> forall k | j <= k < |values| :: !SameIdentity(values, i, k)
    decreases |values| - j
  {
    if j < |values| {
      PairsFromNone(values, i, j + 1);
    }
  }

  lemma {:induction false} PairsNone<V>(values: Field<V>, i: nat)
    requires i <= |values|
    ensures Pairs(values, i) == [] <==>
      forall a, b | i <= a < b < |values| :: !SameIdentity(values, a, b)
    decreases |values| - i
  {
    if i < |values| {
      PairsNone(values, i + 1);
      PairsFromNone(values, i, i + 1);
    }
  }

  /** The pairwise pass is silent exactly when no two flavors share a value, which is exactly
      when the registry is. Its count is the pair sum over multiplicities. */
  lemma PairPassMeaning<V>(values: Field<V>)
    ensures Pairs(values, 0) == [] <==> PairwiseDistinct(values)
    ensures |Pairs(values, 0)| == PairSum(Elements(Carried(values)), multiset(Carried(values)))
  {
    hide SameIdentity, Pairs, Carried, PairSum;
    PairsNone(values, 0);
    PairsCount(values, 0);
    assert values[0..] == values;
  }

  // --- a manifest -------------------------------------------------------------------------------

  function LowerChar(c: char): char {
    if 'A' <= c <= 'Z' then (c as int + 32) as char else c
  }

  function Lower(s: string): string {
    if s == [] then [] else [LowerChar(s[0])] + Lower(s[1..])
  }

  function StripLeft(s: string): string {
    if s != [] && CodeHalf.IsSpace(s[0]) then StripLeft(s[1..]) else s
  }

  function StripRight(s: string): string {
    if s != [] && CodeHalf.IsSpace(s[|s| - 1]) then StripRight(s[..|s| - 1]) else s
  }

  function Strip(s: string): string {
    StripRight(StripLeft(s))
  }

  lemma {:induction false} LowerAt(s: string)
    ensures |Lower(s)| == |s| && forall i | 0 <= i < |s| :: Lower(s)[i] == LowerChar(s[i])
  {
    if s != [] {
      LowerAt(s[1..]);
      assert forall i | 0 < i < |s| :: s[i] == s[1..][i - 1];
    }
  }

  /** Folding maps the ASCII capitals and nothing else. */
  lemma LowerIs(s: string, i: nat)
    requires i < |s|
    ensures |Lower(s)| == |s|
    ensures 'A' <= s[i] <= 'Z' ==> Lower(s)[i] as int == s[i] as int + 32
    ensures !('A' <= s[i] <= 'Z') ==> Lower(s)[i] == s[i]
  {
    LowerAt(s);
  }

  predicate AllSpace(s: string) {
    forall i | 0 <= i < |s| :: CodeHalf.IsSpace(s[i])
  }

  lemma {:induction false} StripLeftIs(s: string)
    ensures var n := |s| - |StripLeft(s)|;
      && 0 <= n && s == s[..n] + StripLeft(s) && AllSpace(s[..n])
      && (StripLeft(s) != [] ==> !CodeHalf.IsSpace(StripLeft(s)[0]))
  {
    if s != [] && CodeHalf.IsSpace(s[0]) {
      StripLeftIs(s[1..]);
      var n := |s[1..]| - |StripLeft(s[1..])|;
      assert s[..n + 1] == [s[0]] + s[1..][..n];
    }
  }

  lemma {:induction false} StripRightIs(s: string)
    ensures var n := |StripRight(s)|;
      && n <= |s| && StripRight(s) == s[..n] && AllSpace(s[n..])
      && (n > 0 ==> !CodeHalf.IsSpace(s[n - 1]))
    decreases |s|
  {
    if s != [] && CodeHalf.IsSpace(s[|s| - 1]) {
      var cut := s[..|s| - 1];
      StripRightIs(cut);
      assert s[|StripRight(cut)|..] == cut[|StripRight(cut)|..] + [s[|s| - 1]];
    }
  }

  /** Trimming takes white space off both ends and leaves none there. */
  lemma StripIs(s: string)
    ensures exists pre, post :: s == pre + Strip(s) + post && AllSpace(pre) && AllSpace(post)
    ensures Strip(s) != [] ==>
      !CodeHalf.IsSpace(Strip(s)[0]) && !CodeHalf.IsSpace(Strip(s)[|Strip(s)| - 1])
  {
    StripLeftIs(s);
    var t := StripLeft(s);
    StripRightIs(t);
    var n := |Strip(s)|;
    var pre, post := s[..|s| - |t|], t[n..];
    assert s == pre + Strip(s) + post;
  }

  lemma {:induction false} LowerStripLeft(s: string)
    ensures Lower(StripLeft(s)) == StripLeft(Lower(s))
  {
    if s != [] {
      LowerAt(s);
      assert Lower(s)[1..] == Lower(s[1..]);
      LowerStripLeft(s[1..]);
    }
  }

  lemma {:induction false} LowerStripRight(s: string)
    ensures Lower(StripRight(s)) == StripRight(Lower(s))
    decreases |s|
  {
    if s != [] {
      LowerAt(s);
      LowerAt(s[..|s| - 1]);
      assert Lower(s)[..|s| - 1] == Lower(s[..|s| - 1]);
      LowerStripRight(s[..|s| - 1]);
    }
  }

  /** Case folding and trimming commute. */
  lemma LowerStrip(s: string)
    ensures Lower(Strip(s)) == Strip(Lower(s))
  {
    LowerStripLeft(s);
    LowerStripRight(StripLeft(s));
  }

  datatype Databases = Databases(
    realmd: Option<string>, world: Option<string>, characters: Option<string>, logs: Option<string>)

  /** The identity fields of a well-typed flavor; `None` is an absent field. */
  datatype Flavor = Flavor(
    id: Option<string>, clientId: Option<string>, build: Option<int>, version: Option<string>,
    segment: Option<string>, databases: Option<Databases>, mpqRequired: seq<string>,
    exeSha256: Option<string>, exeMd5: Option<string>, exeSize: Option<int>)

  const BLANK := Flavor(None, None, None, None, None, None, [], None, None, None)

  function Id(f: Flavor): Option<string> { f.id }
  function ClientId(f: Flavor): Option<string> { f.clientId }
  function Build(f: Flavor): Option<int> { f.build }
  function Version(f: Flavor): Option<string> { f.version }
  function DatabaseTuple(f: Flavor): Option<Databases> { f.databases }
  function ExeSha256(f: Flavor): Option<string> { f.exeSha256 }
  function ExeMd5(f: Flavor): Option<string> { f.exeMd5 }
  function ExeSize(f: Flavor): Option<int> { f.exeSize }

  function Project<V>(flavors: seq<Flavor>, key: Flavor -> Option<V>): (r: Field<V>)
    ensures |r| == |flavors| && forall i | 0 <= i < |flavors| :: r[i] == key(flavors[i])
  {
    seq(|flavors|, i requires 0 <= i < |flavors| => key(flavors[i]))
  }

  /** The registry's key: a non-empty segment, folded. */
  function OwnerSegment(f: Flavor): Option<string> {
    if f.segment.Some? && f.segment.value != "" then Some(Lower(f.segment.value)) else None
  }

  /** The pairwise key: any segment, trimmed and folded. */
  function PairSegment(f: Flavor): Option<string> {
    if f.segment.Some? then Some(Lower(Strip(f.segment.value))) else None
  }

  /** The sorted tuple of normalised names, as the multiset it sorts. */
  function MpqKey(f: Flavor): Option<multiset<string>> {
    if f.mpqRequired == [] then None
    else Some(multiset(Normalised(f.mpqRequired)))
  }

  function NamesOf(f: Flavor): Field<string> {
    match f.databases
    case None => [None, None, None, None]
    case Some(d) => [d.realmd, d.world, d.characters, d.logs]
  }

  /** Every database name of every flavor, in registration order. */
  function DatabaseNames(flavors: seq<Flavor>): Field<string> {
    if flavors == [] then [] else NamesOf(flavors[0]) + DatabaseNames(flavors[1..])
  }

  datatype Error =
    | Seen(field: string, index: nat)
    | Owner(field: string, first: nat, second: nat)
    | Pair(field: string, first: nat, second: nat)

  function Tag(field: string, owner: bool, errors: seq<(nat, nat)>): (r: seq<Error>)
    ensures |r| == |errors|
  {
    seq(|errors|, i requires 0 <= i < |errors| =>
      if owner then Owner(field, errors[i].0, errors[i].1) else Pair(field, errors[i].0, errors[i].1))
  }

  /** Both passes over one field. */
  method BothPasses<V(==), W(==)>(field: string, owners: Field<V>, pairs: Field<W>) returns (errors: seq<Error>)
    ensures errors == [] <==> PairwiseDistinct(owners) && PairwiseDistinct(pairs)
    ensures |errors| == |Carried(owners)| - |Distinct(owners)|
                        + PairSum(Elements(Carried(pairs)), multiset(Carried(pairs)))
  {
    var first := OwnerPass(owners);
    var second := PairPass(pairs);
    PairPassMeaning(pairs);
    errors := Tag(field, true, first) + Tag(field, false, second);
  }

  /** Both carry a value and it is the same. */
  predicate Shared<V(==)>(a: Option<V>, b: Option<V>) {
    a.Some? && a == b
  }

  /** The `k`th database name: realmd, world, characters, logs. */
  function NameAt(f: Flavor, k: nat): Option<string> {
    if f.databases.None? then None
    else if k == 0 then f.databases.value.realmd
    else if k == 1 then f.databases.value.world
    else if k == 2 then f.databases.value.characters
    else f.databases.value.logs
  }

  function Normalised(names: seq<string>): seq<string> {
    seq(|names|, i requires 0 <= i < |names| => Lower(Strip(names[i])))
  }

  predicate SharedSegment(a: Flavor, b: Flavor) {
    a.segment.Some? && b.segment.Some? && Lower(Strip(a.segment.value)) == Lower(Strip(b.segment.value))
  }

  /** The same required files, in any order. */
  predicate SharedFiles(a: Flavor, b: Flavor) {
    && a.mpqRequired != [] && b.mpqRequired != []
    && multiset(Normalised(a.mpqRequired)) == multiset(Normalised(b.mpqRequired))
  }

  ghost predicate SharedName(a: Flavor, b: Flavor) {
    exists k, k' :: 0 <= k < 4 && 0 <= k' < 4 && Shared(NameAt(a, k), NameAt(b, k'))
  }

  predicate SharedId(a: Flavor, b: Flavor) { Shared(a.id, b.id) }
  predicate SharedClientId(a: Flavor, b: Flavor) { Shared(a.clientId, b.clientId) }
  predicate SharedBuild(a: Flavor, b: Flavor) { Shared(a.build, b.build) }
  predicate SharedVersion(a: Flavor, b: Flavor) { Shared(a.version, b.version) }
  predicate SharedTuple(a: Flavor, b: Flavor) { Shared(a.databases, b.databases) }
  predicate SharedSha256(a: Flavor, b: Flavor) { Shared(a.exeSha256, b.exeSha256) }
  predicate SharedMd5(a: Flavor, b: Flavor) { Shared(a.exeMd5, b.exeMd5) }
  predicate SharedSize(a: Flavor, b: Flavor) { Shared(a.exeSize, b.exeSize) }

  ghost predicate NothingShared(a: Flavor, b: Flavor) {
    && !Shared(a.id, b.id) && !Shared(a.clientId, b.clientId)
    && !Shared(a.build, b.build) && !Shared(a.version, b.version)
    && !SharedSegment(a, b) && !SharedName(a, b) && !Shared(a.databases, b.databases) && !SharedFiles(a, b)
    && !Shared(a.exeSha256, b.exeSha256) && !Shared(a.exeMd5, b.exeMd5) && !Shared(a.exeSize, b.exeSize)
  }

  predicate OwnNamesDiffer(f: Flavor) {
    forall k, k' | 0 <= k < k' < 4 :: !Shared(NameAt(f, k), NameAt(f, k'))
  }

  /** No two flavors share an identity, and no flavor names a database twice. */
  ghost predicate DistinctIdentities(flavors: seq<Flavor>) {
    && (forall i, j | 0 <= i < j < |flavors| :: NothingShared(flavors[i], flavors[j]))
    && forall i | 0 <= i < |flavors| :: OwnNamesDiffer(flavors[i])
  }

  /** No value of the field is shared between two flavors. */
  ghost predicate FieldDistinct(flavors: seq<Flavor>, shared: (Flavor, Flavor) -> bool) {
    forall i, j | 0 <= i < j < |flavors| :: !shared(flavors[i], flavors[j])
  }

  lemma FieldDistinctIff<V>(flavors: seq<Flavor>, key: Flavor -> Option<V>, shared: (Flavor, Flavor) -> bool)
    requires forall a, b :: shared(a, b) <==> key(a).Some? && key(a) == key(b)
    ensures PairwiseDistinct(Project(flavors, key)) <==> FieldDistinct(flavors, shared)
  {
    var values := Project(flavors, key);
    assert forall i, j | 0 <= i < j < |flavors| :: SameIdentity(values, i, j) <==> shared(flavors[i], flavors[j]);
  }

  lemma {:induction false} DatabaseNamesAt(flavors: seq<Flavor>, i: nat, k: nat)
    requires i < |flavors| && k < 4
    ensures |DatabaseNames(flavors)| == 4 * |flavors|
    ensures DatabaseNames(flavors)[4 * i + k] == NameAt(flavors[i], k)
    decreases |flavors|
  {
    assert |NamesOf(flavors[0])| == 4;
    DatabaseNamesLength(flavors[1..]);
    if i > 0 {
      DatabaseNamesAt(flavors[1..], i - 1, k);
    }
  }

  lemma {:induction false} DatabaseNamesLength(flavors: seq<Flavor>)
    ensures |DatabaseNames(flavors)| == 4 * |flavors|
  {
    if flavors != [] {
      DatabaseNamesLength(flavors[1..]);
    }
  }

  /** Each database name counts on its own, within a flavor and between two. */
  lemma DatabaseNamesDistinctIff(flavors: seq<Flavor>)
    ensures PairwiseDistinct(DatabaseNames(flavors)) <==>
      && (forall i, j | 0 <= i < j < |flavors| :: !SharedName(flavors[i], flavors[j]))
      && forall i | 0 <= i < |flavors| :: OwnNamesDiffer(flavors[i])
  {
    hide DatabaseNames;
    var names := DatabaseNames(flavors);
    DatabaseNamesLength(flavors);
    if PairwiseDistinct(names) {
      forall i, j, k, k' | 0 <= i <= j < |flavors| && 0 <= k < 4 && 0 <= k' < 4 && (i < j || k < k')
        ensures !Shared(NameAt(flavors[i], k), NameAt(flavors[j], k'))
      {
        DatabaseNamesAt(flavors, i, k);
        DatabaseNamesAt(flavors, j, k');
        assert !SameIdentity(names, 4 * i + k, 4 * j + k');
      }
    } else {
      var p, q :| 0 <= p < q < |names| && SameIdentity(names, p, q);
      DatabaseNamesAt(flavors, p / 4, p % 4);
      DatabaseNamesAt(flavors, q / 4, q % 4);
      assert Shared(NameAt(flavors[p / 4], p % 4), NameAt(flavors[q / 4], q % 4));
    }
  }

  /** Two segments with one trimmed, folded text that the registry keeps apart: one is empty, or
      they fold to different texts because one is padded. */
  predicate PaddedCopy(a: Flavor, b: Flavor) {
    && a.segment.Some? && b.segment.Some?
    && Lower(Strip(a.segment.value)) == Lower(Strip(b.segment.value))
    && (a.segment.value == "" || b.segment.value == "" || Lower(a.segment.value) != Lower(b.segment.value))
  }

  lemma SharedKeyIff(a: Flavor, b: Flavor)
    ensures PairSegment(a).Some? && PairSegment(a) == PairSegment(b) <==>
      (OwnerSegment(a).Some? && OwnerSegment(a) == OwnerSegment(b)) || PaddedCopy(a, b)
  {
    hide Lower, Strip;
    if a.segment.Some? && b.segment.Some? {
      LowerStrip(a.segment.value);
      LowerStrip(b.segment.value);
    }
  }

  /** On the prefix segment the pairwise pass is silent exactly when the registry is and no flavor
      holds a padded copy of another's segment. */
  lemma SegmentPassesAgreeIff(flavors: seq<Flavor>)
    ensures PairwiseDistinct(Project(flavors, PairSegment)) <==>
      && PairwiseDistinct(Project(flavors, OwnerSegment))
      && forall i, j | 0 <= i < j < |flavors| :: !PaddedCopy(flavors[i], flavors[j])
  {
    hide PairSegment, OwnerSegment, PaddedCopy;
    var os, ps := Project(flavors, OwnerSegment), Project(flavors, PairSegment);
    forall i, j | 0 <= i < j < |flavors|
      ensures SameIdentity(ps, i, j) <==> SameIdentity(os, i, j) || PaddedCopy(flavors[i], flavors[j])
    {
      SharedKeyIff(flavors[i], flavors[j]);
    }
  }

  lemma {:induction false} StripLeftShortens(s: string)
    ensures |StripLeft(s)| <= |s| && (|StripLeft(s)| == |s| ==> StripLeft(s) == s)
  {
    if s != [] && CodeHalf.IsSpace(s[0]) {
      StripLeftShortens(s[1..]);
    }
  }

  lemma {:induction false} StripRightShortens(s: string)
    ensures |StripRight(s)| <= |s| && (|StripRight(s)| == |s| ==> StripRight(s) == s)
    decreases |s|
  {
    if s != [] && CodeHalf.IsSpace(s[|s| - 1]) {
      StripRightShortens(s[..|s| - 1]);
    }
  }

  predicate Trimmed(f: Flavor) {
    f.segment.Some? ==> f.segment.value != "" && Strip(f.segment.value) == f.segment.value
  }

  lemma SameKeyIffTrimmed(f: Flavor)
    ensures OwnerSegment(f) == PairSegment(f) <==> Trimmed(f)
  {
    hide Lower, StripLeft, StripRight;
    if f.segment.Some? {
      var s := f.segment.value;
      LowerAt(s);
      LowerAt(Strip(s));
      StripLeftShortens(s);
      StripRightShortens(StripLeft(s));
    }
  }

  /** The two passes use the same keys exactly on manifests whose segments are trimmed and not
      empty. */
  lemma TrimmedSegmentsAgree(flavors: seq<Flavor>)
    ensures Project(flavors, OwnerSegment) == Project(flavors, PairSegment) <==>
      forall i | 0 <= i < |flavors| :: Trimmed(flavors[i])
  {
    hide PairSegment, OwnerSegment, Trimmed;
    var os, ps := Project(flavors, OwnerSegment), Project(flavors, PairSegment);
    forall i | 0 <= i < |flavors| ensures os[i] == ps[i] <==> Trimmed(flavors[i]) {
      SameKeyIffTrimmed(flavors[i]);
    }
  }

  /** The registry alone misses a padded copy; the pairwise pass sees it. */
  lemma RegistryMissesPadding()
    ensures var flavors := [BLANK.(segment := Some("wow")), BLANK.(segment := Some(" wow"))];
      && PairwiseDistinct(Project(flavors, OwnerSegment))
      && !PairwiseDistinct(Project(flavors, PairSegment))
  {
    var flavors := [BLANK.(segment := Some("wow")), BLANK.(segment := Some(" wow"))];
    var os, ps := Project(flavors, OwnerSegment), Project(flavors, PairSegment);
    LowerAt("wow");
    LowerAt(" wow");
    assert |os[0].value| == 3 && |os[1].value| == 4;
    assert StripLeft(" wow") == StripLeft(" wow"[1..]) && " wow"[1..] == "wow";
    assert Strip(" wow") == Strip("wow");
    assert SameIdentity(ps, 0, 1);
  }

  /** The identities of a manifest are distinct exactly when the keys of the two passes are. */
  lemma FieldsDecide(flavors: seq<Flavor>)
    ensures DistinctIdentities(flavors) <==>
      && PairwiseDistinct(Project(flavors, Id)) && PairwiseDistinct(Project(flavors, ClientId))
      && PairwiseDistinct(Project(flavors, Build)) && PairwiseDistinct(Project(flavors, Version))
      && PairwiseDistinct(Project(flavors, PairSegment)) && PairwiseDistinct(DatabaseNames(flavors))
      && PairwiseDistinct(Project(flavors, DatabaseTuple)) && PairwiseDistinct(Project(flavors, MpqKey))
      && PairwiseDistinct(Project(flavors, ExeSha256)) && PairwiseDistinct(Project(flavors, ExeMd5))
      && PairwiseDistinct(Project(flavors, ExeSize))
  {
    hide PairwiseDistinct, Project, SharedName, OwnNamesDiffer, NothingShared, FieldDistinct;
    FieldDistinctIff(flavors, Id, SharedId);
    FieldDistinctIff(flavors, ClientId, SharedClientId);
    FieldDistinctIff(flavors, Build, SharedBuild);
    FieldDistinctIff(flavors, Version, SharedVersion);
    FieldDistinctIff(flavors, PairSegment, SharedSegment);
    FieldDistinctIff(flavors, DatabaseTuple, SharedTuple);
    FieldDistinctIff(flavors, MpqKey, SharedFiles);
    FieldDistinctIff(flavors, ExeSha256, SharedSha256);
    FieldDistinctIff(flavors, ExeMd5, SharedMd5);
    FieldDistinctIff(flavors, ExeSize, SharedSize);
    DatabaseNamesDistinctIff(flavors);
    hide SharedSegment, SharedFiles;
    FieldByField(flavors);
  }

  lemma FieldByField(flavors: seq<Flavor>)
    ensures (forall i, j | 0 <= i < j < |flavors| :: NothingShared(flavors[i], flavors[j])) <==>
      && FieldDistinct(flavors, SharedId) && FieldDistinct(flavors, SharedClientId)
      && FieldDistinct(flavors, SharedBuild) && FieldDistinct(flavors, SharedVersion)
      && FieldDistinct(flavors, SharedSegment) && FieldDistinct(flavors, SharedTuple)
      && FieldDistinct(flavors, SharedFiles) && FieldDistinct(flavors, SharedSha256)
      && FieldDistinct(flavors, SharedMd5) && FieldDistinct(flavors, SharedSize)
      && forall i, j | 0 <= i < j < |flavors| :: !SharedName(flavors[i], flavors[j])
  {
    hide SharedSegment, SharedFiles, SharedName, Shared;
  }

  /** The identity checks of a whole manifest: clean exactly when no two flavors share any
      identity, each database name counting on its own. */
  method Validate(flavors: seq<Flavor>) returns (errors: seq<Error>)
    ensures errors == [] <==> DistinctIdentities(flavors)
  {
    hide PairwiseDistinct, Project, DistinctIdentities;
    var ids := SeenPass(Project(flavors, Id));
    var clientIds := SeenPass(Project(flavors, ClientId));
    var e0 := seq(|ids|, i requires 0 <= i < |ids| => Seen("id", ids[i]))
            + seq(|clientIds|, i requires 0 <= i < |clientIds| => Seen("client_id", clientIds[i]));
    var e1 := BothPasses("build", Project(flavors, Build), Project(flavors, Build));
    var e2 := BothPasses("version_resource", Project(flavors, Version), Project(flavors, Version));
    var e3 := BothPasses("wine.prefix_segment", Project(flavors, OwnerSegment), Project(flavors, PairSegment));
    var e4 := BothPasses("databases", DatabaseNames(flavors), Project(flavors, DatabaseTuple));
    var e5 := BothPasses("mpq_set.required", Project(flavors, MpqKey), Project(flavors, MpqKey));
    var e6 := BothPasses("wine.known_exe_sha256", Project(flavors, ExeSha256), Project(flavors, ExeSha256));
    var e7 := BothPasses("client_binary.known_exe_md5", Project(flavors, ExeMd5), Project(flavors, ExeMd5));
    var e8 := BothPasses("client_binary.known_exe_size_bytes", Project(flavors, ExeSize), Project(flavors, ExeSize));
    SegmentPassesAgreeIff(flavors);
    FieldsDecide(flavors);
    errors := e0 + e1 + e2 + e3 + e4 + e5 + e6 + e7 + e8;
  }
}
