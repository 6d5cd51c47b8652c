/** Binding each flavor's commit pins to the sources manifest. */
module Provenance {
  import opened Wrappers
  import opened Sorting

  datatype Source = Source(id: Option<string>, url: Option<string>, commit: Option<string>)

  /** A flavor's commit group; an absent or non-string field is `None`. */
  datatype Group = Group(upstream: Option<string>, commit: Option<string>)

  // --- duplicate ids --------------------------------------------------------------------------

  predicate HasId(s: Source, id: string) {
    s.id == Some(id)
  }

  function CountId(sources: seq<Source>, id: string): nat {
    if sources == [] then 0 else (if HasId(sources[0], id) then 1 else 0) + CountId(sources[1..], id)
  }

  lemma {:induction false} CountAppend(sources: seq<Source>, s: Source, id: string)
    ensures CountId(sources + [s], id) == CountId(sources, id) + if HasId(s, id) then 1 else 0
  {
    if sources == [] {
      assert [s][1..] == [];
    } else {
      assert (sources + [s])[1..] == sources[1..] + [s];
      CountAppend(sources[1..], s, id);
    }
  }

  function Rank(c: char): int {
    c as int
  }

  predicate Duplicated(sources: seq<Source>, id: string) {
    id != "" && CountId(sources, id) > 1
  }

  /** The duplicated ids, each once, in order. */
  method DuplicateSourceIds(sources: seq<Source>) returns (duplicates: seq<string>)
    ensures Ordered(duplicates, Rank)
    ensures forall id :: multiset(duplicates)[id] == if Duplicated(sources, id) then 1 else 0
  {
    var counts: map<string, nat> := map[];
    for i := 0 to |sources|
      invariant forall id :: id in counts <==> id != "" && CountId(sources[..i], id) > 0
      invariant forall id | id in counts :: counts[id] == CountId(sources[..i], id)
    {
      forall id
        ensures CountId(sources[..i + 1], id) == CountId(sources[..i], id) + if HasId(sources[i], id) then 1 else 0
      {
        assert sources[..i + 1] == sources[..i] + [sources[i]];
        CountAppend(sources[..i], sources[i], id);
      }
      if sources[i].id.Some? && sources[i].id.value != "" {
        var id := sources[i].id.value;
        counts := counts[id := (if id in counts then counts[id] else 0) + 1];
      }
    }
    assert sources[..|sources|] == sources;
    var repeated := set id | id in counts && counts[id] > 1;
    assert forall id :: id in repeated <==> Duplicated(sources, id);
    var ids := ListOf(repeated);
    SortedIsOrdered(ids, Rank);
    duplicates := Sorted(ids, Rank);
  }

  method ListOf(ids: set<string>) returns (list: seq<string>)
    ensures multiset(list) == multiset(ids)
  {
    list := [];
    var rest := ids;
    while rest != {}
      invariant rest <= ids && multiset(list) == multiset(ids - rest)
    {
      var id :| id in rest;
      assert ids - (rest - {id}) == (ids - rest) + {id};
      list := list + [id];
      rest := rest - {id};
    }
    assert ids - {} == ids;
  }

  // --- resolution -----------------------------------------------------------------------------

  function Filter(sources: seq<Source>, ids: seq<string>): (r: seq<Source>)
    ensures forall s :: s in r <==> s in sources && s.id.Some? && s.id.value in ids
    ensures |r| <= |sources|
  {
    if sources == [] then []
    else
      (if sources[0].id.Some? && sources[0].id.value in ids then [sources[0]] else [])
      + Filter(sources[1..], ids)
  }

  function FirstWithUrl(sources: seq<Source>, url: string): (r: Option<Source>)
    ensures r.Some? ==> r.value in sources && r.value.url == Some(url)
    ensures r.None? ==> forall s | s in sources :: s.url != Some(url)
  {
    if sources == [] then None
    else if sources[0].url == Some(url) then Some(sources[0]) else FirstWithUrl(sources[1..], url)
  }

  function FirstWithId(sources: seq<Source>, id: string): (r: Option<Source>)
    ensures r.Some? ==> r.value in sources && r.value.id == Some(id)
    ensures r.None? ==> forall s | s in sources :: s.id != Some(id)
  {
    if sources == [] then None
    else if sources[0].id == Some(id) then Some(sources[0]) else FirstWithId(sources[1..], id)
  }

  function FirstFallback(sources: seq<Source>, ids: seq<string>): (r: Option<Source>)
    ensures r.Some? ==> r.value in sources && r.value.id.Some? && r.value.id.value in ids
    ensures r.None? ==> forall s | s in sources :: s.id.Some? ==> s.id.value !in ids
  {
    if ids == [] then None
    else if FirstWithId(sources, ids[0]).Some? then FirstWithId(sources, ids[0])
    else FirstFallback(sources, ids[1..])
  }

  /** The entries a group may bind to; `None` refuses outright. */
  function Candidates(ids: seq<string>, sources: seq<Source>): Option<seq<Source>> {
    var expected := Filter(sources, ids);
    if |ids| <= 1 then Some(expected)
    else
      var own := Filter(expected, ids[..|ids| - 1]);
      if own != [] then Some(own)
      else if |expected| == 1 && expected[0].id == Some(ids[|ids| - 1]) then None
      else Some(expected)
  }

  function ResolveSource(group: Group, ids: seq<string>, sources: seq<Source>): Option<Source> {
    match Candidates(ids, sources)
    case None => None
    case Some(expected) =>
      if group.upstream.Some? && group.upstream.value != "" && FirstWithUrl(expected, group.upstream.value).Some?
      then FirstWithUrl(expected, group.upstream.value)
      else FirstFallback(expected, ids)
  }

  lemma {:induction false} FilterCount(sources: seq<Source>, ids: seq<string>, id: string)
    requires id in ids
    ensures CountId(Filter(sources, ids), id) == CountId(sources, id)
  {
    if sources != [] {
      FilterCount(sources[1..], ids, id);
      var tail := Filter(sources[1..], ids);
      if sources[0].id.Some? && sources[0].id.value in ids {
        assert ([sources[0]] + tail)[1..] == tail;
      } else {
        assert [] + tail == tail;
      }
    }
  }

  lemma {:induction false} AllOneId(sources: seq<Source>, id: string)
    requires forall s | s in sources :: HasId(s, id)
    ensures CountId(sources, id) == |sources|
  {
    if sources != [] {
      AllOneId(sources[1..], id);
    }
  }

  /** A flavor's fallback ids: its own, then the legacy one. */
  predicate OwnThenLegacy(ids: seq<string>) {
    |ids| > 1 && ids[|ids| - 1] !in ids[..|ids| - 1]
  }

  /** A group binds to the legacy entry exactly when the flavor has no entry of its own and the
      legacy id is duplicated, whatever URL the group carries. */
  lemma BindsToLegacyIff(group: Group, ids: seq<string>, sources: seq<Source>)
    requires OwnThenLegacy(ids)
    ensures var legacy := ids[|ids| - 1];
      var r := ResolveSource(group, ids, sources);
      (r.Some? && r.value.id == Some(legacy)) <==>
        Filter(sources, ids[..|ids| - 1]) == [] && CountId(sources, legacy) > 1
  {
    var legacy, own := ids[|ids| - 1], ids[..|ids| - 1];
    var expected := Filter(sources, ids);
    assert forall x :: x in ids <==> x in own || x == legacy;
    FilterCount(sources, ids, legacy);
    OwnOfExpected(ids, sources);
    if Filter(sources, own) == [] {
      forall s | s in expected ensures HasId(s, legacy) {
        assert s.id.value in own ==> s in Filter(sources, own);
      }
      AllOneId(expected, legacy);
      if |expected| > 1 {
        assert expected[0] in expected;
      }
    }
  }

  lemma OwnOfExpected(ids: seq<string>, sources: seq<Source>)
    requires |ids| > 1
    ensures Filter(Filter(sources, ids), ids[..|ids| - 1]) == [] <==> Filter(sources, ids[..|ids| - 1]) == []
  {
    var own := ids[..|ids| - 1];
    var inner, outer := Filter(Filter(sources, ids), own), Filter(sources, own);
    if inner != [] {
      assert inner[0] in inner && inner[0] in outer;
    }
    if outer != [] {
      assert outer[0] in outer && outer[0].id.value in ids && outer[0] in inner;
    }
  }

  /** With no duplicate ids, what a group resolves to is one of the flavor's own entries. */
  lemma ResolvesToOwn(group: Group, ids: seq<string>, sources: seq<Source>)
    requires OwnThenLegacy(ids) && CountId(sources, ids[|ids| - 1]) <= 1
    ensures var r := ResolveSource(group, ids, sources);
      r.Some? ==> r.value in sources && r.value.id.Some? && r.value.id.value in ids[..|ids| - 1]
  {
    BindsToLegacyIff(group, ids, sources);
    var r := ResolveSource(group, ids, sources);
    if r.Some? {
      assert r.value in Filter(sources, ids);
      assert forall x :: x in ids <==> x in ids[..|ids| - 1] || x == ids[|ids| - 1];
    }
  }

  // --- which entry it is ------------------------------------------------------------------------

  predicate Matches(s: Source, ids: seq<string>, url: Option<string>) {
    s.id.Some? && s.id.value in ids && (url.Some? ==> s.url == url)
  }

  /** Entry `k` is the first of the file that matches. */
  predicate FirstMatch(sources: seq<Source>, ids: seq<string>, url: Option<string>, k: nat) {
    k < |sources| && Matches(sources[k], ids, url) && forall j | 0 <= j < k :: !Matches(sources[j], ids, url)
  }

  ghost predicate AnyMatch(sources: seq<Source>, ids: seq<string>, url: Option<string>) {
    exists s :: s in sources && Matches(s, ids, url)
  }

  lemma MatchLater(sources: seq<Source>, ids: seq<string>, url: Option<string>, k: nat)
    requires sources != [] && !Matches(sources[0], ids, url) && FirstMatch(sources[1..], ids, url, k)
    ensures FirstMatch(sources, ids, url, k + 1)
  {
    forall j | 0 <= j < k + 1 ensures !Matches(sources[j], ids, url) {
      assert j > 0 ==> sources[j] == sources[1..][j - 1];
    }
  }

  lemma FilterHead(sources: seq<Source>, ids: seq<string>)
    requires sources != []
    ensures Filter(sources, ids)
         == if Matches(sources[0], ids, None) then [sources[0]] + Filter(sources[1..], ids)
            else Filter(sources[1..], ids)
  {
    assert [] + Filter(sources[1..], ids) == Filter(sources[1..], ids);
  }

  lemma FirstUrlThen(s: Source, rest: seq<Source>, url: string)
    ensures FirstWithUrl([s] + rest, url) == if s.url == Some(url) then Some(s) else FirstWithUrl(rest, url)
  {
    assert ([s] + rest)[1..] == rest;
  }

  lemma FirstIdThen(s: Source, rest: seq<Source>, id: string)
    ensures FirstWithId([s] + rest, id) == if s.id == Some(id) then Some(s) else FirstWithId(rest, id)
  {
    assert ([s] + rest)[1..] == rest;
  }

  lemma {:induction false} FirstUrlOfFilter(sources: seq<Source>, ids: seq<string>, url: string) returns (k: nat)
    requires AnyMatch(sources, ids, Some(url))
    ensures FirstMatch(sources, ids, Some(url), k)
    ensures FirstWithUrl(Filter(sources, ids), url) == Some(sources[k])
  {
    FilterHead(sources, ids);
    hide Filter;
    if Matches(sources[0], ids, None) {
      FirstUrlThen(sources[0], Filter(sources[1..], ids), url);
    }
    hide FirstWithUrl;
    if Matches(sources[0], ids, Some(url)) {
      k := 0;
    } else {
      var s :| s in sources && Matches(s, ids, Some(url));
      assert s in sources[1..];
      k := FirstUrlOfFilter(sources[1..], ids, url);
      MatchLater(sources, ids, Some(url), k);
      k := k + 1;
    }
  }

  lemma {:induction false} FirstIdOfFilter(sources: seq<Source>, ids: seq<string>, id: string) returns (k: nat)
    requires id in ids && AnyMatch(sources, [id], None)
    ensures FirstMatch(sources, [id], None, k)
    ensures FirstWithId(Filter(sources, ids), id) == Some(sources[k])
  {
    FilterHead(sources, ids);
    hide Filter;
    if Matches(sources[0], ids, None) {
      FirstIdThen(sources[0], Filter(sources[1..], ids), id);
    }
    hide FirstWithId;
    if Matches(sources[0], [id], None) {
      k := 0;
    } else {
      var s :| s in sources && Matches(s, [id], None);
      assert s in sources[1..];
      k := FirstIdOfFilter(sources[1..], ids, id);
      MatchLater(sources, [id], None, k);
      k := k + 1;
    }
  }

  /** The first of the ids that some entry carries. */
  ghost predicate FirstCarried(sources: seq<Source>, ids: seq<string>, n: nat) {
    n < |ids| && AnyMatch(sources, [ids[n]], None) && forall m | 0 <= m < n :: !AnyMatch(sources, [ids[m]], None)
  }

  lemma {:induction false} FallbackIs(sources: seq<Source>, within: seq<string>, ids: seq<string>)
    returns (n: nat, k: nat)
    requires forall id | id in ids :: id in within || !AnyMatch(sources, [id], None)
    requires AnyMatch(sources, ids, None)
    ensures FirstCarried(sources, ids, n) && FirstMatch(sources, [ids[n]], None, k)
    ensures FirstFallback(Filter(sources, within), ids) == Some(sources[k])
    decreases |ids|
  {
    var found := Filter(sources, within);
    if AnyMatch(sources, [ids[0]], None) {
      n := 0;
      k := FirstIdOfFilter(sources, within, ids[0]);
    } else {
      var s :| s in sources && Matches(s, ids, None);
      NotThatId(sources, s, ids[0]);
      assert s.id.value in ids[1..];
      assert Matches(s, ids[1..], None);
      NotCarried(sources, within, ids[0]);
      n, k := FallbackIs(sources, within, ids[1..]);
      assert forall m | 0 < m < |ids| :: ids[m] == ids[1..][m - 1];
      n := n + 1;
    }
  }

  lemma NotThatId(sources: seq<Source>, s: Source, id: string)
    requires s in sources && !AnyMatch(sources, [id], None)
    ensures s.id != Some(id)
  {
    assert !Matches(s, [id], None);
    assert id in [id];
  }

  lemma NotCarried(sources: seq<Source>, within: seq<string>, id: string)
    requires !AnyMatch(sources, [id], None)
    ensures FirstWithId(Filter(sources, within), id) == None
  {
    var r := FirstWithId(Filter(sources, within), id);
    assert r.Some? ==> Matches(r.value, [id], None);
  }

  lemma {:induction false} FilterTwice(sources: seq<Source>, ids: seq<string>, own: seq<string>)
    requires forall id | id in own :: id in ids
    ensures Filter(Filter(sources, ids), own) == Filter(sources, own)
  {
    if sources != [] {
      FilterTwice(sources[1..], ids, own);
      FilterHead(sources, ids);
      FilterHead(sources, own);
      var rest := Filter(sources[1..], ids);
      if Matches(sources[0], ids, None) {
        assert ([sources[0]] + rest)[1..] == rest;
        FilterHead([sources[0]] + rest, own);
      }
    }
  }

  lemma OwnCandidates(ids: seq<string>, sources: seq<Source>)
    requires |ids| > 1 && AnyMatch(sources, ids[..|ids| - 1], None)
    ensures Candidates(ids, sources) == Some(Filter(sources, ids[..|ids| - 1]))
  {
    var own := ids[..|ids| - 1];
    FilterTwice(sources, ids, own);
    var s :| s in sources && Matches(s, own, None);
    assert s in Filter(sources, own);
  }

  /** Among a flavor's own entries, the first that carries the group's upstream URL is taken. */
  lemma UrlDecides(group: Group, ids: seq<string>, sources: seq<Source>) returns (k: nat)
    requires |ids| > 1 && group.upstream.Some? && group.upstream.value != ""
    requires AnyMatch(sources, ids[..|ids| - 1], group.upstream)
    ensures FirstMatch(sources, ids[..|ids| - 1], group.upstream, k)
    ensures ResolveSource(group, ids, sources) == Some(sources[k])
  {
    var own := ids[..|ids| - 1];
    var s :| s in sources && Matches(s, own, group.upstream);
    assert Matches(s, own, None);
    OwnCandidates(ids, sources);
    k := FirstUrlOfFilter(sources, own, group.upstream.value);
  }

  /** When none carries it, the first entry of the first own id that has one is taken. */
  lemma FallbackDecides(group: Group, ids: seq<string>, sources: seq<Source>) returns (n: nat, k: nat)
    requires |ids| > 1 && AnyMatch(sources, ids[..|ids| - 1], None)
    requires group.upstream.Some? && group.upstream.value != "" ==> !AnyMatch(sources, ids[..|ids| - 1], group.upstream)
    ensures n < |ids| - 1 && FirstCarried(sources, ids[..|ids| - 1], n)
    ensures FirstMatch(sources, [ids[n]], None, k)
    ensures ResolveSource(group, ids, sources) == Some(sources[k])
  {
    var own := ids[..|ids| - 1];
    OwnCandidates(ids, sources);
    var expected := Filter(sources, own);
    if group.upstream.Some? && group.upstream.value != "" {
      var r := FirstWithUrl(expected, group.upstream.value);
      assert r.Some? ==> Matches(r.value, own, group.upstream);
    }
    n, k := FallbackIs(sources, own, own);
    FallbackOfOwn(expected, ids, own);
  }

  lemma {:induction false} FallbackOfOwn(expected: seq<Source>, ids: seq<string>, own: seq<string>)
    requires own <= ids && FirstFallback(expected, own).Some?
    ensures FirstFallback(expected, ids) == FirstFallback(expected, own)
    decreases |own|
  {
    if FirstWithId(expected, own[0]).None? {
      FallbackOfOwn(expected, ids[1..], own[1..]);
    }
  }

  // --- the pins of a flavor ---------------------------------------------------------------------

  datatype Flavor = Flavor(id: string, serverCore: Option<Group>, dbContent: Option<Group>, bots: Option<Group>)

  datatype Binding = Binding(group: Option<Group>, ids: seq<string>)

  function Bindings(f: Flavor): seq<Binding> {
    if f.id == "vanilla" then
      [Binding(f.serverCore, ["cmangos-core"]), Binding(f.dbContent, ["cmangos-db"]), Binding(f.bots, ["playerbots"])]
    else if f.id == "tbc" then
      [Binding(f.serverCore, ["cmangos-core-tbc", "cmangos-core"]),
       Binding(f.dbContent, ["cmangos-db-tbc", "cmangos-db"]), Binding(f.bots, ["playerbots-tbc", "playerbots"])]
    else if f.id == "wotlk" then
      [Binding(f.serverCore, ["cmangos-core-wotlk", "cmangos-core"]),
       Binding(f.dbContent, ["cmangos-db-wotlk", "cmangos-db"]), Binding(f.bots, ["playerbots-wotlk", "playerbots"])]
    else []
  }

  datatype PinError = UnknownFlavor(id: string) | NoSource | NoSourceCommit | CommitDrift

  /** A pin of the group that must be bound. */
  predicate Pinned(b: Binding) {
    b.group.Some? && b.group.value.commit.Some? && b.group.value.commit.value != ""
  }

  function PinErrors(b: Binding, sources: seq<Source>): seq<PinError> {
    if !Pinned(b) then []
    else match ResolveSource(b.group.value, b.ids, sources)
      case None => [NoSource]
      case Some(s) =>
        if s.commit.None? || s.commit.value == "" then [NoSourceCommit]
        else if s.commit != b.group.value.commit then [CommitDrift]
        else []
  }

  /** The binding carries no commit, or it is the commit of the entry the group resolves to. */
  predicate Holds(b: Binding, sources: seq<Source>) {
    b.group.None? || b.group.value.commit.None? || b.group.value.commit.value == ""
    || (var r := ResolveSource(b.group.value, b.ids, sources);
        r.Some? && r.value.commit == b.group.value.commit)
  }

  lemma NoErrorsIffHolds(b: Binding, sources: seq<Source>)
    ensures PinErrors(b, sources) == [] <==> Holds(b, sources)
  {
    hide ResolveSource;
  }

  lemma KnownFlavors(f: Flavor)
    ensures Bindings(f) != [] <==> f.id in {"vanilla", "tbc", "wotlk"}
  {
  }

  method CheckSourcePins(f: Flavor, sources: seq<Source>) returns (errors: seq<PinError>)
    ensures errors == [] <==>
      Bindings(f) != [] && forall k | 0 <= k < |Bindings(f)| :: PinErrors(Bindings(f)[k], sources) == []
    ensures errors == [] <==>
      && f.id in {"vanilla", "tbc", "wotlk"}
      && forall k | 0 <= k < |Bindings(f)| :: Holds(Bindings(f)[k], sources)
  {
    hide Bindings, ResolveSource;
    var table := Bindings(f);
    KnownFlavors(f);
    forall b ensures PinErrors(b, sources) == [] <==> Holds(b, sources) {
      NoErrorsIffHolds(b, sources);
    }
    hide Holds;
    if table == [] {
      return [UnknownFlavor(f.id)];
    }
    errors := [];
    for k := 0 to |table|
      invariant errors == [] <==> forall j | 0 <= j < k :: PinErrors(table[j], sources) == []
    {
      var b := table[k];
      if b.group.None? || b.group.value.commit.None? || b.group.value.commit.value == "" {
        continue;
      }
      var source := ResolveSource(b.group.value, b.ids, sources);
      if source.None? {
        errors := errors + [NoSource];
        continue;
      }
      if source.value.commit.None? || source.value.commit.value == "" {
        errors := errors + [NoSourceCommit];
        continue;
      }
      if b.group.value.commit != source.value.commit {
        errors := errors + [CommitDrift];
      }
    }
  }

  /** The flavor's own source ids for a group: all but the legacy tail, if there is one. */
  function OwnIds(b: Binding): seq<string> {
    if |b.ids| > 1 then b.ids[..|b.ids| - 1] else b.ids
  }

  /** In the binding tables of two flavors no own id is shared, and the legacy id of each is the own id
      of the vanilla flavor for the same group. */
  lemma OwnIdsAreApart(f: Flavor, g: Flavor, k: nat, l: nat)
    requires k < |Bindings(f)| && l < |Bindings(g)| && (f.id != g.id || k != l)
    ensures forall id | id in OwnIds(Bindings(f)[k]) :: id !in OwnIds(Bindings(g)[l])
  {
    OneOwnId(f, k);
    OneOwnId(g, l);
    hide Bindings, OwnIds;
  }

  function OwnIdOf(flavor: string, k: nat): string {
    if flavor == "vanilla" then if k == 0 then "cmangos-core" else if k == 1 then "cmangos-db" else "playerbots"
    else if flavor == "tbc" then
      if k == 0 then "cmangos-core-tbc" else if k == 1 then "cmangos-db-tbc" else "playerbots-tbc"
    else if k == 0 then "cmangos-core-wotlk" else if k == 1 then "cmangos-db-wotlk" else "playerbots-wotlk"
  }

  lemma OneOwnId(f: Flavor, k: nat)
    requires k < |Bindings(f)|
    ensures OwnIds(Bindings(f)[k]) == [OwnIdOf(f.id, k)]
    ensures k < 3 && f.id in {"vanilla", "tbc", "wotlk"}
  {
  }

  lemma LegacyIsVanilla(f: Flavor, vanilla: Flavor, k: nat)
    requires vanilla.id == "vanilla" && k < |Bindings(f)|
    ensures |Bindings(vanilla)| == |Bindings(f)| == 3 && |OwnIds(Bindings(vanilla)[k])| == 1
    ensures var ids := Bindings(f)[k].ids; ids != [] && ids[|ids| - 1] == OwnIds(Bindings(vanilla)[k])[0]
    ensures Bindings(f)[k].group == if k == 0 then f.serverCore else if k == 1 then f.dbContent else f.bots
  {
  }

  lemma TableShape(f: Flavor, k: nat)
    requires k < |Bindings(f)|
    ensures |Bindings(f)[k].ids| == 1 || OwnThenLegacy(Bindings(f)[k].ids)
    ensures "" !in Bindings(f)[k].ids
  {
  }

  /** Provenance: when no source id is duplicated and the pins check clean, every pinned commit
      is the commit of a source entry that carries one of that flavor's own ids. */
  lemma CleanPinsAreOwn(f: Flavor, sources: seq<Source>, k: nat)
    requires forall id :: !Duplicated(sources, id)
    requires k < |Bindings(f)| && Pinned(Bindings(f)[k]) && PinErrors(Bindings(f)[k], sources) == []
    ensures exists s :: s in sources && s.id.Some? && s.id.value in OwnIds(Bindings(f)[k])
                        && s.commit == Bindings(f)[k].group.value.commit
  {
    var b := Bindings(f)[k];
    TableShape(f, k);
    var r := ResolveSource(b.group.value, b.ids, sources);
    if |b.ids| > 1 {
      assert b.ids[|b.ids| - 1] in b.ids;
      assert !Duplicated(sources, b.ids[|b.ids| - 1]);
      ResolvesToOwn(b.group.value, b.ids, sources);
    } else {
      assert r.value in Filter(sources, b.ids);
    }
    assert r.value in sources;
  }
}
