/** The build's try/finally: apply a plan until it ends, fails or drifts, then run every
    cleanup step in cleanup's own order. Shows which bytes are left behind. */
module OverlayCleanup {
  import opened Wrappers
  import opened Substring
  import opened Overlay

  type Files = map<Path, Bytes>

  /** One step of the overlay pass; `None` is the error that ends the pass. */
  function Apply(files: Files, step: Step): Option<Files>
    requires Runnable(step)
  {
    match step
    case Anchor(path, before, after, every) =>
      if path !in files then None
      else (match Rewrite(files[path], before, after, every)
            case None => None
            case Some(data) => Some(files[path := data]))
    case Create(path, text) => if path in files then None else Some(files[path := text])
    case Overwrite(path, _, text) => Some(files[path := text])
  }

  /** One step of the cleanup pass. */
  function Undo(files: Files, step: Step): Option<Files>
    requires Runnable(step)
  {
    match step
    case Anchor(path, before, after, every) =>
      if path !in files then None
      else (match Rewrite(files[path], after, before, every)
            case None => None
            case Some(data) => Some(files[path := data]))
    case Create(path, text) =>
      if path !in files then Some(files)
      else if files[path] != text then None
      else Some(files - {path})
    case Overwrite(path, saved, _) => Some(files[path := saved])
  }

  /** Anchor texts are not empty. */
  predicate Runnable(step: Step) {
    step.Anchor? ==> |step.before| > 0 && |step.after| > 0
  }

  // --- what a plan must satisfy -------------------------------------------------------

  ghost predicate SlotsAtHome(plan: Plan)
    requires WellFormed(plan)
  {
    forall p, i: nat | p in plan.layout && Owns(plan.layout[p], i) :: i < |plan.steps| && plan.steps[i].path == p
  }

  /** The new text of every other changing step of the file is apart from `q`. */
  ghost predicate ApartFromOthers(plan: Plan, ps: seq<Piece>, i: nat, q: Bytes)
    requires WellFormed(plan) && StepsInRange(plan, ps)
  {
    forall m | 0 <= m < |ps| :: ps[m].Slot? && ps[m].step != i ==>
      OldText(plan, ps[m].step) == NewText(plan, ps[m].step) || Apart(q, NewText(plan, ps[m].step))
  }

  ghost predicate TextsApartFromOthers(plan: Plan, i: nat)
    requires WellFormed(plan) && i < |plan.steps| && plan.steps[i].Anchor? && plan.steps[i].path in plan.layout
  {
    var ps, b, a := plan.layout[plan.steps[i].path], plan.steps[i].before, plan.steps[i].after;
    && ApartFromOthers(plan, ps, i, b) && ApartFromOthers(plan, ps, i, Crlf(b))
    && ApartFromOthers(plan, ps, i, a) && ApartFromOthers(plan, ps, i, Crlf(a))
  }

  function Pristine(plan: Plan, path: Path): Bytes
    requires WellFormed(plan) && path in plan.layout
  {
    Render(plan, plan.layout[path], {})
  }

  /** The anchor is in the pristine file and its replacement is recognisable there. */
  ghost predicate Present(plan: Plan, i: nat)
    requires WellFormed(plan) && i < |plan.steps| && Runnable(plan.steps[i])
  {
    var s := plan.steps[i];
    && s.path in plan.layout
    && var ps := plan.layout[s.path];
    match s
    case Anchor(path, b, a, every) =>
      && Owns(ps, i) && (every || OneSlot(ps, i))
      && (b != a ==>
            var data, q, t := Pristine(plan, path), OldText(plan, i), NewText(plan, i);
            && |q| > 0
            && Scans(plan, [], ps, {}, i, q, every)
            && (plan.crlf[i] ==> Absent(data, b) && Apart(a, Crlf(a)))
            && Absent(data, a) && Absent(data, Crlf(a)) && SelfApart(t)
            && TextsApartFromOthers(plan, i))
    case _ => ps == [Slot(i)] && forall j | 0 <= j < |plan.steps| :: plan.steps[j].path == s.path ==> j == i
  }

  /** Neither text is in the pristine file, in either line-ending form: the anchor drifted. */
  ghost predicate Drifted(plan: Plan, i: nat)
    requires WellFormed(plan) && i < |plan.steps| && Runnable(plan.steps[i])
  {
    && plan.steps[i].Anchor?
    && var Anchor(path, b, a, every) := plan.steps[i];
    && path in plan.layout && !Owns(plan.layout[path], i)
    && var data := Pristine(plan, path);
    && Absent(data, b) && Absent(data, Crlf(b)) && Absent(data, a) && Absent(data, Crlf(a))
    && TextsApartFromOthers(plan, i)
  }

  ghost predicate Sound(plan: Plan) {
    && WellFormed(plan) && SlotsAtHome(plan)
    && (forall i | 0 <= i < |plan.steps| :: Runnable(plan.steps[i]))
    && (forall i | 0 <= i < |plan.steps| :: Present(plan, i) || Drifted(plan, i))
    && (forall i, j | 0 <= i < |plan.steps| && 0 <= j < |plan.steps| ::
          plan.steps[i].Create? && plan.steps[j].path == plan.steps[i].path ==> i == j)
  }

  predicate Exists(plan: Plan, p: Path, on: set<nat>) {
    forall i | 0 <= i < |plan.steps| :: plan.steps[i].Create? && plan.steps[i].path == p ==> i in on
  }

  /** The whole tree when exactly the steps in `on` are applied. */
  function World(plan: Plan, on: set<nat>): Files
    requires WellFormed(plan)
  {
    map p | p in plan.layout && Exists(plan, p, on) :: Render(plan, plan.layout[p], on)
  }

  // --- one step ----------------------------------------------------------------------

  lemma WorldAfter(plan: Plan, on: set<nat>, on': set<nat>, i: nat, files: Files)
    requires Sound(plan) && i < |plan.steps| && on - {i} == on' - {i}
    requires plan.steps[i].path in plan.layout && !plan.steps[i].Create?
    requires Exists(plan, plan.steps[i].path, on)
    requires files == World(plan, on)[plan.steps[i].path := Render(plan, plan.layout[plan.steps[i].path], on')]
    ensures files == World(plan, on')
  {
    hide Render, Present, Drifted;
    SameExistence(plan, on, on', i);
    forall p | p in plan.layout && p != plan.steps[i].path
      ensures Render(plan, plan.layout[p], on) == Render(plan, plan.layout[p], on')
    {
      Toggled(plan, plan.layout[p], on, on', i);
    }
  }

  lemma SameExistence(plan: Plan, on: set<nat>, on': set<nat>, i: nat)
    requires i < |plan.steps| && on - {i} == on' - {i} && !plan.steps[i].Create?
    ensures forall p :: Exists(plan, p, on) == Exists(plan, p, on')
  {
    forall j | 0 <= j < |plan.steps| && plan.steps[j].Create? ensures j in on <==> j in on' {
      assert j in on - {i} <==> j in on' - {i};
    }
  }

  lemma AnchorPathExists(plan: Plan, i: nat, on: set<nat>)
    requires Sound(plan) && i < |plan.steps| && !plan.steps[i].Create?
    ensures plan.steps[i].path in plan.layout && Exists(plan, plan.steps[i].path, on)
    ensures plan.steps[i].path in World(plan, on)
    ensures World(plan, on)[plan.steps[i].path] == Render(plan, plan.layout[plan.steps[i].path], on)
  {
    assert Present(plan, i) || Drifted(plan, i);
  }

  lemma {:induction false} SlotIsVisible(plan: Plan, ps: seq<Piece>, on: set<nat>, i: nat)
    requires |plan.crlf| == |plan.steps| && StepsInRange(plan, ps) && Owns(ps, i) && i < |plan.steps|
    ensures !Absent(Render(plan, ps, on), PieceText(plan, Slot(i), on))
  {
    hide PieceText, Absent;
    var q := PieceText(plan, Slot(i), on);
    if ps[0] == Slot(i) {
      PresentInWhole([], q, Render(plan, ps[1..], on));
      assert [] + q + Render(plan, ps[1..], on) == Render(plan, ps, on);
    } else {
      SlotIsVisible(plan, ps[1..], on, i);
      var pre := PieceText(plan, ps[0], on);
      if Absent(Render(plan, ps, on), q) {
        assert pre + Render(plan, ps[1..], on) + [] == Render(plan, ps, on);
        AbsentInPart(pre, Render(plan, ps[1..], on), [], q);
        assert false;
      }
    }
  }

  /** Absent from the pristine file and apart from the edits: absent from every edited state. */
  lemma StaysAbsent(plan: Plan, path: Path, on: set<nat>, q: Bytes)
    requires WellFormed(plan) && path in plan.layout
    requires Absent(Pristine(plan, path), q)
    requires ApartFromSlots(plan, plan.layout[path], on, q)
    ensures Absent(Render(plan, plan.layout[path], on), q)
  {
    hide Absent, Render;
    var data, now := Pristine(plan, path), Render(plan, plan.layout[path], on);
    assert [] + data + [] == data;
    assert on - {} == on;
    AbsentAfterEdits(plan, [], plan.layout[path], {}, on, [], q);
    assert [] + now + [] == now;
  }

  /** The applied text is scanned for and found exactly in its own slots. */
  lemma {:induction false} ScansForNew(plan: Plan, run: seq<Piece>, ps: seq<Piece>, i: nat, t: Bytes, every: bool)
    requires |plan.crlf| == |plan.steps| && StepsInRange(plan, run) && StepsInRange(plan, ps)
    requires SelfApart(t) && Absent(Render(plan, run, {}) + Render(plan, ps, {}), t)
    ensures Scans(plan, run, ps, {}, i, t, every)
    decreases |ps|
  {
    hide Absent, SelfApart, PieceText, Render;
    var head := Render(plan, run, {});
    AbsentInPart([], head, Render(plan, ps, {}), t) by {
      assert [] + head + Render(plan, ps, {}) == head + Render(plan, ps, {});
    }
    if ps == [] {
    } else {
      RegroupBySlot(plan, run, ps, {});
      if ps[0] == Slot(i) {
        FirstIsOwn(head, t);
        var rest := Render(plan, ps[1..], {});
        AbsentInPart(head + PieceText(plan, ps[0], {}), rest, [], t) by {
          assert head + PieceText(plan, ps[0], {}) + rest + [] == head + PieceText(plan, ps[0], {}) + rest;
        }
        RenderNothing(plan, {}, rest);
        ScansForNew(plan, [], ps[1..], i, t, every);
      } else {
        ScansForNew(plan, run + [ps[0]], ps[1..], i, t, every);
      }
    }
  }

  // --- one anchor --------------------------------------------------------------------

  lemma ApartWhenOn(plan: Plan, ps: seq<Piece>, on: set<nat>, i: nat, q: Bytes)
    requires WellFormed(plan) && StepsInRange(plan, ps) && i < |plan.steps|
    requires ApartFromOthers(plan, ps, i, q)
    requires i in on && Owns(ps, i) ==> Apart(q, NewText(plan, i))
    ensures ApartFromSlots(plan, ps, on, q)
  {
    hide Apart;
  }

  lemma ReplaceSomeBySame(s: Bytes, q: Bytes, every: bool)
    requires |q| > 0
    ensures ReplaceSome(s, q, q, every) == s
  {
    ReplaceBySame(s, q, -1);
    if Find(s, q).Some? {
      SplitAtFind(s, q);
    }
  }

  lemma {:induction false} RenderPinned(plan: Plan, ps: seq<Piece>, on: set<nat>, on': set<nat>, i: nat)
    requires |plan.crlf| == |plan.steps| && StepsInRange(plan, ps) && i < |plan.steps|
    requires on - {i} == on' - {i} && OldText(plan, i) == NewText(plan, i)
    ensures Render(plan, ps, on) == Render(plan, ps, on')
  {
    if ps != [] {
      RenderPinned(plan, ps[1..], on, on', i);
      if ps[0].Slot? && ps[0].step != i {
        assert ps[0].step in on - {i} <==> ps[0].step in on' - {i};
      }
    }
  }

  /** An anchor that pins existing text changes nothing in either direction. */
  lemma PinRewrites(plan: Plan, on: set<nat>, on': set<nat>, i: nat)
    requires Sound(plan) && i < |plan.steps| && plan.steps[i].Anchor? && Present(plan, i)
    requires plan.steps[i].before == plan.steps[i].after && on - {i} == on' - {i}
    ensures var ps, b := plan.layout[plan.steps[i].path], plan.steps[i].before;
      Rewrite(Render(plan, ps, on), b, b, plan.steps[i].every) == Some(Render(plan, ps, on'))
  {
    hide Render, ReplaceSome, Find;
    var Anchor(path, b, a, every) := plan.steps[i];
    var ps := plan.layout[path];
    var data := Render(plan, ps, on);
    SlotIsVisible(plan, ps, on, i);
    FindIsLeftmost(data, b);
    FindIsLeftmost(data, Crlf(b));
    ReplaceSomeBySame(data, b, every);
    ReplaceSomeBySame(data, Crlf(b), every);
    RenderPinned(plan, ps, on, on', i);
  }

  lemma AnchorApplies(plan: Plan, on: set<nat>, i: nat)
    requires Sound(plan) && i < |plan.steps| && plan.steps[i].Anchor? && Present(plan, i) && i !in on
    ensures var ps, s := plan.layout[plan.steps[i].path], plan.steps[i];
      Rewrite(Render(plan, ps, on), s.before, s.after, s.every) == Some(Render(plan, ps, on + {i}))
  {
    hide Render, ReplaceSome, Find, Scans, Apart, SelfApart, Absent;
    var Anchor(path, b, a, every) := plan.steps[i];
    var ps := plan.layout[path];
    var data, q, t := Render(plan, ps, on), OldText(plan, i), NewText(plan, i);
    assert on - {i} == (on + {i}) - {i};
    if b == a {
      PinRewrites(plan, on, on + {i}, i);
    } else {
      SlotIsVisible(plan, ps, on, i);
      FindIsLeftmost(data, q);
      if plan.crlf[i] {
        ApartWhenOn(plan, ps, on, i, b);
        StaysAbsent(plan, path, on, b);
        FindIsLeftmost(data, b);
      }
      ScansInState(plan, on, i, q, every);
      TogglesWhole(plan, ps, on, on + {i}, i, q, t, every);
    }
  }

  lemma ScansInState(plan: Plan, on: set<nat>, i: nat, q: Bytes, every: bool)
    requires WellFormed(plan) && i < |plan.steps| && plan.steps[i].path in plan.layout && |q| > 0
    requires Scans(plan, [], plan.layout[plan.steps[i].path], {}, i, q, every)
    requires ApartFromOthers(plan, plan.layout[plan.steps[i].path], i, q)
    ensures Scans(plan, [], plan.layout[plan.steps[i].path], on, i, q, every)
  {
    hide Apart, Render, Scans;
    ScansAfterEdits(plan, [], plan.layout[plan.steps[i].path], on, i, q, every);
  }

  lemma TogglesWhole(plan: Plan, ps: seq<Piece>, on: set<nat>, on': set<nat>, i: nat, q: Bytes, t: Bytes, every: bool)
    requires |plan.crlf| == |plan.steps| && StepsInRange(plan, ps) && i < |plan.steps| && |q| > 0
    requires q == PieceText(plan, Slot(i), on) && t == PieceText(plan, Slot(i), on')
    requires on - {i} == on' - {i} && Owns(ps, i) && (every || OneSlot(ps, i))
    requires Scans(plan, [], ps, on, i, q, every)
    ensures ReplaceSome(Render(plan, ps, on), q, t, every) == Render(plan, ps, on')
  {
    hide ReplaceSome, Scans;
    ReplaceToggles(plan, [], ps, on, on', i, q, t, every);
    RenderNothing(plan, on, Render(plan, ps, on));
    RenderNothing(plan, on', Render(plan, ps, on'));
  }

  lemma AnchorReverts(plan: Plan, on: set<nat>, i: nat)
    requires Sound(plan) && i < |plan.steps| && plan.steps[i].Anchor? && Present(plan, i) && i in on
    ensures var ps, s := plan.layout[plan.steps[i].path], plan.steps[i];
      Rewrite(Render(plan, ps, on), s.after, s.before, s.every) == Some(Render(plan, ps, on - {i}))
  {
    hide Render, ReplaceSome, Find, Scans, Apart, SelfApart, Absent;
    var Anchor(path, b, a, every) := plan.steps[i];
    var ps := plan.layout[path];
    var data, q, t := Render(plan, ps, on), OldText(plan, i), NewText(plan, i);
    assert on - {i} == (on - {i}) - {i};
    if b == a {
      PinRewrites(plan, on, on - {i}, i);
    } else {
      SlotIsVisible(plan, ps, on, i);
      FindIsLeftmost(data, t);
      if plan.crlf[i] {
        ApartWhenOn(plan, ps, on, i, a);
        StaysAbsent(plan, path, on, a);
        FindIsLeftmost(data, a);
      }
      RenderNothing(plan, {}, Pristine(plan, path));
      ScansForNew(plan, [], ps, i, t, every);
      ScansInState(plan, on, i, t, every);
      TogglesWhole(plan, ps, on, on - {i}, i, t, q, every);
    }
  }

  /** Undoing an anchor that was never applied finds its original and leaves the file alone. */
  lemma AnchorUntouched(plan: Plan, on: set<nat>, i: nat)
    requires Sound(plan) && i < |plan.steps| && plan.steps[i].Anchor? && Present(plan, i) && i !in on
    ensures var ps, s := plan.layout[plan.steps[i].path], plan.steps[i];
      Rewrite(Render(plan, ps, on), s.after, s.before, s.every) == Some(Render(plan, ps, on))
  {
    hide Render, ReplaceSome, Find, Scans, Apart, SelfApart, Absent;
    var Anchor(path, b, a, every) := plan.steps[i];
    var ps := plan.layout[path];
    var data := Render(plan, ps, on);
    if b == a {
      PinRewrites(plan, on, on, i);
    } else {
      SlotIsVisible(plan, ps, on, i);
      ApartWhenOn(plan, ps, on, i, a);
      ApartWhenOn(plan, ps, on, i, Crlf(a));
      StaysAbsent(plan, path, on, a);
      StaysAbsent(plan, path, on, Crlf(a));
      FindIsLeftmost(data, a);
      FindIsLeftmost(data, Crlf(a));
      FindIsLeftmost(data, OldText(plan, i));
    }
  }

  /** The tree already holds the overlay's text of step `i`, and its upstream text nowhere. */
  ghost predicate AlreadyIn(plan: Plan, on0: set<nat>, i: nat)
    requires Sound(plan)
  {
    && i < |plan.steps| && plan.steps[i].Anchor? && plan.steps[i].before != plan.steps[i].after
    && Present(plan, i)
    && var data := Render(plan, plan.layout[plan.steps[i].path], on0);
    && Absent(data, plan.steps[i].before) && Absent(data, Crlf(plan.steps[i].before))
  }

  /** The steps whose overlays the tree holds before the build. */
  ghost predicate Preapplied(plan: Plan, on0: set<nat>)
    requires Sound(plan)
  {
    forall i | i in on0 :: AlreadyIn(plan, on0, i)
  }

  /** Applying an anchor whose overlay is already there leaves the file alone. */
  lemma AnchorKept(plan: Plan, on0: set<nat>, on: set<nat>, i: nat)
    requires Sound(plan) && AlreadyIn(plan, on0, i) && i in on0 && on0 <= on
    ensures var ps, s := plan.layout[plan.steps[i].path], plan.steps[i];
      Rewrite(Render(plan, ps, on), s.before, s.after, s.every) == Some(Render(plan, ps, on))
  {
    hide Render, ReplaceSome, Find, Scans, Apart, SelfApart, Absent;
    var Anchor(path, b, a, every) := plan.steps[i];
    var ps := plan.layout[path];
    var was, now := Render(plan, ps, on0), Render(plan, ps, on);
    SlotIsVisible(plan, ps, on, i);
    FindIsLeftmost(now, NewText(plan, i));
    forall q | q in [b, Crlf(b)] ensures Find(now, q).None? {
      ApartWhenOn(plan, ps, on - on0, i, q);
      assert [] + was + [] == was && [] + now + [] == now;
      AbsentAfterEdits(plan, [], ps, on0, on, [], q);
      FindIsLeftmost(now, q);
    }
    assert [b, Crlf(b)][0] == b && [b, Crlf(b)][1] == Crlf(b);
  }

  lemma DriftFails(plan: Plan, on: set<nat>, i: nat)
    requires Sound(plan) && i < |plan.steps| && Drifted(plan, i)
    ensures var ps, s := plan.layout[plan.steps[i].path], plan.steps[i];
      && Rewrite(Render(plan, ps, on), s.before, s.after, s.every) == None
      && Rewrite(Render(plan, ps, on), s.after, s.before, s.every) == None
  {
    hide Render, ReplaceSome, Find, Scans, Apart, SelfApart, Absent;
    var Anchor(path, b, a, every) := plan.steps[i];
    var ps := plan.layout[path];
    forall q | q in [b, Crlf(b), a, Crlf(a)] ensures Find(Render(plan, ps, on), q).None? {
      ApartWhenOn(plan, ps, on, i, q);
      StaysAbsent(plan, path, on, q);
      FindIsLeftmost(Render(plan, ps, on), q);
    }
    assert [b, Crlf(b), a, Crlf(a)][0] == b && [b, Crlf(b), a, Crlf(a)][1] == Crlf(b);
    assert [b, Crlf(b), a, Crlf(a)][2] == a && [b, Crlf(b), a, Crlf(a)][3] == Crlf(a);
  }


  // --- whole steps -------------------------------------------------------------------

  lemma WholeFileIsPresent(plan: Plan, i: nat)
    requires Sound(plan) && i < |plan.steps| && !plan.steps[i].Anchor?
    ensures plan.steps[i].path in plan.layout && plan.layout[plan.steps[i].path] == [Slot(i)]
  {
    assert Present(plan, i) || Drifted(plan, i);
  }

  lemma CreateElsewhere(plan: Plan, on: set<nat>, on': set<nat>, i: nat, p: Path)
    requires Sound(plan) && i < |plan.steps| && on - {i} == on' - {i}
    requires p in plan.layout && p != plan.steps[i].path
    ensures Exists(plan, p, on) == Exists(plan, p, on')
    ensures Render(plan, plan.layout[p], on) == Render(plan, plan.layout[p], on')
  {
    hide Present, Drifted, Render;
    assert !Owns(plan.layout[p], i);
    Toggled(plan, plan.layout[p], on, on', i);
    forall j | 0 <= j < |plan.steps| && j != i ensures j in on <==> j in on' {
      assert j in on - {i} <==> j in on' - {i};
    }
  }

  lemma CreateElsewhereBoth(plan: Plan, on: set<nat>, i: nat)
    requires Sound(plan) && i < |plan.steps|
    ensures forall p | p in plan.layout && p != plan.steps[i].path ::
      && Exists(plan, p, on) == Exists(plan, p, on + {i}) == Exists(plan, p, on - {i})
      && Render(plan, plan.layout[p], on) == Render(plan, plan.layout[p], on + {i})
      && Render(plan, plan.layout[p], on) == Render(plan, plan.layout[p], on - {i})
  {
    hide Drifted, Present, Render, Exists;
    forall p | p in plan.layout && p != plan.steps[i].path
      ensures Exists(plan, p, on) == Exists(plan, p, on + {i}) == Exists(plan, p, on - {i})
      ensures Render(plan, plan.layout[p], on) == Render(plan, plan.layout[p], on + {i})
      ensures Render(plan, plan.layout[p], on) == Render(plan, plan.layout[p], on - {i})
    {
      assert on - {i} == (on + {i}) - {i} == (on - {i}) - {i};
      CreateElsewhere(plan, on, on + {i}, i, p);
      CreateElsewhere(plan, on, on - {i}, i, p);
    }
  }

  lemma CreateToggles(plan: Plan, on: set<nat>, i: nat)
    requires Sound(plan) && i < |plan.steps| && plan.steps[i].Create?
    ensures var p := plan.steps[i].path;
      && p in World(plan, on + {i}) && World(plan, on + {i})[p] == plan.steps[i].text
      && (p in World(plan, on) <==> i in on)
      && World(plan, on + {i}) == World(plan, on)[p := plan.steps[i].text]
      && World(plan, on - {i}) == World(plan, on) - {p}
  {
    hide Drifted, Present, Render;
    WholeFileIsPresent(plan, i);
    var path := plan.steps[i].path;
    SingleSlot(plan, i, on + {i});
    CreateElsewhereBoth(plan, on, i);
    assert i in on + {i} && i !in on - {i};
    assert Exists(plan, path, on + {i});
    assert !Exists(plan, path, on - {i});
    assert Exists(plan, path, on) <==> i in on;
  }

  lemma StepApplies(plan: Plan, on: set<nat>, i: nat)
    requires Sound(plan) && i < |plan.steps| && Present(plan, i) && i !in on
    ensures Apply(World(plan, on), plan.steps[i]) == Some(World(plan, on + {i}))
  {
    hide Rewrite, Render, World, Present, Drifted;
    match plan.steps[i]
    case Anchor(path, b, a, every) =>
      AnchorPathExists(plan, i, on);
      AnchorApplies(plan, on, i);
      WorldAfter(plan, on, on + {i}, i, World(plan, on)[path := Render(plan, plan.layout[path], on + {i})]);
    case Create(path, text) =>
      CreateToggles(plan, on, i);
    case Overwrite(path, saved, text) =>
      WholeFileIsPresent(plan, i);
      AnchorPathExists(plan, i, on);
      SingleSlot(plan, i, on + {i});
      WorldAfter(plan, on, on + {i}, i, World(plan, on)[path := Render(plan, plan.layout[path], on + {i})]);
  }

  lemma StepKept(plan: Plan, on0: set<nat>, on: set<nat>, i: nat)
    requires Sound(plan) && AlreadyIn(plan, on0, i) && i in on0 && on0 <= on
    ensures Apply(World(plan, on), plan.steps[i]) == Some(World(plan, on))
  {
    hide Rewrite, Render, World, Present, Drifted;
    AnchorPathExists(plan, i, on);
    AnchorKept(plan, on0, on, i);
    var files, path := World(plan, on), plan.steps[i].path;
    assert files[path := files[path]] == files;
  }

  lemma SingleSlot(plan: Plan, i: nat, on: set<nat>)
    requires WellFormed(plan) && i < |plan.steps|
    ensures Render(plan, [Slot(i)], on) == PieceText(plan, Slot(i), on)
  {
    assert Render(plan, [Slot(i)], on) == PieceText(plan, Slot(i), on) + Render(plan, [], on);
  }

  lemma StepReverts(plan: Plan, on: set<nat>, i: nat)
    requires Sound(plan) && i < |plan.steps| && Present(plan, i)
    ensures Undo(World(plan, on), plan.steps[i]) == Some(World(plan, on - {i}))
  {
    hide Rewrite, Render, World, Present, Drifted;
    match plan.steps[i]
    case Anchor(path, b, a, every) =>
      AnchorPathExists(plan, i, on);
      if i in on {
        AnchorReverts(plan, on, i);
      } else {
        AnchorUntouched(plan, on, i);
        assert on - {i} == on;
      }
      WorldAfter(plan, on, on - {i}, i, World(plan, on)[path := Render(plan, plan.layout[path], on - {i})]);
    case Create(path, text) =>
      CreateToggles(plan, on, i);
      if i in on {
        assert on + {i} == on;
      } else {
        assert on - {i} == on;
      }
    case Overwrite(path, saved, text) =>
      WholeFileIsPresent(plan, i);
      AnchorPathExists(plan, i, on);
      SingleSlot(plan, i, on - {i});
      WorldAfter(plan, on, on - {i}, i, World(plan, on)[path := Render(plan, plan.layout[path], on - {i})]);
  }

  lemma DriftedStepFails(plan: Plan, on: set<nat>, i: nat)
    requires Sound(plan) && i < |plan.steps| && Drifted(plan, i)
    ensures Apply(World(plan, on), plan.steps[i]) == None && Undo(World(plan, on), plan.steps[i]) == None
  {
    hide Rewrite, Render, World;
    AnchorPathExists(plan, i, on);
    DriftFails(plan, on, i);
  }

  // --- whole passes ------------------------------------------------------------------

  /** The apply pass, cut off after `stop` steps: what it leaves, and how far it got. */
  function ApplyPass(files: Files, steps: seq<Step>, stop: nat): (Files, nat)
    requires forall i | 0 <= i < |steps| :: Runnable(steps[i])
    requires stop <= |steps|
    decreases stop
  {
    if stop == 0 then (files, 0)
    else match Apply(files, steps[0])
      case None => (files, 0)
      case Some(next) =>
        var (end, done) := ApplyPass(next, steps[1..], stop - 1);
        (end, done + 1)
  }

  /** The cleanup pass in the given order: what it leaves, and how far it got. */
  function UndoPass(files: Files, steps: seq<Step>, order: seq<nat>): (Files, nat)
    requires forall i | 0 <= i < |steps| :: Runnable(steps[i])
    requires forall k | 0 <= k < |order| :: order[k] < |steps|
    decreases |order|
  {
    if order == [] then (files, 0)
    else match Undo(files, steps[order[0]])
      case None => (files, 0)
      case Some(next) =>
        var (end, done) := UndoPass(next, steps, order[1..]);
        (end, done + 1)
  }

  /** Steps `0..k`. */
  function Below(k: nat): (r: set<nat>)
    ensures forall i: nat :: i in r <==> i < k
  {
    if k == 0 then {} else Below(k - 1) + {k - 1}
  }

  /** How many of the first `stop` steps apply: those before the first drifted anchor. */
  ghost function Reached(plan: Plan, from: nat, stop: nat): (r: nat)
    requires Sound(plan) && from <= stop <= |plan.steps|
    ensures from <= r <= stop
    ensures forall i | from <= i < r :: Present(plan, i)
    ensures r < stop ==> Drifted(plan, r)
    decreases stop - from
  {
    if from == stop || Drifted(plan, from) then from else Reached(plan, from + 1, stop)
  }

  /** How many cleanup steps run: those before the first drifted anchor in cleanup's order. */
  ghost function Cleaned(plan: Plan, order: seq<nat>): (r: nat)
    requires Sound(plan) && forall k | 0 <= k < |order| :: order[k] < |plan.steps|
    ensures r <= |order|
    ensures forall k | 0 <= k < r :: Present(plan, order[k])
    ensures r < |order| ==> Drifted(plan, order[r])
  {
    if order == [] || Drifted(plan, order[0]) then 0 else 1 + Cleaned(plan, order[1..])
  }

  lemma NextStep(plan: Plan, on0: set<nat>, i: nat)
    requires Sound(plan) && Preapplied(plan, on0) && i < |plan.steps|
    ensures Apply(World(plan, on0 + Below(i)), plan.steps[i])
         == if Drifted(plan, i) then None else Some(World(plan, on0 + Below(i + 1)))
  {
    hide World, Apply, Present, Drifted;
    var on := on0 + Below(i);
    assert Present(plan, i) || Drifted(plan, i);
    assert on + {i} == on0 + Below(i + 1);
    if Drifted(plan, i) {
      DriftedStepFails(plan, on, i);
    } else if i in on0 {
      assert on + {i} == on;
      assert AlreadyIn(plan, on0, i);
      StepKept(plan, on0, on, i);
    } else {
      StepApplies(plan, on, i);
    }
  }

  lemma {:induction false} ApplyPassReaches(plan: Plan, on0: set<nat>, from: nat, stop: nat)
    requires Sound(plan) && Preapplied(plan, on0) && from <= stop <= |plan.steps|
    ensures var r := Reached(plan, from, stop);
      ApplyPass(World(plan, on0 + Below(from)), plan.steps[from..], stop - from)
      == (World(plan, on0 + Below(r)), r - from)
    decreases stop - from
  {
    hide World, Apply, Present, Drifted, Preapplied, Below;
    if from < stop {
      NextStep(plan, on0, from);
      if !Drifted(plan, from) {
        assert plan.steps[from..][1..] == plan.steps[from + 1..];
        ApplyPassReaches(plan, on0, from + 1, stop);
      }
    }
  }

  lemma {:induction false} UndoPassCleans(plan: Plan, on: set<nat>, order: seq<nat>)
    requires Sound(plan) && forall k | 0 <= k < |order| :: order[k] < |plan.steps|
    ensures var r := Cleaned(plan, order);
      UndoPass(World(plan, on), plan.steps, order) == (World(plan, on - set k | 0 <= k < r :: order[k]), r)
    decreases |order|
  {
    hide World, Undo, Present, Drifted;
    var r := Cleaned(plan, order);
    var gone := set k | 0 <= k < r :: order[k];
    if r == 0 {
      assert on - gone == on;
      if order != [] {
        assert Drifted(plan, order[0]);
        DriftedStepFails(plan, on, order[0]);
      }
    } else {
      StepReverts(plan, on, order[0]);
      UndoPassCleans(plan, on - {order[0]}, order[1..]);
      var later := set k | 0 <= k < r - 1 :: order[1..][k];
      assert gone == {order[0]} + later by {
        forall i | i in gone ensures i in {order[0]} + later {
          var k :| 0 <= k < r && order[k] == i;
          if k > 0 {
            assert order[1..][k - 1] == i;
          }
        }
      }
      assert on - gone == (on - {order[0]}) - later;
    }
  }

  // --- main results ------------------------------------------------------------------

  /** The build's effect on the tree: the passes of a `try` that ends after at most `stop`
      steps, and of its `finally`. */
  function Build(files: Files, steps: seq<Step>, stop: nat, order: seq<nat>): Files
    requires forall i | 0 <= i < |steps| :: Runnable(steps[i])
    requires stop <= |steps| && forall k | 0 <= k < |order| :: order[k] < |steps|
  {
    UndoPass(ApplyPass(files, steps, stop).0, steps, order).0
  }

  predicate Changes(plan: Plan, i: nat)
    requires WellFormed(plan) && i < |plan.steps|
  {
    plan.steps[i].Create? || OldText(plan, i) != NewText(plan, i)
  }

  lemma AnchorShows(plan: Plan, on: set<nat>, on': set<nat>, i: nat)
    requires Sound(plan) && i < |plan.steps| && Present(plan, i) && Changes(plan, i)
    requires plan.steps[i].Anchor? && i in on && i !in on'
    ensures var ps := plan.layout[plan.steps[i].path]; Render(plan, ps, on) != Render(plan, ps, on')
  {
    hide Render, Scans, Apart, SelfApart, Absent, Drifted;
    var Anchor(path, b, a, every) := plan.steps[i];
    var ps := plan.layout[path];
    SlotIsVisible(plan, ps, on, i);
    ApartWhenOn(plan, ps, on', i, a);
    ApartWhenOn(plan, ps, on', i, Crlf(a));
    StaysAbsent(plan, path, on', a);
    StaysAbsent(plan, path, on', Crlf(a));
  }

  /** A step that changes its file tells apart any two states it is on in one of. */
  lemma StepShows(plan: Plan, on: set<nat>, on': set<nat>, i: nat)
    requires Sound(plan) && i < |plan.steps| && Present(plan, i) && Changes(plan, i)
    requires i in on && i !in on'
    ensures World(plan, on) != World(plan, on')
  {
    hide Present, Drifted, Render, World, Changes;
    match plan.steps[i]
    case Create(path, _) =>
      CreateToggles(plan, on, i);
      CreateToggles(plan, on', i);
      assert path in World(plan, on) && path !in World(plan, on');
    case Overwrite(_, _, _) =>
      AnchorPathExists(plan, i, on);
      AnchorPathExists(plan, i, on');
      OverwriteShows(plan, on, on', i);
    case Anchor(_, _, _, _) =>
      AnchorPathExists(plan, i, on);
      AnchorPathExists(plan, i, on');
      AnchorShows(plan, on, on', i);
  }

  lemma OverwriteShows(plan: Plan, on: set<nat>, on': set<nat>, i: nat)
    requires Sound(plan) && i < |plan.steps| && Changes(plan, i)
    requires plan.steps[i].Overwrite? && i in on && i !in on'
    ensures plan.steps[i].path in plan.layout
    ensures var ps := plan.layout[plan.steps[i].path]; Render(plan, ps, on) != Render(plan, ps, on')
  {
    hide Present, Drifted, Render;
    WholeFileIsPresent(plan, i);
    SingleSlot(plan, i, on);
    SingleSlot(plan, i, on');
  }

  /** The steps that change their file agree. */
  predicate SameChanges(plan: Plan, on: set<nat>, on': set<nat>)
    requires WellFormed(plan)
  {
    forall i | 0 <= i < |plan.steps| && Changes(plan, i) :: i in on <==> i in on'
  }

  lemma {:induction false} SameChangesRender(plan: Plan, ps: seq<Piece>, on: set<nat>, on': set<nat>)
    requires WellFormed(plan) && StepsInRange(plan, ps) && SameChanges(plan, on, on')
    ensures Render(plan, ps, on) == Render(plan, ps, on')
  {
    if ps != [] {
      SameChangesRender(plan, ps[1..], on, on');
    }
  }

  /** Two states of a tree are byte-identical exactly when the changing steps agree. */
  lemma SameWorldIff(plan: Plan, on: set<nat>, on': set<nat>)
    requires Sound(plan) && forall i | i in on + on' :: i < |plan.steps| && Present(plan, i)
    ensures World(plan, on) == World(plan, on') <==> SameChanges(plan, on, on')
  {
    hide Render, Present, Drifted;
    if SameChanges(plan, on, on') {
      forall p ensures Exists(plan, p, on) == Exists(plan, p, on') {
        assert forall i | 0 <= i < |plan.steps| && plan.steps[i].Create? :: Changes(plan, i);
      }
      forall p | p in plan.layout ensures Render(plan, plan.layout[p], on) == Render(plan, plan.layout[p], on') {
        SameChangesRender(plan, plan.layout[p], on, on');
      }
    } else {
      var i :| 0 <= i < |plan.steps| && Changes(plan, i) && (i in on) != (i in on');
      if i in on {
        StepShows(plan, on, on', i);
      } else {
        StepShows(plan, on', on, i);
      }
    }
  }

  /** The build's changes are undone before cleanup meets a drifted anchor, and cleanup undoes
      nothing that was there before the build. */
  ghost predicate UndoesExactly(plan: Plan, on0: set<nat>, done: nat, undone: seq<nat>)
    requires WellFormed(plan)
  {
    forall i | 0 <= i < |plan.steps| && Changes(plan, i) ::
      if i in on0 then i !in undone else i < done ==> i in undone
  }

  /** From a tree that may already hold some of the overlays, a build cut off anywhere leaves every
      file byte-identical exactly when each change it made is undone by a cleanup step that runs
      before cleanup meets a drifted anchor, and no such step undoes an overlay that was already
      there. */
  lemma CleanupIsCompleteIff(plan: Plan, on0: set<nat>, stop: nat, order: seq<nat>)
    requires Sound(plan) && Preapplied(plan, on0) && stop <= |plan.steps|
    requires forall k | 0 <= k < |order| :: order[k] < |plan.steps|
    ensures Build(World(plan, on0), plan.steps, stop, order) == World(plan, on0) <==>
      UndoesExactly(plan, on0, Reached(plan, 0, stop), order[..Cleaned(plan, order)])
  {
    hide Present, Drifted, World, Changes, ApplyPass, UndoPass;
    var done, r := Reached(plan, 0, stop), Cleaned(plan, order);
    var gone := set k | 0 <= k < r :: order[k];
    assert on0 + Below(0) == on0 && plan.steps[0..] == plan.steps;
    ApplyPassReaches(plan, on0, 0, stop);
    UndoPassCleans(plan, on0 + Below(done), order);
    InPrefix(order, r, gone);
    var left := on0 + Below(done) - gone;
    SameWorldIff(plan, left, on0);
    assert SameChanges(plan, left, on0) <==> UndoesExactly(plan, on0, done, order[..r]);
  }

  lemma InPrefix(order: seq<nat>, r: nat, gone: set<nat>)
    requires r <= |order| && gone == set k | 0 <= k < r :: order[k]
    ensures forall i :: i in gone <==> i in order[..r]
  {
    forall i ensures i in gone <==> i in order[..r] {
      if i in order[..r] {
        var k :| 0 <= k < r && order[..r][k] == i;
        assert order[k] == i;
      }
      if i in gone {
        var k :| 0 <= k < r && order[k] == i;
        assert order[..r][k] == i;
      }
    }
  }

  /** With every anchor in place, a build that ends after any number of steps is undone by a
      cleanup that visits each step at least once, in any order, exactly when cleanup visits no
      changing step whose overlay was already there. */
  lemma AnyOrderRestores(plan: Plan, on0: set<nat>, stop: nat, order: seq<nat>)
    requires Sound(plan) && Preapplied(plan, on0) && stop <= |plan.steps|
    requires forall i | 0 <= i < |plan.steps| :: !Drifted(plan, i)
    requires forall k | 0 <= k < |order| :: order[k] < |plan.steps|
    requires forall i: nat | i < stop :: i in order
    ensures Build(World(plan, on0), plan.steps, stop, order) == World(plan, on0) <==>
      forall i | i in on0 && i in order :: !Changes(plan, i)
  {
    hide Drifted, World, Changes, Build, Preapplied;
    CleanupIsCompleteIff(plan, on0, stop, order);
    assert order[..|order|] == order;
  }

  // --- the failing case --------------------------------------------------------------

  /** Two files; the second anchor drifted, and cleanup starts with it. */
  const DRIFTED_PLAN := Plan(
    [Anchor("MoveMap.cpp", [1], [2], false), Anchor("ChatHandler.cpp", [3], [4], false)],
    [false, false],
    map["MoveMap.cpp" := [Slot(0)], "ChatHandler.cpp" := [Gap([9])]])

  lemma OneByteAbsent(x: Byte, y: Byte)
    requires x != y
    ensures Absent([x], [y]) && Absent([x] + AllButLast([y]), [y])
  {
    forall k: nat ensures !OccursAt([x], [y], k) {
      if k == 0 {
        MismatchAt([x], [y], 0, 0);
      }
    }
    assert [x] + AllButLast([y]) == [x];
  }

  lemma OneByteCrlf(x: Byte)
    requires x != LF
    ensures Crlf([x]) == [x]
  {
    assert Crlf([x]) == [x] + Crlf([]);
  }

  lemma FirstAnchorPresent(plan: Plan)
    requires plan == DRIFTED_PLAN
    ensures WellFormed(plan) && Present(plan, 0) && Changes(plan, 0)
  {
    hide Absent;
    var ps := plan.layout["MoveMap.cpp"];
    assert ps == [Slot(0)] && ps[0] == Slot(0);
    SingleSlot(plan, 0, {});
    assert OldText(plan, 0) == [1] && NewText(plan, 0) == [2];
    OneByteCrlf(2);
    OneByteAbsent(1, 2);
    assert Render(plan, [], {}) + AllButLast([1]) == [];
    EmptyHasNone([1]);
    assert Scans(plan, [], ps, {}, 0, [1], false);
  }

  lemma EmptyHasNone(q: Bytes)
    requires |q| > 0
    ensures Absent([], q)
  {
  }

  lemma SecondAnchorDrifted(plan: Plan)
    requires plan == DRIFTED_PLAN
    ensures WellFormed(plan) && Drifted(plan, 1)
  {
    hide Absent;
    var ps := plan.layout["ChatHandler.cpp"];
    assert ps == [Gap([9])];
    assert Render(plan, ps, {}) == [9] + Render(plan, [], {});
    assert Pristine(plan, "ChatHandler.cpp") == [9];
    OneByteCrlf(3);
    OneByteCrlf(4);
    OneByteAbsent(9, 3);
    OneByteAbsent(9, 4);
  }

  lemma DriftedPlanIsSound()
    ensures Sound(DRIFTED_PLAN) && Present(DRIFTED_PLAN, 0) && Drifted(DRIFTED_PLAN, 1)
    ensures Changes(DRIFTED_PLAN, 0)
  {
    hide Present, Drifted, Changes;
    FirstAnchorPresent(DRIFTED_PLAN);
    SecondAnchorDrifted(DRIFTED_PLAN);
  }

  /** Cleanup that meets a drifted anchor first leaves an earlier edit in the tree. */
  lemma DriftStrandsEdits()
    ensures Sound(DRIFTED_PLAN)
    ensures Build(World(DRIFTED_PLAN, {}), DRIFTED_PLAN.steps, 2, [1, 0]) != World(DRIFTED_PLAN, {})
  {
    hide Present, Drifted, Sound, Build, World, Changes;
    DriftedPlanIsSound();
    CleanupIsCompleteIff(DRIFTED_PLAN, {}, 2, [1, 0]);
    NotBoth(DRIFTED_PLAN, 0);
    assert Reached(DRIFTED_PLAN, 0, 2) >= 1;
    assert Cleaned(DRIFTED_PLAN, [1, 0]) == 0;
  }

  /** A tree that already holds an overlay loses it: the build accepts it, and cleanup undoes it. */
  lemma CleanupTakesAnEarlierOverlay()
    ensures Sound(DRIFTED_PLAN) && Preapplied(DRIFTED_PLAN, {0})
    ensures Build(World(DRIFTED_PLAN, {0}), DRIFTED_PLAN.steps, 1, [0]) != World(DRIFTED_PLAN, {0})
  {
    hide Present, Drifted, Sound, Build, World, Changes, Absent;
    DriftedPlanIsSound();
    var plan := DRIFTED_PLAN;
    assert plan.layout["MoveMap.cpp"] == [Slot(0)];
    SingleSlot(plan, 0, {0});
    OneByteAbsent(2, 1);
    OneByteCrlf(1);
    assert AlreadyIn(plan, {0}, 0);
    CleanupIsCompleteIff(plan, {0}, 1, [0]);
    NotBoth(plan, 0);
    assert Cleaned(plan, [0]) == 1 by {
      assert [0][1..] == [];
    }
    assert [0][..1] == [0] && 0 in [0];
  }

  // --- two anchors in one file -------------------------------------------------------

  /** Both anchors are in one file, and cleanup visits them in the order they were applied. */
  const SHARED_PLAN := Plan(
    [Anchor("Master.cpp", [1], [2], false), Anchor("Master.cpp", [3], [4], false)],
    [false, false],
    map["Master.cpp" := [Slot(0), Slot(1)]])

  lemma OneByteApart(x: Byte, y: Byte)
    requires x != y
    ensures Apart([x], [y]) && SelfApart([x])
  {
    assert Clash([x], [y], 0) by {
      assert [x][0 - 0] != [y][0];
    }
  }

  lemma TwoBytesAbsent(x: Byte, y: Byte, z: Byte)
    requires x != z && y != z
    ensures Absent([x, y], [z])
  {
    forall k: nat ensures !OccursAt([x, y], [z], k) {
      if k < 2 {
        MismatchAt([x, y], [z], k, k);
      }
    }
  }

  lemma SharedRender(on: set<nat>)
    ensures WellFormed(SHARED_PLAN)
    ensures Render(SHARED_PLAN, [Slot(0), Slot(1)], on)
         == [if 0 in on then 2 else 1] + [if 1 in on then 4 else 3]
    ensures Render(SHARED_PLAN, [Slot(0)], on) == [if 0 in on then 2 else 1] && Render(SHARED_PLAN, [], on) == []
  {
    var ps := [Slot(0), Slot(1)];
    assert ps[1..] == [Slot(1)];
    SingleSlot(SHARED_PLAN, 0, on);
    SingleSlot(SHARED_PLAN, 1, on);
  }

  lemma SharedTextsApart(i: nat)
    requires i < 2
    ensures WellFormed(SHARED_PLAN) && TextsApartFromOthers(SHARED_PLAN, i)
  {
    hide Apart;
    OneByteCrlf(1);
    OneByteCrlf(2);
    OneByteCrlf(3);
    OneByteCrlf(4);
    OneByteApart(1, 4);
    OneByteApart(2, 4);
    OneByteApart(3, 2);
    OneByteApart(4, 2);
  }

  lemma SharedAnchorPresent(i: nat)
    requires i < 2
    ensures WellFormed(SHARED_PLAN) && Present(SHARED_PLAN, i)
  {
    hide Absent, Render, TextsApartFromOthers, SelfApart;
    var plan, ps := SHARED_PLAN, [Slot(0), Slot(1)];
    assert plan.layout["Master.cpp"] == ps && ps[0] == Slot(0) && ps[1] == Slot(1) && ps[1..] == [Slot(1)];
    SharedRender({});
    SharedTextsApart(i);
    OneByteCrlf(2);
    OneByteCrlf(4);
    OneByteApart(2, 1);
    OneByteApart(4, 1);
    TwoBytesAbsent(1, 3, 2);
    TwoBytesAbsent(1, 3, 4);
    OneByteAbsent(1, 3);
    EmptyHasNone([1]);
    assert [] + AllButLast([1]) == [] && [] + [Slot(0)] == [Slot(0)];
    if i == 0 {
      assert Owns(ps, 0) && OneSlot(ps, 0);
      assert OldText(plan, 0) == [1] && NewText(plan, 0) == [2] && Pristine(plan, "Master.cpp") == [1, 3];
      assert Absent([1, 3], [2]) && Crlf([2]) == [2] && SelfApart([2]);
      assert Scans(plan, [], ps, {}, 0, [1], false);
    } else {
      assert Owns(ps, 1) && OneSlot(ps, 1);
      assert OldText(plan, 1) == [3] && NewText(plan, 1) == [4] && Pristine(plan, "Master.cpp") == [1, 3];
      assert Absent([1, 3], [4]) && Crlf([4]) == [4] && SelfApart([4]);
      assert Scans(plan, [Slot(0)], [Slot(1)], {}, 1, [3], false);
      assert Scans(plan, [], ps, {}, 1, [3], false);
    }
  }

  /** What each set of applied steps leaves in the shared file. */
  lemma SharedWorld(on: set<nat>)
    ensures WellFormed(SHARED_PLAN)
    ensures World(SHARED_PLAN, on) == map["Master.cpp" := [if 0 in on then 2 else 1, if 1 in on then 4 else 3]]
  {
    SharedRender(on);
    hide Render;
    assert SHARED_PLAN.layout["Master.cpp"] == [Slot(0), Slot(1)];
    assert Exists(SHARED_PLAN, "Master.cpp", on);
    var first: Byte, second: Byte := if 0 in on then 2 else 1, if 1 in on then 4 else 3;
    assert [first] + [second] == [first, second];
  }

  lemma SharedPlanIsSound()
    ensures Sound(SHARED_PLAN) && Present(SHARED_PLAN, 0) && Present(SHARED_PLAN, 1)
  {
    hide Present, Drifted, Render;
    SharedAnchorPresent(0);
    SharedAnchorPresent(1);
  }

  /** The file comes back from every cut-off. */
  lemma SharedFileComesBack(stop: nat)
    requires stop <= 2
    ensures Sound(SHARED_PLAN)
    ensures Build(World(SHARED_PLAN, {}), SHARED_PLAN.steps, stop, [0, 1]) == World(SHARED_PLAN, {})
  {
    SharedPlanIsSound();
    hide Present, Drifted, Build, World, Changes;
    NotBoth(SHARED_PLAN, 0);
    NotBoth(SHARED_PLAN, 1);
    CoveredPlanComesBack(SHARED_PLAN, stop, [0, 1]);
  }

  lemma CoveredPlanComesBack(plan: Plan, stop: nat, order: seq<nat>)
    requires Sound(plan) && |plan.steps| == 2 && !Drifted(plan, 0) && !Drifted(plan, 1)
    requires stop <= 2 && order == [0, 1]
    ensures Build(World(plan, {}), plan.steps, stop, order) == World(plan, {})
  {
    hide Present, Drifted, Build, World, Changes;
    assert order[0] == 0 && order[1] == 1;
    AnyOrderRestores(plan, {}, stop, order);
  }

  lemma NotBoth(plan: Plan, i: nat)
    requires Sound(plan) && i < |plan.steps|
    ensures !(Present(plan, i) && Drifted(plan, i))
  {
  }
}
