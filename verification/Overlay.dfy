/** The source overlays of the realm build: which bytes one edit rewrites, and the state a
    tree is in when any set of a plan's edits is applied.

    A file is a sequence of pieces. A gap is text no edit owns; a slot is text owned by one
    step, rendered as that step's old or new text. */
module Overlay {
  import opened Wrappers
  import opened Substring

  type Path = string

  const CR: Byte := 13
  const LF: Byte := 10

  function Crlf(s: Bytes): (r: Bytes)
    ensures |s| <= |r|
  {
    if s == [] then []
    else (if s[0] == LF then [CR, LF] else [s[0]]) + Crlf(s[1..])
  }

  lemma {:induction false} CrlfAppend(a: Bytes, b: Bytes)
    ensures Crlf(a + b) == Crlf(a) + Crlf(b)
  {
    if a == [] {
      assert a + b == b;
    } else {
      assert (a + b)[1..] == a[1..] + b;
      CrlfAppend(a[1..], b);
    }
  }

  lemma {:induction false} OneLineHasOneForm(s: Bytes)
    requires LF !in s
    ensures Crlf(s) == s
  {
    if s != [] {
      OneLineHasOneForm(s[1..]);
    }
  }

  lemma LineFeedOccurs(s: Bytes, k: nat)
    ensures OccursAt(s, [LF], k) <==> k < |s| && s[k] == LF
  {
    if k < |s| {
      assert s[k..k + 1] == [s[k]];
    }
  }

  lemma FirstLineFeed(s: Bytes)
    ensures Find(s, [LF]).None? ==> LF !in s
    ensures Find(s, [LF]).Some? ==> LF !in s[..Find(s, [LF]).value]
  {
    FindIsLeftmost(s, [LF]);
    hide OccursAt, Find;
    forall k: nat ensures OccursAt(s, [LF], k) <==> k < |s| && s[k] == LF {
      LineFeedOccurs(s, k);
    }
  }

  /** The CRLF form of a text is `replace("\n", "\r\n")` of it: every line feed is converted. */
  lemma {:induction false} CrlfIsReplace(s: Bytes)
    ensures Crlf(s) == Replace(s, [LF], [CR, LF], -1)
    decreases |s|
  {
    FirstLineFeed(s);
    if Find(s, [LF]).None? {
      OneLineHasOneForm(s);
    } else {
      var k := Find(s, [LF]).value;
      SplitAtFind(s, [LF]);
      CrlfIsReplace(s[k + 1..]);
      assert Replace(s, [LF], [CR, LF], -1) == s[..k] + [CR, LF] + Replace(s[k + 1..], [LF], [CR, LF], -1);
      hide Replace, Crlf;
      CrlfOfLine(s[..k], s[k + 1..]);
    }
  }

  lemma CrlfOfLine(line: Bytes, rest: Bytes)
    requires LF !in line
    ensures Crlf(line + [LF] + rest) == line + [CR, LF] + Crlf(rest)
  {
    OneLineHasOneForm(line);
    CrlfAppend(line, [LF] + rest);
    assert line + ([LF] + rest) == line + [LF] + rest && ([LF] + rest)[1..] == rest;
  }

  function Variant(s: Bytes, crlf: bool): Bytes {
    if crlf then Crlf(s) else s
  }

  function ReplaceSome(s: Bytes, q: Bytes, t: Bytes, every: bool): Bytes
    requires |q| > 0
  {
    if every then Replace(s, q, t, -1) else ReplaceFirst(s, q, t)
  }

  /** One overlay edit of a file's bytes. `None` is anchor drift.

      Applying is `Rewrite(data, upstream, overlay)`, and undoing is the same computation
      with the two texts exchanged. */
  function Rewrite(data: Bytes, from: Bytes, to: Bytes, every: bool): Option<Bytes>
    requires |from| > 0
  {
    if Find(data, from).Some? then Some(ReplaceSome(data, from, to, every))
    else if Find(data, Crlf(from)).Some? then Some(ReplaceSome(data, Crlf(from), Crlf(to), every))
    else if Find(data, to).Some? || Find(data, Crlf(to)).Some? then Some(data)
    else None
  }

  /** What one edit does, told by which texts the file holds: the LF form comes first, then the CRLF
      form, then a file that holds the new text already is left alone; any other file is drift. */
  lemma RewriteMeaning(data: Bytes, from: Bytes, to: Bytes, every: bool)
    requires |from| > 0
    ensures var r, limit := Rewrite(data, from, to, every), if every then -1 else 1;
      if !Absent(data, from) then r == Some(Replace(data, from, to, limit))
      else if !Absent(data, Crlf(from)) then r == Some(Replace(data, Crlf(from), Crlf(to), limit))
      else if !Absent(data, to) || !Absent(data, Crlf(to)) then r == Some(data)
      else r == None
  {
    hide Absent, Replace, ReplaceFirst;
    FindIsLeftmost(data, from);
    FindIsLeftmost(data, Crlf(from));
    FindIsLeftmost(data, to);
    FindIsLeftmost(data, Crlf(to));
    ReplaceFirstIsReplaceOne(data, from, to);
    ReplaceFirstIsReplaceOne(data, Crlf(from), Crlf(to));
  }

  datatype Step =
    /** `replace_anchor` (or `replace_all` when `every`). */
    | Anchor(path: Path, before: Bytes, after: Bytes, every: bool)
    /** A file the overlay adds and cleanup removes. */
    | Create(path: Path, text: Bytes)
    /** A tracked file written whole; cleanup checks the committed bytes out again. */
    | Overwrite(path: Path, saved: Bytes, text: Bytes)

  datatype Piece = Gap(text: Bytes) | Slot(step: nat)

  datatype Plan = Plan(steps: seq<Step>, crlf: seq<bool>, layout: map<Path, seq<Piece>>)

  predicate StepsInRange(plan: Plan, ps: seq<Piece>) {
    forall m | 0 <= m < |ps| :: ps[m].Slot? ==> ps[m].step < |plan.steps|
  }

  predicate WellFormed(plan: Plan) {
    && |plan.crlf| == |plan.steps|
    && forall p | p in plan.layout :: StepsInRange(plan, plan.layout[p])
  }

  function OldText(plan: Plan, i: nat): Bytes
    requires |plan.crlf| == |plan.steps| && i < |plan.steps|
  {
    match plan.steps[i]
    case Anchor(_, before, _, _) => Variant(before, plan.crlf[i])
    case Create(_, text) => text
    case Overwrite(_, saved, _) => saved
  }

  function NewText(plan: Plan, i: nat): Bytes
    requires |plan.crlf| == |plan.steps| && i < |plan.steps|
  {
    match plan.steps[i]
    case Anchor(_, _, after, _) => Variant(after, plan.crlf[i])
    case Create(_, text) => text
    case Overwrite(_, _, text) => text
  }

  function PieceText(plan: Plan, p: Piece, on: set<nat>): Bytes
    requires |plan.crlf| == |plan.steps| && (p.Slot? ==> p.step < |plan.steps|)
  {
    match p
    case Gap(text) => text
    case Slot(i) => if i in on then NewText(plan, i) else OldText(plan, i)
  }

  /** The bytes of a file when exactly the steps in `on` are applied. */
  function Render(plan: Plan, ps: seq<Piece>, on: set<nat>): Bytes
    requires |plan.crlf| == |plan.steps| && StepsInRange(plan, ps)
  {
    if ps == [] then [] else PieceText(plan, ps[0], on) + Render(plan, ps[1..], on)
  }

  predicate Owns(ps: seq<Piece>, i: nat) {
    Slot(i) in ps
  }

  predicate OneSlot(ps: seq<Piece>, i: nat) {
    forall m, n | 0 <= m < n < |ps| :: !(ps[m] == Slot(i) && ps[n] == Slot(i))
  }

  lemma {:induction false} RenderAppend(plan: Plan, ps: seq<Piece>, p: Piece, on: set<nat>)
    requires |plan.crlf| == |plan.steps| && StepsInRange(plan, ps + [p])
    ensures StepsInRange(plan, ps) && (p.Slot? ==> p.step < |plan.steps|)
    ensures Render(plan, ps + [p], on) == Render(plan, ps, on) + PieceText(plan, p, on)
  {
    assert (ps + [p])[|ps|] == p;
    assert forall m | 0 <= m < |ps| :: (ps + [p])[m] == ps[m];
    if ps != [] {
      assert (ps + [p])[1..] == ps[1..] + [p];
      RenderAppend(plan, ps[1..], p, on);
    } else {
      assert ps + [p] == [p];
    }
  }

  lemma {:induction false} RenderElsewhere(plan: Plan, ps: seq<Piece>, on: set<nat>, off: set<nat>)
    requires |plan.crlf| == |plan.steps| && StepsInRange(plan, ps)
    requires forall m | 0 <= m < |ps| :: ps[m].Slot? ==> (ps[m].step in on <==> ps[m].step in off)
    ensures Render(plan, ps, on) == Render(plan, ps, off)
  {
    if ps != [] {
      RenderElsewhere(plan, ps[1..], on, off);
    }
  }

  lemma Toggled(plan: Plan, ps: seq<Piece>, on: set<nat>, on': set<nat>, i: nat)
    requires |plan.crlf| == |plan.steps| && StepsInRange(plan, ps)
    requires on - {i} == on' - {i} && !Owns(ps, i)
    ensures Render(plan, ps, on) == Render(plan, ps, on')
  {
    forall m | 0 <= m < |ps| && ps[m].Slot? ensures ps[m].step in on <==> ps[m].step in on' {
      assert ps[m].step != i;
      assert ps[m].step in on - {i} <==> ps[m].step in on' - {i};
    }
    RenderElsewhere(plan, ps, on, on');
  }

  /** `q` overlaps the new text of no step of `ps` that could be on. */
  ghost predicate ApartFromSlots(plan: Plan, ps: seq<Piece>, on: set<nat>, q: Bytes)
    requires |plan.crlf| == |plan.steps| && StepsInRange(plan, ps)
  {
    forall m | 0 <= m < |ps| :: ps[m].Slot? && ps[m].step in on ==>
      OldText(plan, ps[m].step) == NewText(plan, ps[m].step) || Apart(q, NewText(plan, ps[m].step))
  }

  /** Turning more foreign steps on cannot make a text appear. */
  lemma {:induction false} AbsentAfterEdits(
    plan: Plan, pre: Bytes, ps: seq<Piece>, off: set<nat>, on: set<nat>, tail: Bytes, q: Bytes)
    requires |plan.crlf| == |plan.steps| && StepsInRange(plan, ps) && off <= on
    requires Absent(pre + Render(plan, ps, off) + tail, q)
    requires ApartFromSlots(plan, ps, on - off, q)
    ensures Absent(pre + Render(plan, ps, on) + tail, q)
    decreases |ps|
  {
    hide Absent, Apart;
    if ps != [] {
      var was, now := PieceText(plan, ps[0], off), PieceText(plan, ps[0], on);
      var rest := Render(plan, ps[1..], off);
      assert pre + Render(plan, ps, off) + tail == pre + was + (rest + tail);
      if was != now {
        assert ps[0].step in on - off;
        SwapKeepsAbsent(pre, was, now, rest + tail, q);
      }
      assert pre + now + (rest + tail) == (pre + now) + rest + tail;
      AbsentAfterEdits(plan, pre + now, ps[1..], off, on, tail, q);
      assert (pre + now) + Render(plan, ps[1..], on) + tail == pre + Render(plan, ps, on) + tail;
    }
  }

  /** A left-to-right scan of `ps` for `q` stops exactly at the slots of step `i`: nothing
      matches in the pieces `run` read since the last stop, up to and across the next slot. */
  ghost predicate Scans(plan: Plan, run: seq<Piece>, ps: seq<Piece>, on: set<nat>, i: nat, q: Bytes, every: bool)
    requires |plan.crlf| == |plan.steps| && StepsInRange(plan, run) && StepsInRange(plan, ps)
    requires |q| > 0
    decreases |ps|
  {
    if ps == [] then Absent(Render(plan, run, on), q)
    else if ps[0] == Slot(i) then
      && Absent(Render(plan, run, on) + AllButLast(q), q)
      && (every ==> Scans(plan, [], ps[1..], on, i, q, every))
    else Scans(plan, run + [ps[0]], ps[1..], on, i, q, every)
  }

  lemma {:induction false} ScansAfterEdits(
    plan: Plan, run: seq<Piece>, ps: seq<Piece>, on: set<nat>, i: nat, q: Bytes, every: bool)
    requires |plan.crlf| == |plan.steps| && StepsInRange(plan, run) && StepsInRange(plan, ps)
    requires |q| > 0 && Scans(plan, run, ps, {}, i, q, every)
    requires ApartFromSlots(plan, run, on, q)
    requires forall m | 0 <= m < |ps| :: ps[m].Slot? && ps[m].step in on && ps[m].step != i ==>
      OldText(plan, ps[m].step) == NewText(plan, ps[m].step) || Apart(q, NewText(plan, ps[m].step))
    ensures Scans(plan, run, ps, on, i, q, every)
    decreases |ps|
  {
    hide Absent, Apart;
    var off, now := Render(plan, run, {}), Render(plan, run, on);
    if ps == [] || ps[0] == Slot(i) {
      var tail := if ps == [] then [] else AllButLast(q);
      assert [] + off + [] == off && [] + off + tail == off + tail;
      assert on - {} == on;
      AbsentAfterEdits(plan, [], run, {}, on, tail, q);
      assert [] + now + [] == now && [] + now + tail == now + tail;
    }
    if ps != [] {
      if ps[0] == Slot(i) {
        if every {
          ScansAfterEdits(plan, [], ps[1..], on, i, q, every);
        }
      } else {
        ScansAfterEdits(plan, run + [ps[0]], ps[1..], on, i, q, every);
      }
    }
  }

  lemma {:induction false} ScanFindsNothing(
    plan: Plan, run: seq<Piece>, ps: seq<Piece>, on: set<nat>, i: nat, q: Bytes, every: bool)
    requires |plan.crlf| == |plan.steps| && StepsInRange(plan, run) && StepsInRange(plan, ps)
    requires |q| > 0 && !Owns(ps, i) && Scans(plan, run, ps, on, i, q, every)
    ensures Absent(Render(plan, run, on) + Render(plan, ps, on), q)
    decreases |ps|
  {
    hide Absent;
    if ps == [] {
      assert Render(plan, run, on) + [] == Render(plan, run, on);
    } else {
      RenderAppend(plan, run, ps[0], on);
      ScanFindsNothing(plan, run + [ps[0]], ps[1..], on, i, q, every);
      assert Render(plan, run + [ps[0]], on) + Render(plan, ps[1..], on)
          == Render(plan, run, on) + Render(plan, ps, on);
    }
  }

  lemma NothingToReplace(s: Bytes, q: Bytes, t: Bytes)
    requires |q| > 0 && Absent(s, q)
    ensures Replace(s, q, t, -1) == s
  {
    FindIsLeftmost(s, q);
  }

  lemma RegroupBySlot(plan: Plan, run: seq<Piece>, ps: seq<Piece>, on: set<nat>)
    requires |plan.crlf| == |plan.steps| && StepsInRange(plan, run) && StepsInRange(plan, ps) && ps != []
    ensures StepsInRange(plan, run + [ps[0]])
    ensures Render(plan, run, on) + Render(plan, ps, on)
         == Render(plan, run, on) + PieceText(plan, ps[0], on) + Render(plan, ps[1..], on)
    ensures Render(plan, run, on) + Render(plan, ps, on)
         == Render(plan, run + [ps[0]], on) + Render(plan, ps[1..], on)
  {
    RenderAppend(plan, run, ps[0], on);
  }

  /** A replacement that scans to step `i`'s slots renders the file with the step toggled. */
  lemma {:induction false} ReplaceToggles(
    plan: Plan, run: seq<Piece>, ps: seq<Piece>, on: set<nat>, on': set<nat>, i: nat, q: Bytes, t: Bytes, every: bool)
    requires |plan.crlf| == |plan.steps| && StepsInRange(plan, run) && StepsInRange(plan, ps)
    requires i < |plan.steps| && |q| > 0
    requires q == PieceText(plan, Slot(i), on) && t == PieceText(plan, Slot(i), on')
    requires on - {i} == on' - {i}
    requires !Owns(run, i) && (every || Owns(ps, i))
    requires !every ==> OneSlot(ps, i)
    requires Scans(plan, run, ps, on, i, q, every)
    ensures ReplaceSome(Render(plan, run, on) + Render(plan, ps, on), q, t, every)
         == Render(plan, run, on') + Render(plan, ps, on')
    decreases |ps|
  {
    hide Absent, Replace, ReplaceFirst, Render, PieceText;
    var head := Render(plan, run, on);
    Toggled(plan, run, on, on', i);
    if !Owns(ps, i) {
      ScanFindsNothing(plan, run, ps, on, i, q, every);
      NothingToReplace(head + Render(plan, ps, on), q, t);
      Toggled(plan, ps, on, on', i);
    } else {
      RegroupBySlot(plan, run, ps, on);
      RegroupBySlot(plan, run, ps, on');
      if ps[0] == Slot(i) {
        var rest, rest' := Render(plan, ps[1..], on), Render(plan, ps[1..], on');
        if every {
          ReplaceAt(head, q, rest, t, -1);
          ReplaceToggles(plan, [], ps[1..], on, on', i, q, t, every);
          RenderNothing(plan, on, rest);
          RenderNothing(plan, on', rest');
        } else {
          ReplaceFirstAt(head, q, rest, t);
          Toggled(plan, ps[1..], on, on', i);
        }
      } else {
        ReplaceToggles(plan, run + [ps[0]], ps[1..], on, on', i, q, t, every);
      }
    }
  }

  lemma RenderNothing(plan: Plan, on: set<nat>, rest: Bytes)
    requires |plan.crlf| == |plan.steps|
    ensures Render(plan, [], on) + rest == rest
  {
  }

  // --- one edit and its undo, on any file ---------------------------------------------

  lemma {:induction false} ReplaceKeepsAbsent(pre: Bytes, s: Bytes, q: Bytes, t: Bytes, limit: int, x: Bytes)
    requires |q| > 0 && Absent(pre + s, x) && Apart(x, t)
    ensures Absent(pre + Replace(s, q, t, limit), x)
    decreases |s|
  {
    hide Absent, Apart;
    if limit != 0 && Find(s, q).Some? {
      var k := Find(s, q).value;
      var a, b := s[..k], s[k + |q|..];
      SplitAtFind(s, q);
      assert pre + s == (pre + a) + q + b;
      SwapKeepsAbsent(pre + a, q, t, b, x);
      ReplaceKeepsAbsent(pre + a + t, b, q, t, Left(limit), x);
      assert (pre + a + t) + Replace(b, q, t, Left(limit)) == pre + Replace(s, q, t, limit);
    }
  }

  lemma ReplaceSomeFacts(s: Bytes, q: Bytes, t: Bytes, every: bool)
    requires |q| > 0 && |t| > 0 && SelfApart(t) && Absent(s, t) && Find(s, q).Some?
    ensures Find(ReplaceSome(s, q, t, every), t).Some?
    ensures ReplaceSome(ReplaceSome(s, q, t, every), t, q, every) == s
  {
    hide Absent, SelfApart;
    var k := Find(s, q).value;
    var a, b := s[..k], s[k + |q|..];
    SplitAtFind(s, q);
    AbsentInPart([], a, q + b, t) by { assert [] + a + (q + b) == s; }
    FirstIsOwn(a, t);
    var rest := if every then Replace(b, q, t, -1) else b;
    FindAt(a, t, rest);
    assert ReplaceSome(s, q, t, every) == a + t + rest;
    if every {
      ReplaceRoundTrip(s, q, t, -1);
    } else {
      ReplaceFirstAt(a, t, b, q);
    }
  }

  /** Scanning the edited file for `t` stops exactly where the edit of `s` put it. */
  ghost predicate Recovers(s: Bytes, q: Bytes, t: Bytes, every: bool)
    requires |q| > 0 && |t| > 0
    decreases |s|
  {
    match Find(s, q)
    case None => every ==> Absent(s, t)
    case Some(k) =>
      Absent(s[..k] + AllButLast(t), t) && (every ==> Recovers(s[k + |q|..], q, t, every))
  }

  /** The first replaced place holds the new text afterwards. */
  lemma ReplacedHolds(s: Bytes, q: Bytes, t: Bytes, every: bool)
    requires |q| > 0 && Find(s, q).Some?
    ensures OccursAt(ReplaceSome(s, q, t, every), t, Find(s, q).value)
  {
    var k := Find(s, q).value;
    var rest := s[k + |q|..];
    PresentInWhole(s[..k], t, if every then Replace(rest, q, t, -1) else rest);
  }

  /** An earlier copy of `t` is found first, and undoing it puts `q` before the first `q` of `s`. */
  lemma EarlierCopyIsTaken(s: Bytes, q: Bytes, t: Bytes, every: bool)
    requires |q| > 0 && |t| > 0 && Find(s, q).Some?
    requires !Absent(s[..Find(s, q).value] + AllButLast(t), t)
    ensures ReplaceSome(ReplaceSome(s, q, t, every), t, q, every) != s
  {
    var k := Find(s, q).value;
    var a, b := s[..k], s[k + |q|..];
    var e := ReplaceSome(s, q, t, every);
    var i: nat :| OccursAt(a + AllButLast(t), t, i);
    assert e == a + t + (if every then Replace(b, q, t, -1) else b);
    SameWindow(a + AllButLast(t), i, e, i, t);
    FindIsLeftmost(e, t);
    ReplacedHolds(e, t, q, every);
    FindIsLeftmost(s, q);
    assert Find(e, t).value <= i < k;
  }

  lemma {:induction false} UndoIffRecovers(s: Bytes, q: Bytes, t: Bytes, every: bool)
    requires |q| > 0 && |t| > 0 && (every || Find(s, q).Some?)
    ensures ReplaceSome(ReplaceSome(s, q, t, every), t, q, every) == s <==> Recovers(s, q, t, every)
    decreases |s|
  {
    hide Absent, OccursAt;
    if Find(s, q).None? {
      FindIsLeftmost(s, t);
      FindIsLeftmost(s, q);
      if Find(s, t).Some? {
        ReplacedHolds(s, t, q, every);
        PresentWhere(Replace(s, t, q, -1), q, Find(s, t).value);
      }
    } else {
      var k := Find(s, q).value;
      var a, b := s[..k], s[k + |q|..];
      SplitAtFind(s, q);
      if !Absent(a + AllButLast(t), t) {
        EarlierCopyIsTaken(s, q, t, every);
      } else if every {
        UndoIffRecovers(b, q, t, every);
        var rest := Replace(b, q, t, -1);
        assert Replace(s, q, t, -1) == a + t + rest;
        ReplaceAt(a, t, rest, q, -1);
        SameSuffix(a + q, Replace(rest, t, q, -1), b);
      } else {
        ReplaceFirstAt(a, t, b, q);
      }
    }
  }

  lemma PresentWhere(s: Bytes, q: Bytes, k: nat)
    requires OccursAt(s, q, k)
    ensures !Absent(s, q)
  {
  }

  lemma SameSuffix(pre: Bytes, x: Bytes, y: Bytes)
    ensures pre + x == pre + y <==> x == y
  {
    assert (pre + x)[|pre|..] == x && (pre + y)[|pre|..] == y;
  }

  /** The exact condition under which an edit comes back, on any file and for any texts. The form
      that was found must be the form undoing finds first, and the scan for the new text must stop
      exactly where the edit put it; a new text that was taken for granted is never given back. */
  lemma RoundTripIff(data: Bytes, from: Bytes, to: Bytes, every: bool)
    requires |from| > 0 && |to| > 0
    requires Rewrite(data, from, to, every).Some?
    ensures Rewrite(Rewrite(data, from, to, every).value, to, from, every) == Some(data) <==>
      if Find(data, from).Some? then Recovers(data, from, to, every)
      else
        && Find(data, Crlf(from)).Some?
        && Find(ReplaceSome(data, Crlf(from), Crlf(to), every), to).None?
        && Recovers(data, Crlf(from), Crlf(to), every)
  {
    hide Absent, Recovers, ReplaceSome, OccursAt;
    FindIsLeftmost(data, from);
    FindIsLeftmost(data, Crlf(from));
    if Find(data, from).Some? {
      UndoFinds(data, from, to, every);
      UndoIffRecovers(data, from, to, every);
    } else if Find(data, Crlf(from)).Some? {
      var edited := ReplaceSome(data, Crlf(from), Crlf(to), every);
      UndoFinds(data, Crlf(from), Crlf(to), every);
      UndoIffRecovers(data, Crlf(from), Crlf(to), every);
      if Find(edited, to).Some? {
        UndoneIsPresent(edited, to, from, every);
      }
    } else if Find(data, to).Some? {
      UndoneIsPresent(data, to, from, every);
    } else {
      UndoneIsPresent(data, Crlf(to), Crlf(from), every);
    }
  }

  lemma UndoFinds(s: Bytes, q: Bytes, t: Bytes, every: bool)
    requires |q| > 0 && Find(s, q).Some?
    ensures Find(ReplaceSome(s, q, t, every), t).Some?
  {
    ReplacedHolds(s, q, t, every);
    FindIsLeftmost(ReplaceSome(s, q, t, every), t);
  }

  lemma UndoneIsPresent(s: Bytes, t: Bytes, q: Bytes, every: bool)
    requires |t| > 0 && Find(s, t).Some?
    ensures !Absent(ReplaceSome(s, t, q, every), q)
  {
    ReplacedHolds(s, t, q, every);
  }

  /** `restore_anchor` undoes `replace_anchor`, and `restore_all` undoes `replace_all`, on any
      file that holds neither form of the new text. Only where the CRLF form was rewritten must
      the two forms of the new text be told apart. */
  lemma RewriteRoundTrip(data: Bytes, from: Bytes, to: Bytes, every: bool)
    requires |from| > 0 && |to| > 0
    requires Absent(data, to) && Absent(data, Crlf(to))
    requires SelfApart(to) && SelfApart(Crlf(to)) && (Find(data, from).None? ==> Apart(to, Crlf(to)))
    requires Rewrite(data, from, to, every).Some?
    ensures Rewrite(Rewrite(data, from, to, every).value, to, from, every) == Some(data)
  {
    hide Absent, Apart, SelfApart, ReplaceSome;
    FindIsLeftmost(data, to);
    FindIsLeftmost(data, Crlf(to));
    if Find(data, from).Some? {
      ReplaceSomeFacts(data, from, to, every);
    } else {
      ReplaceSomeFacts(data, Crlf(from), Crlf(to), every);
      var edited := ReplaceSome(data, Crlf(from), Crlf(to), every);
      ReplaceSomeKeepsAbsent(data, Crlf(from), Crlf(to), every, to);
      FindIsLeftmost(edited, to);
    }
  }

  /** Undoing puts the text back in its first form, so the file then holds that form. */
  lemma UndoneHolds(data: Bytes, q: Bytes, t: Bytes, from: Bytes, every: bool)
    requires |q| > 0 && |t| > 0 && |from| > 0 && SelfApart(t) && Absent(data, t) && Find(data, q).Some?
    ensures Find(ReplaceSome(ReplaceSome(data, q, t, every), t, from, every), from).Some?
  {
    hide Absent, SelfApart;
    var k := Find(data, q).value;
    var a, b := data[..k], data[k + |q|..];
    SplitAtFind(data, q);
    AbsentInPart([], a, q + b, t) by { assert [] + a + (q + b) == data; }
    FirstIsOwn(a, t);
    var rest := if every then Replace(b, q, t, -1) else b;
    assert ReplaceSome(data, q, t, every) == a + t + rest;
    var rest' := if every then Replace(rest, t, from, -1) else rest;
    if every {
      ReplaceAt(a, t, rest, from, -1);
    } else {
      ReplaceFirstAt(a, t, rest, from);
    }
    PresentInWhole(a, from, rest');
    FindIsLeftmost(a + from + rest', from);
  }

  /** Where neither form of the new text was there before and it is recognisable, an edit comes back
      unless a text of several lines was found in its CRLF form and became a text of one line,
      which no longer says which form it replaced. */
  lemma NewTextRoundTripIff(data: Bytes, from: Bytes, to: Bytes, every: bool)
    requires |from| > 0 && |to| > 0
    requires Absent(data, to) && Absent(data, Crlf(to))
    requires SelfApart(to) && SelfApart(Crlf(to)) && (LF in to ==> Apart(to, Crlf(to)))
    requires Rewrite(data, from, to, every).Some?
    ensures Rewrite(Rewrite(data, from, to, every).value, to, from, every) == Some(data) <==>
              Find(data, from).Some? || LF in to
  {
    hide Absent, Apart, SelfApart, ReplaceSome;
    if Find(data, from).Some? || LF in to {
      RewriteRoundTrip(data, from, to, every);
    } else {
      OneLineHasOneForm(to);
      FindIsLeftmost(data, to);
      ReplaceSomeFacts(data, Crlf(from), to, every);
      UndoneHolds(data, Crlf(from), to, from, every);
    }
  }

  lemma ReplaceSomeKeepsAbsent(s: Bytes, q: Bytes, t: Bytes, every: bool, x: Bytes)
    requires |q| > 0 && Absent(s, x) && Apart(x, t)
    ensures Absent(ReplaceSome(s, q, t, every), x)
  {
    hide Absent, Apart;
    assert [] + s == s && [] + Replace(s, q, t, -1) == Replace(s, q, t, -1);
    ReplaceKeepsAbsent([], s, q, t, -1, x);
    if Find(s, q).Some? {
      SplitAtFind(s, q);
      SwapKeepsAbsent(s[..Find(s, q).value], q, t, s[Find(s, q).value + |q|..], x);
    }
  }

  lemma FindsAt(s: Bytes, q: Bytes, k: nat)
    requires OccursAt(s, q, k) && forall i: nat | i < k :: !OccursAt(s, q, i)
    ensures Find(s, q) == Some(k)
  {
    FindIsLeftmost(s, q);
  }

  /** An edit next to a copy of its new text: undoing takes the copy. */
  lemma UndoTakesTheNeighbour()
    ensures Rewrite([2, 1], [1], [2], false) == Some([2, 2])
    ensures Rewrite([2, 2], [2], [1], false) == Some([1, 2])
  {
    var data: Bytes, edited: Bytes := [2, 1], [2, 2];
    assert data[0..1] == [2] && data[1..2] == [1] && edited[0..1] == [2];
    FindsAt(data, [1], 1);
    FindsAt(edited, [2], 0);
    assert data[..1] + [2] + data[2..] == edited;
    assert edited[..0] + [1] + edited[1..] == [1, 2];
  }

  /** Two lines in CRLF form that become one: undoing writes the LF form. */
  lemma UndoForgetsTheForm()
    ensures Rewrite([65, CR, LF, 66], [65, LF, 66], [67], false) == Some([67])
    ensures Rewrite([67], [67], [65, LF, 66], false) == Some([65, LF, 66])
  {
    var data: Bytes, from: Bytes, to: Bytes := [65, CR, LF, 66], [65, LF, 66], [67];
    assert Crlf(from) == [65] + Crlf([LF, 66]);
    assert Crlf([LF, 66]) == [CR, LF] + Crlf([66]) && Crlf([66]) == [66] + Crlf([]);
    assert Crlf(from) == data;
    assert Crlf(to) == to + Crlf([]);
    FindIsLeftmost(data, from);
    assert data[0..3][1] == CR && data[1..4][0] == CR;
    assert data[0..4] == data && to[0..1] == to;
    FindsAt(data, data, 0);
    FindsAt(to, to, 0);
    assert data[..0] + to + data[4..] == to;
    assert to[..0] + from + to[1..] == from;
  }
}
