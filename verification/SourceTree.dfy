/** The overlay driver's own operations, rewriting the files of a checkout in place. */
module SourceTree {
  import opened Wrappers
  import opened Substring
  import opened Overlay
  import opened OverlayCleanup

  class Checkout {
    var files: Files

    constructor (files: Files)
      ensures this.files == files
    {
      this.files := files;
    }

    /** Tries the LF form of a text pair and then its CRLF form. */
    method SwapFirstVariant(path: Path, from: Bytes, to: Bytes, every: bool) returns (ok: bool)
      requires path in files && |from| > 0
      modifies this
      ensures ok == Rewrite(old(files)[path], from, to, every).Some?
      ensures ok ==> files == old(files)[path := Rewrite(old(files)[path], from, to, every).value]
      ensures !ok ==> files == old(files)
    {
      var data := files[path];
      var variants := [(from, to), (Crlf(from), Crlf(to))];
      assert variants[0] == (from, to) && variants[1] == (Crlf(from), Crlf(to));
      for i := 0 to 2
        invariant files == old(files)
        invariant forall j | 0 <= j < i :: Find(data, variants[j].0).None?
      {
        if Find(data, variants[i].0).Some? {
          files := files[path := ReplaceSome(data, variants[i].0, variants[i].1, every)];
          return true;
        }
      }
      ok := Find(data, to).Some? || Find(data, Crlf(to)).Some?;
      assert variants[0] == (from, to) && variants[1] == (Crlf(from), Crlf(to));
      assert ok ==> files == old(files)[path := data];
    }

    method ReplaceAnchor(path: Path, upstream: Bytes, overlay: Bytes) returns (ok: bool)
      requires |upstream| > 0 && |overlay| > 0
      modifies this
      ensures Performs(Apply(old(files), Anchor(path, upstream, overlay, false)), old(files), files, ok)
    {
      if path !in files {
        return false;
      }
      ok := SwapFirstVariant(path, upstream, overlay, false);
    }

    method ReplaceAll(path: Path, upstream: Bytes, overlay: Bytes) returns (ok: bool)
      requires |upstream| > 0 && |overlay| > 0
      modifies this
      ensures Performs(Apply(old(files), Anchor(path, upstream, overlay, true)), old(files), files, ok)
    {
      if path !in files {
        return false;
      }
      ok := SwapFirstVariant(path, upstream, overlay, true);
    }

    method RestoreAnchor(path: Path, applied: Bytes, original: Bytes) returns (ok: bool)
      requires |applied| > 0 && |original| > 0
      modifies this
      ensures Performs(Undo(old(files), Anchor(path, original, applied, false)), old(files), files, ok)
    {
      if path !in files {
        return false;
      }
      ok := SwapFirstVariant(path, applied, original, false);
    }

    method RestoreAll(path: Path, applied: Bytes, original: Bytes) returns (ok: bool)
      requires |applied| > 0 && |original| > 0
      modifies this
      ensures Performs(Undo(old(files), Anchor(path, original, applied, true)), old(files), files, ok)
    {
      if path !in files {
        return false;
      }
      ok := SwapFirstVariant(path, applied, original, true);
    }

    /** An added file must not exist yet, and an overwritten one need not. */
    method ApplyStep(step: Step) returns (ok: bool)
      requires Runnable(step)
      modifies this
      ensures step.Anchor? ==>
        ok == (step.path in old(files) && Rewrite(old(files)[step.path], step.before, step.after, step.every).Some?)
      ensures step.Create? ==> ok == (step.path !in old(files))
      ensures step.Overwrite? ==> ok
      ensures !ok ==> files == old(files)
      ensures ok && !step.Anchor? ==> files == old(files)[step.path := step.text]
      ensures ok && step.Anchor? ==>
        files == old(files)[step.path :=
                   Rewrite(old(files)[step.path], step.before, step.after, step.every).value]
      ensures Performs(Apply(old(files), step), old(files), files, ok)
    {
      match step
      case Anchor(path, before, after, every) =>
        if every {
          ok := ReplaceAll(path, before, after);
        } else {
          ok := ReplaceAnchor(path, before, after);
        }
      case Create(path, text) =>
        ok := path !in files;
        if ok {
          files := files[path := text];
        }
      case Overwrite(path, _, text) =>
        files := files[path := text];
        ok := true;
    }

    /** A file that was added is removed only with the bytes that were written. */
    method UndoStep(step: Step) returns (ok: bool)
      requires Runnable(step)
      modifies this
      ensures step.Anchor? ==>
        ok == (step.path in old(files) && Rewrite(old(files)[step.path], step.after, step.before, step.every).Some?)
      ensures step.Create? ==> ok == (step.path in old(files) ==> old(files)[step.path] == step.text)
      ensures step.Overwrite? ==> ok && files == old(files)[step.path := step.saved]
      ensures !ok ==> files == old(files)
      ensures ok && step.Create? ==> files == old(files) - {step.path}
      ensures ok && step.Anchor? ==>
        files == old(files)[step.path :=
                   Rewrite(old(files)[step.path], step.after, step.before, step.every).value]
      ensures Performs(Undo(old(files), step), old(files), files, ok)
    {
      match step
      case Anchor(path, before, after, every) =>
        if every {
          ok := RestoreAll(path, after, before);
        } else {
          ok := RestoreAnchor(path, after, before);
        }
      case Create(path, text) =>
        ok := path in files ==> files[path] == text;
        if ok && path in files {
          files := files - {path};
        }
      case Overwrite(path, saved, _) =>
        files := files[path := saved];
        ok := true;
    }

    /** The overlay pass, interrupted by an unrelated error once `stop` steps are done. */
    method Prepare(steps: seq<Step>, stop: nat) returns (done: nat)
      requires stop <= |steps| && forall i | 0 <= i < |steps| :: Runnable(steps[i])
      modifies this
      ensures (files, done) == ApplyPass(old(files), steps, stop)
    {
      hide Apply;
      done := 0;
      while done < stop
        invariant done <= stop
        invariant var (end, more) := ApplyPass(files, steps[done..], stop - done);
          (end, done + more) == ApplyPass(old(files), steps, stop)
      {
        assert steps[done..][1..] == steps[done + 1..];
        var ok := ApplyStep(steps[done]);
        if !ok {
          return;
        }
        done := done + 1;
      }
    }

    method Restore(steps: seq<Step>, order: seq<nat>) returns (done: nat)
      requires forall i | 0 <= i < |steps| :: Runnable(steps[i])
      requires forall k | 0 <= k < |order| :: order[k] < |steps|
      modifies this
      ensures (files, done) == UndoPass(old(files), steps, order)
    {
      hide Undo;
      done := 0;
      while done < |order|
        invariant done <= |order|
        invariant var (end, more) := UndoPass(files, steps, order[done..]);
          (end, done + more) == UndoPass(old(files), steps, order)
      {
        assert order[done..][1..] == order[done + 1..];
        var ok := UndoStep(steps[order[done]]);
        if !ok {
          return;
        }
        done := done + 1;
      }
    }

    /** The build's `try`/`finally`. */
    method BuildAndRestore(steps: seq<Step>, stop: nat, order: seq<nat>)
      requires stop <= |steps| && forall i | 0 <= i < |steps| :: Runnable(steps[i])
      requires forall k | 0 <= k < |order| :: order[k] < |steps|
      modifies this
      ensures files == Build(old(files), steps, stop, order)
    {
      var _ := Prepare(steps, stop);
      var _ := Restore(steps, order);
    }
  }

  /** A step that raises leaves the tree alone; one that does not leaves its result. */
  predicate Performs(result: Option<Files>, before: Files, after: Files, ok: bool) {
    ok == result.Some? && after == if ok then result.value else before
  }
}
