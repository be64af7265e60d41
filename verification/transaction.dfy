/** Changing a set of files all or nothing: the rollback guard around written inputs, and the
    one-time move of inputs to their own directory that relies on it. */
module Transactions {
  import opened Wrappers
  import opened Collections

  /** The components of a path. */
  type Path = seq<string>

  type Files = map<Path, string>

  function At(files: Files, path: Path): Option<string> {
    if path in files then Some(files[path]) else None
  }

  function Put(files: Files, path: Path, content: Option<string>): Files {
    match content
    case Some(text) => files[path := text]
    case None => files - {path}
  }

  lemma SameFiles(a: Files, b: Files)
    requires forall p :: At(a, p) == At(b, p)
    ensures a == b
  {
    assert forall p :: (p in a <==> p in b) by {
      forall p ensures p in a <==> p in b {
        assert At(a, p) == At(b, p);
      }
    }
    forall p | p in a ensures a[p] == b[p] {
      assert At(a, p) == At(b, p);
    }
  }

  datatype Removal = Removed | Missing | Refused

  /** The file system. Any call may fail, and a call that fails changes nothing. */
  class Disk {
    var files: Files

    constructor (files: Files)
      ensures this.files == files
    {
      this.files := files;
    }

    method Read(path: Path) returns (r: Result<Option<string>, ()>)
      ensures r.Success? ==> r.value == At(files, path)
    {
      var fails := *;
      return if fails then Failure(()) else Success(At(files, path));
    }

    method Write(path: Path, content: string) returns (ok: bool)
      modifies this
      ensures files == if ok then old(files)[path := content] else old(files)
    {
      ok := *;
      if ok {
        files := files[path := content];
      }
    }

    method Remove(path: Path) returns (r: Removal)
      modifies this
      ensures files == if r.Removed? then old(files) - {path} else old(files)
      ensures r.Removed? ==> path in old(files)
      ensures r.Missing? ==> path !in old(files)
    {
      var fails := *;
      if fails {
        return Refused;
      }
      if path !in files {
        return Missing;
      }
      files := files - {path};
      return Removed;
    }
  }

  type Backup = (Path, Option<string>)

  /** Putting back what was saved, the last saved first. */
  function Reverted(files: Files, saved: seq<Backup>): Files
    decreases |saved|
  {
    if saved == [] then files else
      var last := saved[|saved| - 1];
      Reverted(Put(files, last.0, last.1), saved[..|saved| - 1])
  }

  ghost predicate Saves(saved: seq<Backup>, path: Path) {
    exists i | 0 <= i < |saved| :: saved[i].0 == path
  }

  lemma SavesMore(saved: seq<Backup>, next: Backup, path: Path)
    requires Saves(saved, path) || path == next.0
    ensures Saves(saved + [next], path)
  {
    if path == next.0 {
      assert (saved + [next])[|saved|].0 == path;
    } else {
      var j :| 0 <= j < |saved| && saved[j].0 == path;
      assert (saved + [next])[j].0 == path;
    }
  }

  /** What was saved is what the files held, and nothing else has changed since. */
  ghost predicate Guards(files: Files, saved: seq<Backup>, original: Files) {
    && (forall i | 0 <= i < |saved| :: saved[i].1 == At(original, saved[i].0))
    && (forall p | !Saves(saved, p) :: At(files, p) == At(original, p))
  }

  /** Putting everything back gives the original files, whatever happened to the saved ones. */
  lemma {:induction false} RevertedIsOriginal(files: Files, saved: seq<Backup>, original: Files)
    requires Guards(files, saved, original)
    ensures Reverted(files, saved) == original
    decreases |saved|
  {
    if saved == [] {
      SameFiles(files, original);
    } else {
      var front, last := saved[..|saved| - 1], saved[|saved| - 1];
      var next := Put(files, last.0, last.1);
      PutBackGuards(files, saved, original);
      RevertedIsOriginal(next, front, original);
    }
  }

  /** One step of putting back: the rest of the saved files still guard the original. */
  lemma PutBackGuards(files: Files, saved: seq<Backup>, original: Files)
    requires saved != [] && Guards(files, saved, original)
    ensures Guards(Put(files, saved[|saved| - 1].0, saved[|saved| - 1].1), saved[..|saved| - 1], original)
  {
    var front, last := saved[..|saved| - 1], saved[|saved| - 1];
    forall i | 0 <= i < |front| ensures front[i].1 == At(original, front[i].0) {
      assert saved[i] == front[i];
    }
    forall p | !Saves(front, p) ensures At(Put(files, last.0, last.1), p) == At(original, p) {
      if p != last.0 {
        assert !Saves(saved, p);
      }
    }
  }

  /** Each file holds what it held, or what was saved of it. */
  ghost predicate PartlyReverted(now: Files, was: Files, saved: seq<Backup>) {
    forall p :: At(now, p) == At(was, p) || exists i | 0 <= i < |saved| :: saved[i] == (p, At(now, p))
  }

  lemma PartlyRevertedBetween(now: Files, was: Files, saved: seq<Backup>, original: Files,
                              files: Files, removals: seq<Path>)
    requires Guards(was, saved, original) && PartlyReverted(now, was, saved)
    requires Between(was, original, files, removals)
    ensures Between(now, original, files, removals)
  {
  }

  lemma PutAt(files: Files, saved: seq<Backup>, original: Files, i: nat)
    requires i < |saved| && Guards(files, saved, original)
    ensures Guards(Put(files, saved[i].0, saved[i].1), saved, original)
  {
    forall p | !Saves(saved, p) ensures At(Put(files, saved[i].0, saved[i].1), p) == At(original, p) {
      assert p != saved[i].0;
    }
  }

  lemma GuardsFromNothing(files: Files)
    ensures Guards(files, [], files)
  {
  }

  lemma ChangeGuards(files: Files, saved: seq<Backup>, original: Files, path: Path, content: Option<string>)
    requires Guards(files, saved, original) && Saves(saved, path)
    ensures Guards(Put(files, path, content), saved, original)
  {
  }

  /** Each file holds what it held or what was to become of it. */
  ghost predicate Between(now: Files, was: Files, files: Files, removals: seq<Path>) {
    forall p ::
      || At(now, p) == At(was, p)
      || (p in files && At(now, p) == Some(files[p]))
      || (p in removals && At(now, p) == None)
  }

  /** What a path holds once the files are written and the removals done. */
  function Applied(was: Files, files: Files, removals: seq<Path>, p: Path): Option<string> {
    if p in removals then None else if p in files then Some(files[p]) else At(was, p)
  }

  class FileTransaction {
    const disk: Disk
    var previous: seq<Backup>
    var committed: bool

    ghost predicate Guarding(original: Files)
      reads this, disk
    {
      Guards(disk.files, previous, original)
    }

    constructor Begin(disk: Disk)
      ensures this.disk == disk && previous == [] && !committed
    {
      this.disk := disk;
      previous, committed := [], false;
    }

    method Commit()
      modifies this
      ensures committed && previous == old(previous)
    {
      committed := true;
    }

    /** Put the saved files back, last first; the first failure stops it, uncommitted, with
        everything still saved. */
    method Rollback() returns (ok: bool)
      modifies this`committed, disk
      ensures ok ==> disk.files == Reverted(old(disk.files), previous) && committed
      ensures !ok ==> committed == old(committed)
      ensures forall original: Files | old(Guarding(original)) ::
                Guarding(original) && (ok ==> disk.files == original)
      ensures PartlyReverted(disk.files, old(disk.files), previous)
    {
      ghost var was := disk.files;
      var i := |previous|;
      assert previous[..i] == previous;
      while i > 0
        invariant 0 <= i <= |previous|
        invariant committed == old(committed)
        invariant Reverted(disk.files, previous[..i]) == Reverted(was, previous)
        invariant forall original: Files | Guards(was, previous, original) :: Guards(disk.files, previous, original)
        invariant PartlyReverted(disk.files, was, previous)
      {
        var saved := previous[i - 1];
        ghost var before := disk.files;
        if saved.1.Some? {
          var done := disk.Write(saved.0, saved.1.value);
          if !done {
            return false;
          }
        } else {
          var done := disk.Remove(saved.0);
          if done.Refused? {
            return false;
          }
          if done.Missing? {
            SameFiles(before, Put(before, saved.0, None));
          }
        }
        assert disk.files == Put(before, saved.0, saved.1);
        assert previous[..i][..i - 1] == previous[..i - 1];
        forall original: Files | Guards(was, previous, original) ensures Guards(disk.files, previous, original) {
          PutAt(before, previous, original, i - 1);
        }
        i := i - 1;
        assert previous[i] == (saved.0, At(disk.files, saved.0));
      }
      committed := true;
      forall original: Files | Guards(was, previous, original) ensures disk.files == original {
        RevertedIsOriginal(was, previous, original);
      }
      return true;
    }

    /** Leaving scope: what was not committed is put back. */
    method Drop() returns (ok: bool)
      modifies this`committed, disk
      ensures old(committed) ==> ok && disk.files == old(disk.files)
      ensures !old(committed) && ok ==> disk.files == Reverted(old(disk.files), previous)
      ensures forall original: Files | !old(committed) && old(Guarding(original)) ::
                Guarding(original) && (ok ==> disk.files == original)
      ensures PartlyReverted(disk.files, old(disk.files), previous)
    {
      ok := true;
      if !committed {
        ok := Rollback();
      }
    }

    /** Save what every path holds, before anything is written. */
    method Preflight(paths: seq<Path>) returns (ok: bool)
      modifies this`previous
      ensures forall i | 0 <= i < |previous| ::
                (i < |old(previous)| && previous[i] == old(previous)[i])
                || (previous[i].0 in paths && previous[i].1 == At(disk.files, previous[i].0))
      ensures |old(previous)| <= |previous|
      ensures ok ==> forall p | p in paths :: Saves(previous, p)
    {
      ghost var start := |previous|;
      var i := 0;
      while i < |paths|
        invariant 0 <= i <= |paths| && start <= |previous|
        invariant forall k | 0 <= k < |previous| ::
                    (k < start && previous[k] == old(previous)[k])
                    || (previous[k].0 in paths && previous[k].1 == At(disk.files, previous[k].0))
        invariant forall k | 0 <= k < i :: Saves(previous, paths[k])
      {
        var content := disk.Read(paths[i]);
        if content.Failure? {
          return false;
        }
        ghost var before := previous;
        previous := previous + [(paths[i], content.value)];
        forall k | 0 <= k <= i ensures Saves(previous, paths[k]) {
          SavesMore(before, (paths[i], content.value), paths[k]);
        }
        i := i + 1;
      }
      return true;
    }

    method WriteAll(files: Files, order: seq<Path>, ghost original: Files) returns (ok: bool)
      requires Lists(order, files.Keys)
      requires Guarding(original) && forall p | p in files :: Saves(previous, p)
      modifies disk
      ensures Guarding(original)
      ensures forall p ::
                At(disk.files, p) == old(At(disk.files, p)) || (p in files && At(disk.files, p) == Some(files[p]))
      ensures ok ==> forall p :: At(disk.files, p) == if p in files then Some(files[p]) else old(At(disk.files, p))
    {
      var i := 0;
      while i < |order|
        invariant 0 <= i <= |order|
        invariant Guarding(original)
        invariant forall p :: At(disk.files, p) == if p in order[..i] then Some(files[p]) else old(At(disk.files, p))
      {
        assert order[i] in order;
        ghost var before := disk.files;
        ok := disk.Write(order[i], files[order[i]]);
        if !ok {
          return;
        }
        ChangeGuards(before, previous, original, order[i], Some(files[order[i]]));
        assert order[..i + 1] == order[..i] + [order[i]];
        i := i + 1;
      }
      assert order[..i] == order;
      return true;
    }

    method RemoveAll(removals: seq<Path>, ghost original: Files) returns (ok: bool)
      requires Guarding(original) && forall p | p in removals :: Saves(previous, p)
      modifies disk
      ensures Guarding(original)
      ensures forall p :: At(disk.files, p) == old(At(disk.files, p)) || (p in removals && At(disk.files, p) == None)
      ensures ok ==> forall p :: At(disk.files, p) == if p in removals then None else old(At(disk.files, p))
    {
      var i := 0;
      while i < |removals|
        invariant 0 <= i <= |removals|
        invariant Guarding(original)
        invariant forall p :: At(disk.files, p) == if p in removals[..i] then None else old(At(disk.files, p))
      {
        ghost var before := disk.files;
        var done := disk.Remove(removals[i]);
        if !done.Removed? {
          return false;
        }
        ChangeGuards(before, previous, original, removals[i], None);
        assert removals[..i + 1] == removals[..i] + [removals[i]];
        i := i + 1;
      }
      assert removals[..i] == removals;
      return true;
    }

    /** Save, check, write and remove; everything changed is saved, however far this gets. */
    method Attempt(files: Files, removals: seq<Path>, settings: Path, accepts: string -> bool) returns (ok: bool)
      requires previous == [] && !committed
      modifies this`previous, disk
      ensures Guarding(old(disk.files))
      ensures Between(disk.files, old(disk.files), files, removals)
      ensures ok ==> settings in files ==> accepts(files[settings])
      ensures ok ==> forall p :: At(disk.files, p) == Applied(old(disk.files), files, removals, p)
    {
      ghost var original := disk.files;
      var order := Listed(files.Keys);
      ok := Preflight(order + removals);
      assert Guarding(original);
      if !ok || (settings in files && !accepts(files[settings])) {
        return false;
      }
      assert forall p | p in files :: p in order;
      ok := WriteAll(files, order, original);
      if ok {
        ok := RemoveAll(removals, original);
      }
    }
  }

  /** Write the files, then do the removals.  Every path is read before the first change, and
      the settings file among them must be acceptable.  On failure the transaction is dropped
      here; `restored` says whether that put everything back. */
  method Apply(disk: Disk, files: Files, removals: seq<Path>, settings: Path, accepts: string -> bool)
    returns (result: Result<FileTransaction, ()>, ghost restored: bool)
    modifies disk
    ensures result.Success? ==>
      && fresh(result.value) && result.value.disk == disk && !result.value.committed
      && result.value.Guarding(old(disk.files))
      && (settings in files ==> accepts(files[settings]))
      && forall p :: At(disk.files, p) == Applied(old(disk.files), files, removals, p)
    ensures result.Failure? && restored ==> disk.files == old(disk.files)
    ensures Between(disk.files, old(disk.files), files, removals)
  {
    hide Guards, PartlyReverted, Between, Reverted;
    ghost var original := disk.files;
    var transaction := new FileTransaction.Begin(disk);
    GuardsFromNothing(original);
    var ok := transaction.Attempt(files, removals, settings, accepts);
    if ok {
      return Success(transaction), true;
    }
    ghost var attempted := disk.files;
    restored := transaction.Drop();
    PartlyRevertedBetween(disk.files, attempted, transaction.previous, original, files, removals);
    result := Failure(());
  }

  datatype Saving = Saved | RestoredConflict | Failed

  /** Apply new settings, have nginx test them, and reload it when it runs.  A rejected test or
      reload is reported as restored only when everything was put back; a failed attempt at
      that is made once more on leaving. `None` is a command that could not be run. */
  method SaveSettings(disk: Disk, files: Files, settings: Path, accepts: string -> bool,
                      test: Option<bool>, running: bool, reload: Option<bool>)
    returns (outcome: Saving, ghost restored: bool)
    modifies disk
    ensures outcome.Saved? ==>
      && test == Some(true) && (running ==> reload == Some(true))
      && forall p :: At(disk.files, p) == Applied(old(disk.files), files, [], p)
    ensures outcome.RestoredConflict? ==> disk.files == old(disk.files)
    ensures outcome.Failed? && restored ==> disk.files == old(disk.files)
  {
    hide Guards, PartlyReverted, Between, Reverted;
    ghost var original := disk.files;
    var applied;
    applied, restored := Apply(disk, files, [], settings, accepts);
    if applied.Failure? {
      return Failed, restored;
    }
    var transaction := applied.value;
    outcome := Failed;
    if test == Some(false) || (test == Some(true) && running && reload == Some(false)) {
      var ok := transaction.Rollback();
      if ok {
        outcome := RestoredConflict;
      }
    } else if test == Some(true) && (running ==> reload == Some(true)) {
      transaction.Commit();
      outcome := Saved;
    }
    restored := transaction.Drop();
  }
}
