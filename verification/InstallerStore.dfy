/** The backup object and the transactions around it, as procedures over one mutable file system. */
module InstallerStore {
  import opened Common
  import opened Installer
  import opened InstallerRuns
  import opened InstallerRollback

  /** What the external profile installer did: its result, and whether it failed. */
  datatype Run = Run(result: Files, failed: bool)

  class Transaction {
    var fs: Files
    var entries: seq<Entry>
    var seen: set<Path>

    constructor (fs: Files)
      ensures Valid() && View() == Log(fs, [])
    {
      this.fs, entries, seen := fs, [], {};
    }

    ghost predicate Valid()
      reads this
    {
      forall p :: p in seen <==> Seen(entries, p)
    }

    function View(): Log
      reads this
    {
      Log(fs, entries)
    }

    /** `_record_before` and `assume_created`: one entry per path, the first one wins. */
    method RecordBefore(p: Path, before: Files, guarded: bool)
      requires Valid()
      modifies `entries, `seen
      ensures Valid() && View() == Record(old(View()), p, before, guarded)
    {
      if p in seen { return; }
      ghost var was := entries;
      seen := seen + {p};
      entries := entries + [Entry(p, before, None, guarded)];
      forall q ensures q in seen <==> Seen(entries, q) {
        if Seen(was, q) { var e :| e in was && e.path == q; assert e in entries; }
        assert entries[|was|] in entries;
        if e :| e in entries && e.path == q {
          LastIn(entries, e);
          assert entries[..|was|] == was;
        }
      }
    }

    /** `replace_tree`, `replace_file`, `replace_link` in the user scope; `sub` is what a failure may leave. */
    method ReplaceUser(p: Path, sub: Files)
      requires Valid() && Under(p, sub)
      modifies this
      ensures Valid() && View() == Perform(old(View()), Replace(p, sub))
      ensures Subtree(fs, p) == sub && forall q | !(p <= q) :: Same(old(fs), fs, q)
      ensures old(entries) <= entries && Covered(entries, p)
    {
      SubtreePut(fs, p, sub);
      RecordCovers(View(), p, p);
      RecordBefore(p, Subtree(fs, p), false);
      PutTwice(fs, p, sub);
      fs := Put(fs, p, map[]);
      fs := Put(fs, p, sub);
    }

    /** A project-scope replacement through replace_anchored_entry, however it ends. */
    method ReplaceProject(p: Path, sub: Files, ending: Ending)
      requires Valid() && Under(p, Left(sub, ending))
      modifies this
      ensures Valid() && View() == Perform(old(View()), Guarded(p, sub, ending))
      ensures Subtree(fs, p) == (if ending.Completed? then sub else ending.rest)
      ensures (forall q | !(p <= q) :: Same(old(fs), fs, q)) && old(entries) <= entries
    {
      SubtreePut(fs, p, Left(sub, ending));
      ghost var was := entries;
      if !ending.Unrecorded? && p !in seen {
        RecordBefore(p, Subtree(fs, p), true);
        if !ending.TakenBack? {
          entries := entries[|entries| - 1 := entries[|entries| - 1].(after := Some(sub))];
          SeenAfterUpdate(was + [Entry(p, Subtree(fs, p), None, true)], |was|, Some(sub));
        }
      }
      fs := Put(fs, p, Left(sub, ending));
    }

    /** `restore_uncommitted`: the reversed loop; non-empty conflicts are the raised error. */
    method RestoreUncommitted() returns (conflicts: seq<Path>)
      requires Valid()
      modifies `fs
      ensures (fs, conflicts) == Restore(entries, old(fs))
    {
      conflicts := UndoAll(entries);
    }

    method UndoAll(log: seq<Entry>) returns (conflicts: seq<Path>)
      modifies `fs
      ensures (fs, conflicts) == Restore(log, old(fs))
    {
      conflicts := [];
      var n := |log|;
      assert log[..n] == log;
      assert conflicts + Restore(log, fs).1 == Restore(log, fs).1;
      while n > 0
        invariant 0 <= n <= |log|
        invariant
          var r := Restore(log[..n], fs);
          Restore(log, old(fs)) == (r.0, conflicts + r.1)
      {
        var e := log[n - 1];
        assert log[..n][..n - 1] == log[..n - 1];
        ghost var r := Restore(log[..n - 1], if Conflicts(e, fs) then fs else Put(fs, e.path, e.before));
        assert conflicts + ([e.path] + r.1) == conflicts + [e.path] + r.1;
        n := n - 1;
        if e.guarded && e.after.Some? && Subtree(fs, e.path) != e.after.value {
          conflicts := conflicts + [e.path];
        } else {
          PutTwice(fs, e.path, e.before);
          fs := Put(fs, e.path, map[]);
          fs := Put(fs, e.path, e.before);
        }
      }
      assert log[..0] == [] && conflicts + [] == conflicts;
    }

    method FinishBackup()
      requires Valid()
      modifies `entries
      ensures Valid() && entries == Finish(old(entries), fs)
    {
      ghost var was := entries;
      var n := 0;
      while n < |entries|
        invariant 0 <= n <= |entries| == |was|
        invariant forall i | 0 <= i < n :: entries[i] == Finish(was, fs)[i]
        invariant forall i | n <= i < |was| :: entries[i] == was[i]
      {
        if entries[n].after.None? {
          entries := entries[n := entries[n].(after := Some(Subtree(fs, entries[n].path)))];
        }
        n := n + 1;
      }
      SeenAfterFinish(was, fs);
    }

    /** A rollback by id of a committed log. */
    method RollbackById(log: seq<Entry>) returns (code: int, preserved: seq<Path>)
      modifies `fs
      ensures (code, fs, preserved) == Rollback(log, old(fs))
    {
      preserved := UndoAll(Guard(log));
      code := if preserved == [] then 0 else 1;
    }

    /** Record every path the external installer may touch. */
    method Snapshots(paths: seq<Path>, ghost fs0: Files)
      requires Valid() && Plain(entries) && Restores(fs0)
      modifies `entries, `seen
      ensures Valid() && Plain(entries) && Restores(fs0)
      ensures forall q :: Covered(entries, q) <==> Covered(old(entries), q) || IsCreated(paths, q)
    {
      var n := 0;
      while n < |paths|
        invariant 0 <= n <= |paths|
        invariant Valid() && Plain(entries) && Restores(fs0)
        invariant forall q :: Covered(entries, q) <==> Covered(old(entries), q) || IsCreated(paths[..n], q)
      {
        ghost var l := View();
        RecordRestores(l, paths[n]);
        RecordBefore(paths[n], Subtree(fs, paths[n]), false);
        forall q ensures Covered(entries, q) <==> Covered(old(entries), q) || IsCreated(paths[..n + 1], q) {
          RecordCovers(l, paths[n], q);
          CreatedSnoc(paths, n, q);
        }
        n := n + 1;
      }
      assert paths[..|paths|] == paths;
    }

    /** The external installer runs, and the paths it created are recorded as formerly missing. */
    method RunExternal(found: seq<Path>, result: Files)
      requires Valid()
      modifies this
      ensures Valid() && View() == Perform(old(View()), External(found, result))
    {
      ghost var l := View();
      fs := result;
      var n := 0;
      while n < |found|
        invariant 0 <= n <= |found|
        invariant Valid() && View() == AssumeAll(l, found[..n]).(fs := result)
      {
        assert found[..n + 1][..n] == found[..n];
        RecordBefore(found[n], map[], false);
        n := n + 1;
      }
      assert found[..|found|] == found;
    }

    /** The inner handler restores and finishes the backup, and the outer handler does both again. */
    method FailTwice()
      requires Valid() && Tracks(View())
      modifies this
      ensures Valid() && fs == Restore(old(entries), old(fs)).0
    {
      ghost var was := View();
      var conflicts := RestoreUncommitted();
      FinishBackup();
      RestoreAgain(was, entries);
      conflicts := RestoreUncommitted();
      FinishBackup();
    }

    ghost predicate Restores(fs0: Files)
      reads this
    {
      WellFormed(entries) && Restore(entries, fs).0 == fs0
    }

    /**
     `install_gsd_with_rollback` under the outer handler, with nothing assumed about what the external
     installer did or which paths are discovered afterwards.  A failed run ends with the original file
     system if and only if every file beneath a discovered path was recorded or absent, and the run
     changed nothing beyond recorded, snapshot and discovered paths.
     */
    method InstallProfiles(snapshots: seq<Path>, run: Run, found: seq<Path>, ghost fs0: Files)
      requires Valid() && Plain(entries) && Restores(fs0)
      modifies this
      ensures Valid()
      ensures !run.failed ==> fs == run.result
      ensures
        (if run.failed then fs == fs0 else Restores(fs0)) <==>
          forall q ::
            || Covered(old(entries), q) || IsCreated(snapshots, q)
            || (if IsCreated(found, q) then q !in old(fs) else Same(old(fs), run.result, q))
    {
      Snapshots(snapshots, fs0);
      ghost var l := View();
      ExternalExactly(fs0, l, found, run.result);
      PlainCovers(entries);
      RunExternal(found, run.result);
      ExternalTracks(l, found, run.result);
      assert forall q :: Covered(l.entries, q) <==> Covered(old(entries), q) || IsCreated(snapshots, q);
      if run.failed { FailTwice(); }
    }
  }

  /** Removing a path and copying onto it is one replacement. */
  lemma PutTwice(fs: Files, p: Path, sub: Files)
    ensures Put(Put(fs, p, map[]), p, sub) == Put(fs, p, sub)
  {
  }

  lemma SeenAfterFinish(entries: seq<Entry>, fs: Files)
    ensures forall p :: Seen(Finish(entries, fs), p) <==> Seen(entries, p)
  {
  }

  lemma SeenAfterUpdate(entries: seq<Entry>, k: nat, after: Option<Files>)
    requires k < |entries|
    ensures forall p :: Seen(entries[k := entries[k].(after := after)], p) <==> Seen(entries, p)
  {
    var r := entries[k := entries[k].(after := after)];
    forall i | 0 <= i < |r| ensures r[i] in r && entries[i] in entries && r[i].path == entries[i].path {}
    forall p ensures Seen(r, p) <==> Seen(entries, p) {
      if e :| e in entries && e.path == p {
        var i :| 0 <= i < |r| && entries[i] == e;
        assert r[i] in r;
      }
      if e :| e in r && e.path == p {
        var i :| 0 <= i < |r| && r[i] == e;
        assert entries[i] in entries;
      }
    }
  }

  lemma PlainCovers(entries: seq<Entry>)
    requires Plain(entries)
    ensures forall q :: PlainCovered(entries, q) <==> Covered(entries, q)
  {
    forall q ensures PlainCovered(entries, q) <==> Covered(entries, q) {
      if e :| e in entries && e.path <= q { assert !e.guarded; }
    }
  }

  /** A snapshot changes nothing a restore gives. */
  lemma RecordRestores(l: Log, p: Path)
    requires Plain(l.entries) && WellFormed(l.entries)
    ensures
      var r := Record(l, p, Subtree(l.fs, p), false);
      Plain(r.entries) && WellFormed(r.entries) && Restore(r.entries, r.fs).0 == Restore(l.entries, l.fs).0
  {
    var r := Record(l, p, Subtree(l.fs, p), false);
    if r != l {
      PutSubtree(l.fs, p);
      assert r.entries[..|l.entries|] == l.entries;
    }
  }

  lemma RecordCovers(l: Log, p: Path, q: Path)
    ensures Covered(Record(l, p, Subtree(l.fs, p), false).entries, q) <==> Covered(l.entries, q) || p <= q
  {
    var r := Record(l, p, Subtree(l.fs, p), false);
    if r == l {
      var e :| e in l.entries && e.path == p;
    } else {
      CoveredSnoc(r.entries, q);
      assert r.entries[..|l.entries|] == l.entries;
    }
  }

  lemma CreatedSnoc(paths: seq<Path>, n: nat, q: Path)
    requires n < |paths|
    ensures IsCreated(paths[..n + 1], q) <==> IsCreated(paths[..n], q) || paths[n] <= q
  {
    assert paths[..n + 1] == paths[..n] + [paths[n]];
    if IsCreated(paths[..n + 1], q) { var c :| c in paths[..n + 1] && c <= q; LastIn(paths[..n + 1], c); }
    assert paths[n] in paths[..n + 1];
    if c :| c in paths[..n] && c <= q { assert c in paths[..n + 1]; }
  }
}
