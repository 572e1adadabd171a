/**
 Committed backups: finishing the log of a transaction, and rolling it back later by its id.  Rollback
 checks every entry against its "after", so unlike the undo of a failed transaction it can refuse.
 */
module InstallerRollback {
  import opened Common
  import opened Installer
  import opened InstallerRuns

  /** Every entry without an "after" gets the present content of its path. */
  function Finish(entries: seq<Entry>, fs: Files): (r: seq<Entry>)
    ensures |r| == |entries|
    ensures forall i | 0 <= i < |r| ::
      && r[i].path == entries[i].path && r[i].before == entries[i].before && r[i].guarded == entries[i].guarded
      && r[i].after == (if entries[i].after.Some? then entries[i].after else Some(Subtree(fs, entries[i].path)))
  {
    seq(|entries|, i requires 0 <= i < |entries| =>
      if entries[i].after.Some? then entries[i] else entries[i].(after := Some(Subtree(fs, entries[i].path))))
  }

  /** Rollback checks every entry against its "after", whatever scope it was written in. */
  function Guard(entries: seq<Entry>): (r: seq<Entry>)
    ensures |r| == |entries|
    ensures forall i | 0 <= i < |r| :: r[i] == entries[i].(guarded := true)
  {
    seq(|entries|, i requires 0 <= i < |entries| => entries[i].(guarded := true))
  }

  /** The exit code, the file system and the preserved paths of a rollback by id. */
  function Rollback(entries: seq<Entry>, fs: Files): (int, Files, seq<Path>) {
    var r := Restore(Guard(entries), fs);
    (if r.1 == [] then 0 else 1, r.0, r.1)
  }

  predicate Disjoint(entries: seq<Entry>) {
    forall x, y | 0 <= x < y < |entries| :: Apart(entries[x].path, entries[y].path)
  }

  /** Some recorded path no longer holds its "after". */
  predicate Changed(entries: seq<Entry>, fs: Files) {
    exists e | e in entries :: e.after != Some(Subtree(fs, e.path))
  }

  lemma GuardKeeps(entries: seq<Entry>)
    requires WellFormed(entries)
    ensures WellFormed(Guard(entries)) && (Disjoint(entries) ==> Separated(Guard(entries)))
  {
    var g := Guard(entries);
    forall x | x in g ensures Under(x.path, x.before) {
      var k :| 0 <= k < |g| && g[k] == x;
      assert entries[k] in entries;
    }
  }

  lemma GuardCovers(entries: seq<Entry>, q: Path)
    ensures Covered(Guard(entries), q) ==> Covered(entries, q)
  {
    var g := Guard(entries);
    if x :| x in g && x.path <= q {
      var k :| 0 <= k < |g| && g[k] == x;
      assert entries[k] in entries;
    }
  }

  lemma GuardConflicts(entries: seq<Entry>, fs: Files)
    requires forall e | e in entries :: e.after.Some?
    ensures Changed(entries, fs) <==> exists e | e in Guard(entries) :: Conflicts(e, fs)
  {
    var g := Guard(entries);
    if e :| e in entries && e.after != Some(Subtree(fs, e.path)) {
      var k :| 0 <= k < |g| && entries[k] == e;
      assert g[k] in g && Conflicts(g[k], fs);
    }
    if x :| x in g && Conflicts(x, fs) {
      var k :| 0 <= k < |g| && g[k] == x;
      assert entries[k] in entries;
    }
  }

  /**
   Rollback by id.  A recorded path that stands alone is left as it is when it changed since, and
   reported; otherwise it gets its "before" back.  Nothing unrecorded changes.  With pairwise non-nested
   paths the exit code is 0 exactly when no recorded path had changed.
   */
  lemma RollbackExactly(entries: seq<Entry>, fs: Files)
    requires WellFormed(entries) && forall e | e in entries :: e.after.Some?
    ensures
      var (code, fs', preserved) := Rollback(entries, fs);
      && (forall k | 0 <= k < |entries| && Alone(entries, k) ::
            var e := entries[k];
            var changed := Subtree(fs, e.path) != e.after.value;
            && Subtree(fs', e.path) == (if changed then Subtree(fs, e.path) else e.before)
            && (e.path in preserved <==> changed))
      && AgreeOutside(entries, fs, fs')
      && (Disjoint(entries) ==> (code == 0 <==> !Changed(entries, fs)))
  {
    var g := Guard(entries);
    GuardKeeps(entries);
    var (code, fs', preserved) := Rollback(entries, fs);
    forall k | 0 <= k < |entries| && Alone(entries, k)
      ensures
        var e := entries[k];
        var changed := Subtree(fs, e.path) != e.after.value;
        && Subtree(fs', e.path) == (if changed then Subtree(fs, e.path) else e.before)
        && (e.path in preserved <==> changed)
    {
      assert entries[k] in entries;
      RestoreEachPath(g, fs, k);
    }
    RestoreStaysCovered(g, fs);
    forall q ensures Covered(entries, q) || Same(fs, fs', q) {
      GuardCovers(entries, q);
      assert Covered(g, q) || Same(fs, fs', q);
    }
    GuardConflicts(entries, fs);
    if Disjoint(entries) { ConflictsExactly(g, fs); }
  }

  // ---------------------------------------------------------------- rollback of nested entries

  /** Every "after" is what one and the same file system held: the one at the commit. */
  predicate Snapshot(entries: seq<Entry>, at: Files) {
    forall e | e in entries :: e.after == Some(Subtree(at, e.path))
  }

  /** Putting `e` back in the file system of the commit leaves what is at and beneath `p` as it is. */
  predicate Spares(at: Files, e: Entry, p: Path) {
    Subtree(Put(at, e.path, e.before), p) == Subtree(at, p)
  }

  /** Putting any entry back spares every older recorded path. */
  predicate Unwinds(entries: seq<Entry>, at: Files) {
    forall k, j | 0 <= k < j < |entries| :: Spares(at, entries[j], entries[k].path)
  }

  predicate AllGuarded(entries: seq<Entry>) { forall e | e in entries :: e.guarded }

  lemma SubtreeAt(fs: Files, fs': Files, p: Path, q: Path)
    requires Subtree(fs, p) == Subtree(fs', p) && p <= q
    ensures Look(fs, q) == Look(fs', q)
  {
    assert q in Subtree(fs, p) <==> q in fs;
    assert q in Subtree(fs', p) <==> q in fs';
  }

  /** Once a path under a recorded one differs from the commit, no rollback gets past that entry. */
  lemma {:induction false} DifferencePersists(entries: seq<Entry>, at: Files, fs: Files, k: nat, q: Path)
    requires WellFormed(entries) && AllGuarded(entries) && Snapshot(entries, at)
    requires k < |entries| && entries[k].path <= q && Look(fs, q) != Look(at, q)
    ensures Restore(entries, fs).1 != []
    decreases |entries|
  {
    var n := |entries| - 1;
    var e, rest := entries[n], entries[..n];
    assert e in entries;
    if !Conflicts(e, fs) {
      if e.path <= q { SubtreeAt(fs, at, e.path, q); }
      forall x | x in rest ensures x in entries { LastIn(entries, x); }
      assert !(e.path <= q) && k < n;
      DifferencePersists(rest, at, Undo(e, fs), k, q);
    }
  }

  lemma PutTransfers(at: Files, fs: Files, e: Entry, p: Path)
    requires Subtree(fs, p) == Subtree(at, p)
    ensures Subtree(Put(fs, e.path, e.before), p) == Subtree(at, p) <==> Spares(at, e, p)
  {
    var a, b := Put(fs, e.path, e.before), Put(at, e.path, e.before);
    forall q | p <= q ensures Same(a, b, q) {
      SubtreeAt(fs, at, p, q);
      LookSame(fs, at, q);
    }
    SubtreeSame(a, b, p);
  }

  lemma DiffersSomewhere(fs: Files, fs': Files, p: Path) returns (q: Path)
    requires Subtree(fs, p) != Subtree(fs', p)
    ensures p <= q && Look(fs, q) != Look(fs', q)
  {
    if forall q | p <= q :: Look(fs, q) == Look(fs', q) {
      forall q | p <= q ensures Same(fs, fs', q) { LookSame(fs, fs', q); }
      SubtreeSame(fs, fs', p);
    }
    q :| p <= q && Look(fs, q) != Look(fs', q);
  }

  predicate SparesAll(at: Files, e: Entry, rest: seq<Entry>) { forall x | x in rest :: Spares(at, e, x.path) }

  lemma UnwindsSnoc(entries: seq<Entry>, at: Files)
    requires entries != []
    ensures
      var n := |entries| - 1;
      Unwinds(entries, at) <==> Unwinds(entries[..n], at) && SparesAll(at, entries[n], entries[..n])
  {
    var n := |entries| - 1;
    var rest := entries[..n];
    if Unwinds(entries, at) {
      forall x | x in rest ensures Spares(at, entries[n], x.path) {
        var k :| 0 <= k < n && rest[k] == x;
        assert entries[k] == x;
      }
    }
    if Unwinds(rest, at) && SparesAll(at, entries[n], rest) {
      forall k, j | 0 <= k < j < |entries| ensures Spares(at, entries[j], entries[k].path) {
        if j == n { assert rest[k] in rest; } else { assert rest[k] == entries[k] && rest[j] == entries[j]; }
      }
    }
  }

  predicate AsAt(entries: seq<Entry>, at: Files, fs: Files) {
    forall e | e in entries :: Subtree(fs, e.path) == Subtree(at, e.path)
  }

  lemma PutKeepsAsAt(rest: seq<Entry>, e: Entry, at: Files, fs: Files)
    requires AsAt(rest, at, fs)
    ensures AsAt(rest, at, Put(fs, e.path, e.before)) <==> SparesAll(at, e, rest)
  {
    forall x | x in rest
      ensures Subtree(Put(fs, e.path, e.before), x.path) == Subtree(at, x.path) <==> Spares(at, e, x.path)
    {
      PutTransfers(at, fs, e, x.path);
    }
  }

  lemma {:induction false} DifferentRefuses(entries: seq<Entry>, at: Files, fs: Files)
    requires WellFormed(entries) && AllGuarded(entries) && Snapshot(entries, at) && !AsAt(entries, at, fs)
    ensures Restore(entries, fs).1 != []
  {
    var e :| e in entries && Subtree(fs, e.path) != Subtree(at, e.path);
    var k :| 0 <= k < |entries| && entries[k] == e;
    var q := DiffersSomewhere(fs, at, e.path);
    DifferencePersists(entries, at, fs, k, q);
  }

  lemma {:induction false} UnwindsExactly(entries: seq<Entry>, at: Files, fs: Files)
    requires WellFormed(entries) && AllGuarded(entries) && Snapshot(entries, at) && AsAt(entries, at, fs)
    ensures Restore(entries, fs).1 == [] <==> Unwinds(entries, at)
    decreases |entries|
  {
    if entries != [] {
      var n := |entries| - 1;
      var e, rest := entries[n], entries[..n];
      assert e in entries && !Conflicts(e, fs);
      forall x | x in rest ensures x in entries { LastIn(entries, x); }
      UnwindsSnoc(entries, at);
      PutKeepsAsAt(rest, e, at, fs);
      var fs' := Put(fs, e.path, e.before);
      assert Restore(entries, fs).1 == Restore(rest, fs').1;
      if AsAt(rest, at, fs') { UnwindsExactly(rest, at, fs'); } else { DifferentRefuses(rest, at, fs'); }
    }
  }

  lemma GuardedUnwinds(entries: seq<Entry>, at: Files)
    requires WellFormed(entries) && Snapshot(entries, at)
    ensures WellFormed(Guard(entries)) && Snapshot(Guard(entries), at) && AllGuarded(Guard(entries))
    ensures Unwinds(Guard(entries), at) <==> Unwinds(entries, at)
  {
    var g := Guard(entries);
    forall k | 0 <= k < |g| ensures entries[k] in entries {}
    forall k, j | 0 <= k < j < |g|
      ensures Spares(at, g[j], g[k].path) <==> Spares(at, entries[j], entries[k].path)
    {
    }
  }

  lemma GuardedChanged(entries: seq<Entry>, at: Files, fs: Files)
    requires Snapshot(entries, at)
    ensures Changed(entries, fs) <==> !AsAt(Guard(entries), at, fs)
  {
    var g := Guard(entries);
    forall k | 0 <= k < |g| ensures entries[k] in entries && g[k] in g {}
    if e :| e in entries && e.after != Some(Subtree(fs, e.path)) {
      var k :| 0 <= k < |g| && entries[k] == e;
      assert Subtree(fs, g[k].path) != Subtree(at, g[k].path);
    }
  }

  /**
   Main result on nesting.  Whatever the nesting of a committed log, rollback by id exits with 0 if and
   only if no recorded path changed since the commit, and putting any entry back leaves every older
   recorded path as it was -- which can be looked up before the call.
   */
  lemma NestedRollbackExactly(entries: seq<Entry>, at: Files, fs: Files)
    requires WellFormed(entries) && Snapshot(entries, at)
    ensures Rollback(entries, fs).0 == 0 <==> !Changed(entries, fs) && Unwinds(entries, at)
  {
    var g := Guard(entries);
    GuardedUnwinds(entries, at);
    GuardedChanged(entries, at, fs);
    if AsAt(g, at, fs) { UnwindsExactly(g, at, fs); } else { DifferentRefuses(g, at, fs); }
  }

  /**
   The nesting an installation really produces: a file of the old manifest is recorded first, then the
   directory over it as newly created.  Untouched, such a log never rolls back.
   */
  lemma CreatedOverOldRefuses(at: Files, inner: Entry, outer: Entry)
    requires outer.path <= inner.path && outer.before == map[] && Under(inner.path, inner.before)
    requires Snapshot([inner, outer], at) && Subtree(at, inner.path) != map[]
    ensures Rollback([inner, outer], at).0 == 1
  {
    var entries := [inner, outer];
    assert inner in entries && outer in entries;
    var gone := Put(at, outer.path, outer.before);
    forall q ensures q !in Subtree(gone, inner.path) {
      if inner.path <= q { PrefixTransitive(outer.path, inner.path, q); }
    }
    assert !Unwinds(entries, at) by {
      assert Subtree(gone, entries[0].path) == map[];
      assert !Spares(at, entries[1], entries[0].path);
    }
    NestedRollbackExactly(entries, at, at);
  }

  lemma PrefixTransitive(a: Path, b: Path, c: Path)
    requires a <= b && b <= c
    ensures a <= c
  {
  }

  // ---------------------------------------------------------------- install, then roll back

  /** Without a conflict the reversed loop does the same for every marking of its entries. */
  lemma {:induction false} ConflictFreeAgree(entries: seq<Entry>, other: seq<Entry>, fs: Files)
    requires |entries| == |other|
    requires forall k | 0 <= k < |entries| :: entries[k].path == other[k].path && entries[k].before == other[k].before
    requires Restore(entries, fs).1 == [] && Restore(other, fs).1 == []
    ensures Restore(entries, fs).0 == Restore(other, fs).0
    decreases |entries|
  {
    if entries != [] {
      var n := |entries| - 1;
      ConflictFreeAgree(entries[..n], other[..n], Put(fs, entries[n].path, entries[n].before));
    }
  }

  /** A conflict of the finished log is a guarded path, alone, and so is preserved. */
  lemma ConflictRefuses(l: Log)
    requires Tracks(l) && AnyConflict(l)
    ensures Rollback(Finish(l.entries, l.fs), l.fs).0 == 1
  {
    var f := Finish(l.entries, l.fs);
    var e :| e in l.entries && Conflicts(e, l.fs);
    var k :| 0 <= k < |l.entries| && l.entries[k] == e;
    forall x | x in f ensures Under(x.path, x.before) && x.after.Some? {
      var i :| 0 <= i < |f| && f[i] == x;
      assert l.entries[i] in l.entries;
    }
    assert Alone(f, k);
    RollbackExactly(f, l.fs);
  }

  /** A log without a conflict is committed with exactly what the file system holds. */
  lemma FinishedSnapshot(l: Log)
    requires Tracks(l) && Open(l.entries) && !AnyConflict(l)
    ensures
      var f := Finish(l.entries, l.fs);
      && WellFormed(f) && Snapshot(f, l.fs) && !Changed(f, l.fs)
      && (Unwinds(f, l.fs) <==> Unwinds(l.entries, l.fs))
  {
    var f := Finish(l.entries, l.fs);
    forall x | x in f ensures Under(x.path, x.before) && x.after == Some(Subtree(l.fs, x.path)) {
      var i :| 0 <= i < |f| && f[i] == x;
      assert l.entries[i] in l.entries;
    }
    forall k, j | 0 <= k < j < |f|
      ensures Spares(l.fs, f[j], f[k].path) <==> Spares(l.fs, l.entries[j], l.entries[k].path)
    {
    }
  }

  lemma RollbackGivesRestore(l: Log)
    requires Tracks(l) && !AnyConflict(l) && Rollback(Finish(l.entries, l.fs), l.fs).0 == 0
    ensures Rollback(Finish(l.entries, l.fs), l.fs).1 == Restore(l.entries, l.fs).0
  {
    ConflictsExactly(l.entries, l.fs);
    ConflictFreeAgree(Guard(Finish(l.entries, l.fs)), l.entries, l.fs);
  }

  /**
   Rolling back a finished transaction nobody touched since.  It exits with 0 exactly when no guarded
   replacement failed late and its entries unwind; and it then gives, path by path, what a restore at the
   commit would have given: in a tidy history the starting file system unless a file of it was claimed.
   */
  lemma {:induction false} InstallThenRollback(fs0: Files, steps: seq<Step>)
    ensures
      var l := After(fs0, steps);
      var (code, fs', _) := Rollback(Finish(l.entries, l.fs), l.fs);
      && (code == 0 <==> (!exists k :: LateAt(fs0, steps, k)) && Unwinds(l.entries, l.fs))
      && (code == 0 ==>
            && (forall q :: Look(fs', q) == Given(fs0, steps, q))
            && (Tidy(fs0, steps) ==> (fs' == fs0 <==> !exists k, q :: ClaimedAt(fs0, steps, k, q))))
  {
    var l := After(fs0, steps);
    HistoryRestores(fs0, steps, []);
    HistoryOpen(fs0, steps);
    LateConflicts(fs0, steps);
    if AnyConflict(l) {
      ConflictRefuses(l);
    } else {
      FinishedSnapshot(l);
      NestedRollbackExactly(Finish(l.entries, l.fs), l.fs, l.fs);
      if Unwinds(l.entries, l.fs) {
        RollbackGivesRestore(l);
        RestoreReturnsEverything(fs0, steps);
        ClaimsAlone(fs0, steps);
      }
    }
  }

  /** Without late failures only claims lose anything. */
  lemma ClaimsAlone(fs0: Files, steps: seq<Step>)
    requires !exists k :: LateAt(fs0, steps, k)
    ensures (exists k, q :: LossAt(fs0, steps, k, q)) <==> exists k, q :: ClaimedAt(fs0, steps, k, q)
  {
    if k, q :| LossAt(fs0, steps, k, q) { assert ClaimedAt(fs0, steps, k, q); }
    if k, q :| ClaimedAt(fs0, steps, k, q) { assert LossAt(fs0, steps, k, q); }
  }
}
