/**
 The installer's undo log.  A file system maps leaf paths to contents; an entry of the log holds the
 whole subtree a managed path had when it was first recorded, and for anchored (guarded) entries also
 the subtree the installer left there.  Fingerprints are taken to be injective, so they are compared
 as subtrees; modes and empty directories are not represented.
 */
module Installer {
  import opened Common

  type Path = seq<string>
  type Files = map<Path, string>

  datatype Entry = Entry(path: Path, before: Files, after: Option<Files>, guarded: bool)

  function Subtree(fs: Files, p: Path): Files { map q | q in fs && p <= q :: fs[q] }

  /** `fs` with everything at and beneath `p` replaced by `sub`. */
  function Put(fs: Files, p: Path, sub: Files): Files { (map q | q in fs && !(p <= q) :: fs[q]) + sub }

  predicate Under(p: Path, sub: Files) { forall q | q in sub :: p <= q }

  predicate Same(fs: Files, fs': Files, q: Path) { (q in fs <==> q in fs') && (q in fs ==> fs[q] == fs'[q]) }

  predicate Covered(entries: seq<Entry>, q: Path) { exists e | e in entries :: e.path <= q }

  ghost predicate AgreeOutside(entries: seq<Entry>, fs: Files, fs': Files) {
    forall q :: Covered(entries, q) || Same(fs, fs', q)
  }

  predicate WellFormed(entries: seq<Entry>) { forall e | e in entries :: Under(e.path, e.before) }

  lemma SameEverywhere(fs: Files, fs': Files)
    requires forall q :: Same(fs, fs', q)
    ensures fs == fs'
  {
    forall q | q in fs ensures q in fs' && fs[q] == fs'[q] { assert Same(fs, fs', q); }
    forall q | q in fs' ensures q in fs { assert Same(fs, fs', q); }
  }

  lemma SubtreeSame(fs: Files, fs': Files, p: Path)
    requires forall q | p <= q :: Same(fs, fs', q)
    ensures Subtree(fs, p) == Subtree(fs', p)
  {
    forall q ensures Same(Subtree(fs, p), Subtree(fs', p), q) {
      if p <= q { assert Same(fs, fs', q); }
    }
    SameEverywhere(Subtree(fs, p), Subtree(fs', p));
  }

  lemma PutSubtree(fs: Files, p: Path)
    ensures Put(fs, p, Subtree(fs, p)) == fs
  {
  }

  lemma SubtreePut(fs: Files, p: Path, sub: Files)
    requires Under(p, sub)
    ensures Subtree(Put(fs, p, sub), p) == sub
    ensures forall q | !(p <= q) :: Same(fs, Put(fs, p, sub), q)
  {
  }

  // ---------------------------------------------------------------- restore

  predicate Conflicts(e: Entry, fs: Files) {
    e.guarded && e.after.Some? && Subtree(fs, e.path) != e.after.value
  }

  /** Entries from the last to the first: conflicting ones are preserved and collected. */
  function Restore(entries: seq<Entry>, fs: Files): (Files, seq<Path>) {
    if entries == [] then (fs, [])
    else
      var e, rest := entries[|entries| - 1], entries[..|entries| - 1];
      if Conflicts(e, fs) then
        var r := Restore(rest, fs);
        (r.0, [e.path] + r.1)
      else Restore(rest, Put(fs, e.path, e.before))
  }

  predicate Plain(entries: seq<Entry>) { forall e | e in entries :: !e.guarded }

  lemma LastIn<T>(s: seq<T>, x: T)
    requires s != []
    ensures x in s <==> x in s[..|s| - 1] || x == s[|s| - 1]
  {
  }

  // ---------------------------------------------------------------- what a restore produces

  predicate Apart(p: Path, q: Path) { !(p <= q) && !(q <= p) }

  lemma PrefixesNest(p: Path, q: Path, x: Path)
    requires p <= x && q <= x
    ensures p <= q || q <= p
  {
  }

  /** Guarded entries lie apart from all others; plain ones may nest in any way. */
  predicate Separated(entries: seq<Entry>) {
    forall x, y | 0 <= x < y < |entries| && (entries[x].guarded || entries[y].guarded) ::
      Apart(entries[x].path, entries[y].path)
  }

  function Look(fs: Files, q: Path): Option<string> { if q in fs then Some(fs[q]) else None }

  /** What the oldest entry over `q` says about it; without one, what the file system says. */
  function Origin(entries: seq<Entry>, fs: Files, q: Path): Option<string> {
    if entries == [] then Look(fs, q)
    else
      var e, rest := entries[|entries| - 1], entries[..|entries| - 1];
      if Covered(rest, q) then Origin(rest, fs, q)
      else if e.path <= q then Look(e.before, q) else Look(fs, q)
  }

  lemma LookSame(fs: Files, fs': Files, q: Path)
    ensures Look(fs, q) == Look(fs', q) <==> Same(fs, fs', q)
  {
  }

  lemma CoveredSnoc(entries: seq<Entry>, q: Path)
    requires entries != []
    ensures Covered(entries, q) <==> Covered(entries[..|entries| - 1], q) || entries[|entries| - 1].path <= q
  {
    if x :| x in entries && x.path <= q { LastIn(entries, x); }
    if x :| x in entries[..|entries| - 1] && x.path <= q { LastIn(entries, x); }
    assert entries[|entries| - 1] in entries;
  }

  lemma {:induction false} OriginDepends(entries: seq<Entry>, fs: Files, fs': Files, q: Path)
    ensures if Covered(entries, q) then Origin(entries, fs, q) == Origin(entries, fs', q)
            else Origin(entries, fs, q) == Look(fs, q)
  {
    if entries != [] {
      CoveredSnoc(entries, q);
      OriginDepends(entries[..|entries| - 1], fs, fs', q);
    }
  }

  function Undo(e: Entry, fs: Files): Files { if Conflicts(e, fs) then fs else Put(fs, e.path, e.before) }

  lemma ApartSubtree(fs: Files, p: Path, q: Path, sub: Files)
    requires Apart(p, q) && Under(p, sub)
    ensures Subtree(Put(fs, p, sub), q) == Subtree(fs, q)
  {
  }

  lemma UndoKeepsRest(entries: seq<Entry>, fs: Files)
    requires entries != [] && WellFormed(entries) && Separated(entries)
    ensures
      var e, rest := entries[|entries| - 1], entries[..|entries| - 1];
      && WellFormed(rest) && Separated(rest)
      && (forall x | x in rest :: Conflicts(x, Undo(e, fs)) <==> Conflicts(x, fs))
  {
    var e, rest := entries[|entries| - 1], entries[..|entries| - 1];
    assert e in entries;
    forall x | x in rest
      ensures x in entries && (x.guarded ==> Subtree(Undo(e, fs), x.path) == Subtree(fs, x.path))
    {
      var k :| 0 <= k < |rest| && rest[k] == x;
      assert entries[k] == x;
      if x.guarded && !Conflicts(e, fs) { ApartSubtree(fs, e.path, x.path, e.before); }
    }
  }

  /** A conflicting entry lies over `q`: whatever is there now is preserved. */
  predicate Preserved(entries: seq<Entry>, fs: Files, q: Path) {
    exists e | e in entries :: Conflicts(e, fs) && e.path <= q
  }

  /** The reversed loop, in closed form. */
  function Restored(entries: seq<Entry>, fs: Files, q: Path): Option<string> {
    if Preserved(entries, fs, q) then Look(fs, q) else Origin(entries, fs, q)
  }

  lemma PreservedSnoc(entries: seq<Entry>, fs: Files, q: Path)
    requires entries != [] && WellFormed(entries) && Separated(entries)
    ensures
      var e, rest := entries[|entries| - 1], entries[..|entries| - 1];
      Preserved(entries, fs, q) <==> Preserved(rest, Undo(e, fs), q) || (Conflicts(e, fs) && e.path <= q)
  {
    var e, rest := entries[|entries| - 1], entries[..|entries| - 1];
    UndoKeepsRest(entries, fs);
    assert e in entries;
    if x :| x in entries && Conflicts(x, fs) && x.path <= q { LastIn(entries, x); }
    if x :| x in rest && Conflicts(x, Undo(e, fs)) && x.path <= q { LastIn(entries, x); }
  }

  /** Nothing else lies over a path that the last entry, a guarded one, lies over. */
  lemma GuardedLast(entries: seq<Entry>, q: Path)
    requires entries != [] && Separated(entries)
    ensures
      var e, rest := entries[|entries| - 1], entries[..|entries| - 1];
      && (e.guarded && e.path <= q ==> !Covered(rest, q))
      && (forall x | x in rest && x.guarded && x.path <= q :: !(e.path <= q))
  {
    var e, rest := entries[|entries| - 1], entries[..|entries| - 1];
    forall x | x in rest && x.path <= q && e.path <= q ensures !e.guarded && !x.guarded {
      var k :| 0 <= k < |rest| && rest[k] == x;
      assert entries[k] == x;
      PrefixesNest(x.path, e.path, q);
    }
  }

  lemma PreservedPlace(entries: seq<Entry>, fs: Files, q: Path)
    requires Preserved(entries, fs, q)
    ensures Covered(entries, q) && exists x | x in entries :: x.guarded && x.path <= q
  {
  }

  /**
   Main lemma on the undo.  Every path beneath a guarded entry that no longer holds its "after" is left
   as it is; every other path ends as its oldest entry recorded it, and unrecorded paths stay.
   */
  lemma {:induction false} RestoreIs(entries: seq<Entry>, fs: Files, q: Path)
    requires WellFormed(entries) && Separated(entries)
    ensures Look(Restore(entries, fs).0, q) == Restored(entries, fs, q)
    decreases |entries|
  {
    if entries != [] {
      var e, rest := entries[|entries| - 1], entries[..|entries| - 1];
      assert e in entries;
      UndoKeepsRest(entries, fs);
      PreservedSnoc(entries, fs, q);
      GuardedLast(entries, q);
      RestoreIs(rest, Undo(e, fs), q);
      OriginDepends(rest, fs, Undo(e, fs), q);
      OriginDepends(rest, Undo(e, fs), fs, q);
      if Preserved(rest, Undo(e, fs), q) { PreservedPlace(rest, Undo(e, fs), q); }
      assert Look(Undo(e, fs), q) == if e.path <= q && !Conflicts(e, fs) then Look(e.before, q) else Look(fs, q);
    }
  }

  /** A restore reports no conflict exactly when no entry differs from its "after" beforehand. */
  lemma {:induction false} ConflictsExactly(entries: seq<Entry>, fs: Files)
    requires WellFormed(entries) && Separated(entries)
    ensures Restore(entries, fs).1 == [] <==> forall e | e in entries :: !Conflicts(e, fs)
    decreases |entries|
  {
    if entries != [] {
      var e, rest := entries[|entries| - 1], entries[..|entries| - 1];
      assert e in entries;
      UndoKeepsRest(entries, fs);
      forall x ensures x in entries <==> x in rest || x == e { LastIn(entries, x); }
      ConflictsExactly(rest, Undo(e, fs));
    }
  }

  /** A restore touches nothing outside the recorded paths. */
  lemma {:induction false} RestoreStaysCovered(entries: seq<Entry>, fs: Files)
    requires WellFormed(entries)
    ensures AgreeOutside(entries, fs, Restore(entries, fs).0)
    decreases |entries|
  {
    if entries != [] {
      var e, rest := entries[|entries| - 1], entries[..|entries| - 1];
      forall x | x in rest ensures x in entries { LastIn(entries, x); }
      assert e in entries;
      RestoreStaysCovered(rest, Undo(e, fs));
      forall q ensures Covered(entries, q) || Same(fs, Restore(entries, fs).0, q) {
        CoveredSnoc(entries, q);
        if !Covered(entries, q) { assert Same(Undo(e, fs), Restore(rest, Undo(e, fs)).0, q); }
      }
    }
  }

  // ---------------------------------------------------------------- entry by entry

  /** No other entry lies over or beneath the k-th one. */
  predicate Alone(entries: seq<Entry>, k: int)
    requires 0 <= k < |entries|
  {
    forall x | 0 <= x < |entries| && x != k :: Apart(entries[x].path, entries[k].path)
  }

  lemma {:induction false} RestoreSparesApart(entries: seq<Entry>, fs: Files, p: Path)
    requires WellFormed(entries) && forall e | e in entries :: Apart(e.path, p)
    ensures Subtree(Restore(entries, fs).0, p) == Subtree(fs, p)
    ensures p !in Restore(entries, fs).1
    decreases |entries|
  {
    if entries != [] {
      var e, rest := entries[|entries| - 1], entries[..|entries| - 1];
      assert e in entries;
      forall x | x in rest ensures x in entries { LastIn(entries, x); }
      RestoreSparesApart(rest, Undo(e, fs), p);
      if !Conflicts(e, fs) { ApartSubtree(fs, e.path, p, e.before); }
    }
  }

  /**
   An entry that stands alone is treated on its own, whatever the others do and however they nest: a
   path whose content differs from its recorded "after" is never altered and always reported, any other
   gets its "before" back.  Nothing outside the recorded paths changes.
   */
  lemma {:induction false} RestoreEachPath(entries: seq<Entry>, fs: Files, k: nat)
    requires WellFormed(entries) && k < |entries| && Alone(entries, k)
    ensures
      var e := entries[k];
      var (fs', conflicts) := Restore(entries, fs);
      && Subtree(fs', e.path) == (if Conflicts(e, fs) then Subtree(fs, e.path) else e.before)
      && (e.path in conflicts <==> Conflicts(e, fs))
    ensures AgreeOutside(entries, fs, Restore(entries, fs).0)
    decreases |entries|
  {
    RestoreStaysCovered(entries, fs);
    var n := |entries| - 1;
    var last, rest := entries[n], entries[..n];
    forall x | x in rest ensures x in entries { LastIn(entries, x); }
    assert last in entries;
    if k == n {
      forall x | x in rest ensures Apart(x.path, last.path) {
        var i :| 0 <= i < n && rest[i] == x;
        assert entries[i] == x;
      }
      RestoreSparesApart(rest, Undo(last, fs), last.path);
      if !Conflicts(last, fs) { SubtreePut(fs, last.path, last.before); }
    } else {
      assert Apart(last.path, entries[k].path);
      RestoreEachPath(rest, Undo(last, fs), k);
      if !Conflicts(last, fs) { ApartSubtree(fs, last.path, entries[k].path, last.before); }
    }
  }
}
