/**
 Replacing one entry and then undoing the transaction: which way of ending a step of the transaction's
 history the entry procedure takes, and what becomes of a newcomer at the vacant name.
 */
module EntryUndo {
  import opened Common
  import opened Installer
  import opened InstallerRuns
  import opened EntryReplace

  function Held(c: Option<Content>): Files { if c.Some? then c.value else map[] }

  /** The ending of a guarded step that one call of the entry procedure amounts to. */
  function EndingOf(p: Plan, prior: Option<Content>): Ending {
    var (d, ok) := EntryReplace.Replace(p, prior);
    if ok then Completed
    else if !Recorded(p, prior) then Unrecorded(Held(d.name))
    else if !AfterWritten(p, prior) then TakenBack(Held(d.name))
    else TakenBackLate(Held(d.name))
  }

  function StepOf(path: Path, p: Plan, prior: Option<Content>): Step {
    Guarded(path, Held(Written(p)), EndingOf(p, prior))
  }

  /** Whatever the plan names lies at or beneath the path. */
  predicate Beneath(path: Path, p: Plan) {
    && Under(path, Held(p.make)) && Under(path, Held(p.afterQuarantine)) && Under(path, Held(p.beforeCheck))
    && Under(path, Held(p.beforeInstall)) && Under(path, Held(p.beforeRestore))
    && (p.removal.Partly? ==> Under(path, p.removal.rest))
  }

  lemma NameBeneath(path: Path, p: Plan, prior: Option<Content>)
    requires Beneath(path, p) && Under(path, Held(prior))
    ensures Under(path, Held(EntryReplace.Replace(p, prior).0.name))
    ensures EntryReplace.Replace(p, prior).1 ==>
              Held(EntryReplace.Replace(p, prior).0.name) == Held(Written(p)) && AfterWritten(p, prior)
  {
  }

  /**
   The entry procedure is the step of the history it is taken for: it leaves the same content at the path,
   and its log entry is there, with or without "after", as far as the call got.
   */
  lemma EntryIsStep(l: Log, path: Path, p: Plan, prior: Option<Content>)
    requires Beneath(path, p) && Held(prior) == Subtree(l.fs, path) && !Seen(l.entries, path)
    ensures
      var r := Perform(l, StepOf(path, p, prior));
      && Subtree(r.fs, path) == Held(EntryReplace.Replace(p, prior).0.name)
      && r.entries == l.entries +
           (if !Recorded(p, prior) then []
            else [Entry(path, Held(prior), if AfterWritten(p, prior) then Some(Held(Written(p))) else None, true)])
  {
    NameBeneath(path, p, prior);
    var s := StepOf(path, p, prior);
    SubtreePut(l.fs, path, Left(s.sub, s.ending));
    assert l.entries + [] == l.entries;
    if EntryReplace.Replace(p, prior).1 { assert Recorded(p, prior); }
  }

  /**
   The two procedures composed: an entry call, however it ends, in a transaction that then fails.  Where the
   call left an entry, the restore puts the prior content back, unless "after" had been written and something
   else is there; where it left none, the restore does not touch the path.
   */
  lemma UndoneEntry(l: Log, path: Path, p: Plan, prior: Option<Content>)
    requires Tracks(l) && (forall e | e in l.entries :: Apart(e.path, path))
    requires Beneath(path, p) && Held(prior) == Subtree(l.fs, path)
    ensures
      var r := Perform(l, StepOf(path, p, prior));
      var name := Held(EntryReplace.Replace(p, prior).0.name);
      Subtree(Restore(r.entries, r.fs).0, path) ==
        if !Recorded(p, prior) || (AfterWritten(p, prior) && name != Held(Written(p))) then name else Held(prior)
  {
    assert !Seen(l.entries, path);
    var r := Perform(l, StepOf(path, p, prior));
    EntryIsStep(l, path, p, prior);
    if Recorded(p, prior) {
      var e := r.entries[|l.entries|];
      assert r.entries == l.entries + [e];
      NameBeneath(path, p, prior);
      ExtendTracks(l, e, r.fs);
      assert Alone(r.entries, |l.entries|);
      RestoreEachPath(r.entries, r.fs, |l.entries|);
    } else {
      assert r.entries == l.entries;
      RestoreSparesApart(r.entries, r.fs, path);
    }
  }

  /**
   A newcomer that took the vacant name survives the entry call, but not always the undo: it does exactly
   when the call recorded nothing, or had written another "after", or when it equals the prior content
   anyway.  Recorded without an "after", it is removed in favour of the prior entry.
   */
  lemma NewcomerSurvivesUndo(l: Log, path: Path, p: Plan, prior: Option<Content>)
    requires Tracks(l) && (forall e | e in l.entries :: Apart(e.path, path))
    requires Beneath(path, p) && Held(prior) == Subtree(l.fs, path)
    requires Contested(EntryReplace.Replace(p, prior).0)
    ensures
      var newcomer := Held(EntryReplace.Replace(p, prior).0.foreign);
      var r := Perform(l, StepOf(path, p, prior));
      && Subtree(r.fs, path) == newcomer
      && (Subtree(Restore(r.entries, r.fs).0, path) == newcomer <==>
            || !Recorded(p, prior)
            || (AfterWritten(p, prior) && newcomer != Held(Written(p)))
            || newcomer == Held(prior))
  {
    FailureLosesNothing(p, prior);
    assert !Seen(l.entries, path);
    EntryIsStep(l, path, p, prior);
    UndoneEntry(l, path, p, prior);
  }
}
