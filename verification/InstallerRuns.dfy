/**
 Histories of one installation transaction: user-scope replacements, guarded project replacements with
 all their ways to fail, and runs of the upstream installer, up to the failure that starts the undo.
 */
module InstallerRuns {
  import opened Common
  import opened Installer

  /**
   How a guarded replacement through replace_anchored_entry ends: it fails before its entry is recorded,
   after that, or after "after" was written as well; or it completes.  `rest` is what a failure leaves at
   the path: the prior content, the remains of a removal that stopped halfway, or a newcomer.
   */
  datatype Ending =
    | Unrecorded(rest: Files) | TakenBack(rest: Files) | TakenBackLate(rest: Files) | Completed

  datatype Step =
    | Replace(path: Path, sub: Files)                 // user scope: record, then any content beneath the path
    | Guarded(path: Path, sub: Files, ending: Ending) // project scope, through a verified parent
    | External(created: seq<Path>, result: Files)     // the upstream installer, then the paths found afterwards

  datatype Log = Log(fs: Files, entries: seq<Entry>)

  predicate Seen(entries: seq<Entry>, p: Path) { exists e | e in entries :: e.path == p }

  function Record(l: Log, p: Path, before: Files, guarded: bool): Log {
    if Seen(l.entries, p) then l else l.(entries := l.entries + [Entry(p, before, None, guarded)])
  }

  function AssumeAll(l: Log, created: seq<Path>): Log {
    if created == [] then l
    else Record(AssumeAll(l, created[..|created| - 1]), created[|created| - 1], map[], false)
  }

  predicate IsCreated(created: seq<Path>, q: Path) { exists c | c in created :: c <= q }

  predicate PlainCovered(entries: seq<Entry>, q: Path) { exists e | e in entries :: !e.guarded && e.path <= q }

  /** The upstream installer changed nothing but what was recorded or is found afterwards. */
  ghost predicate Contained(l: Log, created: seq<Path>, result: Files) {
    forall q :: PlainCovered(l.entries, q) || IsCreated(created, q) || Same(l.fs, result, q)
  }

  predicate ClearOf(entries: seq<Entry>, p: Path) { forall e | e in entries && e.guarded :: Apart(e.path, p) }

  /** The path a guarded replacement is about, with what it leaves there. */
  function Left(sub: Files, ending: Ending): Files { if ending.Completed? then sub else ending.rest }

  /**
   Guarded paths stay apart from all others, and external runs, which come first in an installation,
   leave them alone.  Nothing else is asked of what an external run does.
   */
  ghost predicate Allowed(l: Log, s: Step) {
    match s
    case Replace(p, sub) => Under(p, sub) && ClearOf(l.entries, p)
    case Guarded(p, sub, ending) => Under(p, Left(sub, ending)) && forall e | e in l.entries :: Apart(e.path, p)
    case External(created, result) =>
      && (forall c | c in created :: ClearOf(l.entries, c))
      && (forall e | e in l.entries && e.guarded :: Subtree(result, e.path) == Subtree(l.fs, e.path))
  }

  /** A path already recorded is replaced without a second entry. */
  function ReplaceGuarded(l: Log, p: Path, sub: Files, ending: Ending): Log {
    var before := Subtree(l.fs, p);
    var fs' := Put(l.fs, p, Left(sub, ending));
    if ending.Unrecorded? || Seen(l.entries, p) then l.(fs := fs')
    else Log(fs', l.entries + [Entry(p, before, if ending.TakenBack? then None else Some(sub), true)])
  }

  function Perform(l: Log, s: Step): Log {
    match s
    case Replace(p, sub) => Record(l, p, Subtree(l.fs, p), false).(fs := Put(l.fs, p, sub))
    case Guarded(p, sub, ending) => ReplaceGuarded(l, p, sub, ending)
    case External(created, result) => AssumeAll(l, created).(fs := result)
  }

  /** The log and the file system as a failure after any number of allowed steps finds them. */
  ghost function After(fs0: Files, steps: seq<Step>): Log {
    if steps == [] then Log(fs0, [])
    else
      var l := After(fs0, steps[..|steps| - 1]);
      if Allowed(l, steps[|steps| - 1]) then Perform(l, steps[|steps| - 1]) else l
  }

  // ---------------------------------------------------------------- what every step keeps

  predicate Tracks(l: Log) { WellFormed(l.entries) && Separated(l.entries) }

  lemma {:induction false} AssumeAdds(l: Log, created: seq<Path>)
    ensures
      var r := AssumeAll(l, created);
      && r.fs == l.fs && l.entries <= r.entries
      && (forall k | |l.entries| <= k < |r.entries| ::
            r.entries[k].path in created && r.entries[k].before == map[] && !r.entries[k].guarded)
      && (forall c | c in created :: Seen(r.entries, c))
  {
    if created != [] {
      var n := |created| - 1;
      var was, r := AssumeAll(l, created[..n]), AssumeAll(l, created);
      AssumeAdds(l, created[..n]);
      forall c | c in created ensures Seen(r.entries, c) {
        LastIn(created, c);
        if Seen(was.entries, c) {
          var e :| e in was.entries && e.path == c;
          assert e in r.entries;
        } else {
          assert r.entries[|was.entries|] in r.entries;
        }
      }
    }
  }

  /** Appending entries changes no path an older entry covers, and sets the others to their "before". */
  lemma {:induction false} OriginAppended(entries: seq<Entry>, more: seq<Entry>, fs: Files, q: Path)
    requires forall e | e in more :: e.before == map[]
    ensures Origin(entries + more, fs, q) ==
            if Covered(entries, q) then Origin(entries, fs, q) else if Covered(more, q) then None else Look(fs, q)
    ensures Covered(entries + more, q) <==> Covered(entries, q) || Covered(more, q)
    decreases |more|
  {
    if more == [] {
      assert entries + more == entries;
      OriginDepends(entries, fs, fs, q);
    } else {
      var n := |more| - 1;
      assert (entries + more)[..|entries + more| - 1] == entries + more[..n];
      forall e | e in more[..n] ensures e.before == map[] { LastIn(more, e); }
      assert more[n] in more;
      OriginAppended(entries, more[..n], fs, q);
      CoveredSnoc(entries + more, q);
      CoveredSnoc(more, q);
    }
  }

  lemma ExtendTracks(l: Log, e: Entry, fs': Files)
    requires Tracks(l) && Under(e.path, e.before)
    requires if e.guarded then forall x | x in l.entries :: Apart(x.path, e.path) else ClearOf(l.entries, e.path)
    ensures Tracks(Log(fs', l.entries + [e]))
  {
    var r := l.entries + [e];
    forall x | x in r ensures x in l.entries || x == e {}
  }

  /** The content of guarded paths is the same in both file systems. */
  predicate GuardedSame(entries: seq<Entry>, fs: Files, fs': Files) {
    forall e | e in entries && e.guarded :: Subtree(fs', e.path) == Subtree(fs, e.path)
  }

  lemma SubtreeLooks(fs: Files, fs': Files, p: Path, q: Path)
    requires Subtree(fs', p) == Subtree(fs, p) && p <= q
    ensures Look(fs', q) == Look(fs, q)
  {
    assert q in Subtree(fs, p) <==> q in fs;
    assert q in Subtree(fs', p) <==> q in fs';
  }

  /** What a restore gives at a recorded path depends on guarded content only; elsewhere it gives what is there. */
  lemma RestoredDepends(entries: seq<Entry>, fs: Files, fs': Files, q: Path)
    requires GuardedSame(entries, fs, fs')
    ensures Restored(entries, fs', q) == if Covered(entries, q) then Restored(entries, fs, q) else Look(fs', q)
  {
    OriginDepends(entries, fs, fs', q);
    OriginDepends(entries, fs', fs, q);
    forall e | e in entries ensures Conflicts(e, fs') <==> Conflicts(e, fs) {}
    if e :| e in entries && Conflicts(e, fs) && e.path <= q { SubtreeLooks(fs, fs', e.path, q); }
  }

  /** One more entry: what it says counts only where no older one lies. */
  lemma RestoredExtended(entries: seq<Entry>, e: Entry, fs: Files, q: Path)
    requires e.guarded ==> forall x | x in entries :: Apart(x.path, e.path)
    ensures Restored(entries + [e], fs, q) ==
            if Covered(entries, q) then Restored(entries, fs, q)
            else if !(e.path <= q) || Conflicts(e, fs) then Look(fs, q) else Look(e.before, q)
  {
    var more := entries + [e];
    assert more[..|entries|] == entries;
    forall x ensures x in more <==> x in entries || x == e { LastIn(more, x); }
    OriginDepends(entries, fs, fs, q);
    if x :| x in entries && Conflicts(x, fs) && x.path <= q { assert x in more; }
    if Conflicts(e, fs) && e.path <= q {
      assert e in more;
      if x :| x in entries && x.path <= q { PrefixesNest(x.path, e.path, q); }
    }
  }

  lemma PutKeepsGuarded(entries: seq<Entry>, fs: Files, p: Path, sub: Files)
    requires Under(p, sub) && ClearOf(entries, p)
    ensures GuardedSame(entries, fs, Put(fs, p, sub))
  {
    forall x | x in entries && x.guarded ensures Subtree(Put(fs, p, sub), x.path) == Subtree(fs, x.path) {
      ApartSubtree(fs, p, x.path, sub);
    }
  }

  /** A user-scope mutation changes nothing of what a restore gives, whatever it nests with. */
  lemma ReplaceKeeps(l: Log, p: Path, sub: Files, q: Path)
    requires Tracks(l) && Allowed(l, Replace(p, sub))
    ensures
      var r := Perform(l, Replace(p, sub));
      Tracks(r) && Restored(r.entries, r.fs, q) == Restored(l.entries, l.fs, q)
  {
    var r, e := Perform(l, Replace(p, sub)), Entry(p, Subtree(l.fs, p), None, false);
    PutKeepsGuarded(l.entries, l.fs, p, sub);
    RestoredDepends(l.entries, l.fs, r.fs, q);
    RestoredDepends(l.entries, l.fs, l.fs, q);
    if Seen(l.entries, p) {
      var x :| x in l.entries && x.path == p;
      if p <= q { assert Covered(l.entries, q); }
    } else {
      ExtendTracks(l, e, r.fs);
      RestoredExtended(l.entries, e, r.fs, q);
    }
  }

  /** The failures no restore undoes: before the recording, or with other content under the entry's "after". */
  predicate Sticks(sub: Files, ending: Ending) {
    ending.Unrecorded? || (ending.TakenBackLate? && ending.rest != sub)
  }

  /** A guarded replacement changes what a restore gives only if it fails in one of those two ways. */
  lemma GuardedKeeps(l: Log, p: Path, sub: Files, ending: Ending, q: Path)
    requires Tracks(l) && Allowed(l, Guarded(p, sub, ending))
    ensures
      var r := ReplaceGuarded(l, p, sub, ending);
      && Tracks(r)
      && Restored(r.entries, r.fs, q) ==
         if p <= q && Sticks(sub, ending) then Look(ending.rest, q) else Restored(l.entries, l.fs, q)
  {
    assert !Seen(l.entries, p);
    var r := ReplaceGuarded(l, p, sub, ending);
    PutKeepsGuarded(l.entries, l.fs, p, Left(sub, ending));
    RestoredDepends(l.entries, l.fs, r.fs, q);
    RestoredDepends(l.entries, l.fs, l.fs, q);
    if p <= q {
      if x :| x in l.entries && x.path <= q { PrefixesNest(x.path, p, q); }
    }
    if !ending.Unrecorded? {
      var e := r.entries[|l.entries|];
      SubtreePut(l.fs, p, Left(sub, ending));
      ExtendTracks(l, e, r.fs);
      RestoredExtended(l.entries, e, r.fs, q);
    }
  }

  /** A file the upstream installer's manifest newly claims although it was there, unrecorded, before the run. */
  predicate Claimed(l: Log, created: seq<Path>, q: Path) {
    IsCreated(created, q) && q in l.fs && !Covered(l.entries, q)
  }

  lemma {:induction false} ExternalTracks(l: Log, created: seq<Path>, result: Files)
    requires Tracks(l) && forall c | c in created :: ClearOf(l.entries, c)
    ensures Tracks(Perform(l, External(created, result)))
    ensures forall e | e in AssumeAll(l, created).entries && e.guarded :: e in l.entries
  {
    AssumeAdds(l, created);
    var r := AssumeAll(l, created);
    forall e | e in r.entries ensures Under(e.path, e.before) && (e.guarded ==> e in l.entries) {
      var k :| 0 <= k < |r.entries| && r.entries[k] == e;
      if k < |l.entries| { assert l.entries[k] == e; }
    }
    forall x, y | 0 <= x < y < |r.entries| && (r.entries[x].guarded || r.entries[y].guarded)
      ensures Apart(r.entries[x].path, r.entries[y].path)
    {
      if y >= |l.entries| { assert l.entries[x] in l.entries; }
    }
  }

  lemma {:induction false} CreatedCovers(l: Log, created: seq<Path>, q: Path)
    requires l.entries <= AssumeAll(l, created).entries && !Covered(l.entries, q)
    ensures Covered(AssumeAll(l, created).entries[|l.entries|..], q) <==> IsCreated(created, q)
  {
    AssumeAdds(l, created);
    var r := AssumeAll(l, created);
    var more := r.entries[|l.entries|..];
    if c :| c in created && c <= q {
      var e :| e in r.entries && e.path == c;
      assert e in l.entries || e in more;
    }
    if e :| e in more && e.path <= q {
      var k :| 0 <= k < |more| && more[k] == e;
      assert r.entries[|l.entries| + k] == e;
    }
  }

  lemma {:induction false} AssumedOrigin(l: Log, created: seq<Path>, fs: Files, q: Path)
    ensures Origin(AssumeAll(l, created).entries, fs, q) ==
            if Covered(l.entries, q) then Origin(l.entries, fs, q)
            else if IsCreated(created, q) then None else Look(fs, q)
  {
    AssumeAdds(l, created);
    var r := AssumeAll(l, created);
    var more := r.entries[|l.entries|..];
    assert r.entries == l.entries + more;
    OriginAppended(l.entries, more, fs, q);
    if !Covered(l.entries, q) { CreatedCovers(l, created, q); }
  }

  /** After an external run, whatever it did: recorded paths come back, discovered ones vanish, the rest stays. */
  lemma ExternalKeeps(l: Log, created: seq<Path>, result: Files, q: Path)
    requires Tracks(l) && Allowed(l, External(created, result))
    ensures
      var r := Perform(l, External(created, result));
      && Tracks(r)
      && Restored(r.entries, r.fs, q) ==
         if Covered(l.entries, q) then Restored(l.entries, l.fs, q)
         else if IsCreated(created, q) then None else Look(result, q)
  {
    ExternalTracks(l, created, result);
    AssumeAdds(l, created);
    var r := Perform(l, External(created, result));
    AssumedOrigin(l, created, result, q);
    RestoredDepends(l.entries, l.fs, result, q);
    assert Preserved(r.entries, result, q) <==> Preserved(l.entries, result, q) by {
      if e :| e in r.entries && Conflicts(e, result) && e.path <= q { assert e in l.entries; }
      if e :| e in l.entries && Conflicts(e, result) && e.path <= q { assert e in r.entries; }
    }
    if Preserved(l.entries, result, q) { PreservedPlace(l.entries, result, q); }
  }

  /**
   One external run over a user-scope log, with nothing assumed about what it did: restoring returns
   the earlier file system if and only if every file beneath a path found afterwards was absent or
   recorded, and nothing else was changed.  Paths the new manifest claims are recorded as formerly
   missing without a look at the disk, so a user's own file at such a path fails the first half.
   */
  lemma ExternalExactly(fs0: Files, l: Log, created: seq<Path>, result: Files)
    requires Plain(l.entries) && WellFormed(l.entries) && Restore(l.entries, l.fs).0 == fs0
    ensures
      var r := Perform(l, External(created, result));
      Restore(r.entries, r.fs).0 == fs0 <==>
        && (forall q :: IsCreated(created, q) ==> Covered(l.entries, q) || q !in l.fs)
        && Contained(l, created, result)
  {
    var r := Perform(l, External(created, result));
    var back := Restore(r.entries, r.fs).0;
    forall q
      ensures Look(back, q) == if Covered(l.entries, q) then Look(fs0, q)
                               else if IsCreated(created, q) then None else Look(result, q)
      ensures !Covered(l.entries, q) ==> Look(fs0, q) == Look(l.fs, q)
      ensures Covered(l.entries, q) <==> PlainCovered(l.entries, q)
    {
      ExternalKeeps(l, created, result, q);
      RestoreIs(l.entries, l.fs, q);
      RestoreIs(r.entries, r.fs, q);
      RestoredDepends(l.entries, l.fs, l.fs, q);
    }
    if back == fs0 {
      forall q | !PlainCovered(l.entries, q) && !IsCreated(created, q) ensures Same(l.fs, result, q) {
        LookSame(l.fs, result, q);
      }
    } else {
      var q := DifferSomewhere(back, fs0);
      LookSame(l.fs, result, q);
    }
  }

  lemma DifferSomewhere(fs: Files, fs': Files) returns (q: Path)
    requires fs != fs'
    ensures Look(fs, q) != Look(fs', q)
  {
    if forall q :: Look(fs, q) == Look(fs', q) {
      forall q ensures Same(fs, fs', q) { LookSame(fs, fs', q); }
      SameEverywhere(fs, fs');
    }
    q :| Look(fs, q) != Look(fs', q);
  }

  // ---------------------------------------------------------------- what is there after a history

  /** The step writes over everything at and beneath this path, or over the whole file system. */
  predicate Touches(s: Step, q: Path) { s.External? || s.path <= q }

  /** What it leaves at a path it writes over. */
  function Placed(s: Step, q: Path): Option<string> {
    match s
    case Replace(_, sub) => Look(sub, q)
    case Guarded(_, sub, Completed) => Look(sub, q)
    case Guarded(_, _, ending) => Look(ending.rest, q)
    case External(_, result) => Look(result, q)
  }

  ghost predicate TouchesAt(fs0: Files, steps: seq<Step>, k: int, q: Path) {
    0 <= k < |steps| && Allowed(After(fs0, steps[..k]), steps[k]) && Touches(steps[k], q)
  }

  lemma StepPlaces(l: Log, s: Step, q: Path)
    requires Allowed(l, s)
    ensures Look(Perform(l, s).fs, q) == if Touches(s, q) then Placed(s, q) else Look(l.fs, q)
    ensures l.entries <= Perform(l, s).entries
  {
    if s.External? { AssumeAdds(l, s.created); }
  }

  lemma TouchesEarlier(fs0: Files, steps: seq<Step>, k: int, q: Path)
    requires steps != []
    ensures TouchesAt(fs0, steps[..|steps| - 1], k, q) <==> TouchesAt(fs0, steps, k, q) && k != |steps| - 1
  {
    if 0 <= k < |steps| - 1 { assert steps[..|steps| - 1][..k] == steps[..k]; }
  }

  /** No step after the k-th writes over the path. */
  ghost predicate LastTouch(fs0: Files, steps: seq<Step>, k: int, q: Path) {
    TouchesAt(fs0, steps, k, q) && forall j | k < j :: !TouchesAt(fs0, steps, j, q)
  }

  lemma {:induction false} LastStepPlaces(fs0: Files, steps: seq<Step>, q: Path)
    requires steps != []
    ensures
      var n := |steps| - 1;
      Look(After(fs0, steps).fs, q) ==
        if TouchesAt(fs0, steps, n, q) then Placed(steps[n], q) else Look(After(fs0, steps[..n]).fs, q)
  {
    var n := |steps| - 1;
    if Allowed(After(fs0, steps[..n]), steps[n]) { StepPlaces(After(fs0, steps[..n]), steps[n], q); }
  }

  /** While a transaction runs, a path holds what the last step that wrote over it left there. */
  lemma {:induction false} LastWriteStands(fs0: Files, steps: seq<Step>, k: int, q: Path)
    requires LastTouch(fs0, steps, k, q)
    ensures Look(After(fs0, steps).fs, q) == Placed(steps[k], q)
  {
    var n := |steps| - 1;
    LastStepPlaces(fs0, steps, q);
    if k < n {
      forall j ensures TouchesAt(fs0, steps[..n], j, q) <==> TouchesAt(fs0, steps, j, q) && j != n {
        TouchesEarlier(fs0, steps, j, q);
      }
      LastWriteStands(fs0, steps[..n], k, q);
    }
  }

  /** And what was there at the start when none did. */
  lemma {:induction false} UntouchedStays(fs0: Files, steps: seq<Step>, q: Path)
    requires forall k :: !TouchesAt(fs0, steps, k, q)
    ensures Look(After(fs0, steps).fs, q) == Look(fs0, q)
  {
    if steps != [] {
      var n := |steps| - 1;
      LastStepPlaces(fs0, steps, q);
      forall j ensures !TouchesAt(fs0, steps[..n], j, q) { TouchesEarlier(fs0, steps, j, q); }
      UntouchedStays(fs0, steps[..n], q);
    }
  }

  // ---------------------------------------------------------------- what a restore gives after a history

  /** What a restore gives at `q` after one more step, when it gave `v` before. */
  function Carried(l: Log, s: Step, q: Path, v: Option<string>): Option<string> {
    match s
    case Replace(_, _) => v
    case Guarded(p, sub, ending) => if p <= q && Sticks(sub, ending) then Look(ending.rest, q) else v
    case External(created, result) =>
      if Covered(l.entries, q) then v else if IsCreated(created, q) then None else Look(result, q)
  }

  /** What a restore gives at `q` after the whole history. */
  ghost function Given(fs0: Files, steps: seq<Step>, q: Path): Option<string> {
    if steps == [] then Look(fs0, q)
    else
      var rest, s := steps[..|steps| - 1], steps[|steps| - 1];
      var l, v := After(fs0, rest), Given(fs0, rest, q);
      if Allowed(l, s) then Carried(l, s, q, v) else v
  }

  lemma StepRestores(l: Log, s: Step, q: Path)
    requires Tracks(l) && Allowed(l, s)
    ensures
      var r := Perform(l, s);
      Tracks(r) && Restored(r.entries, r.fs, q) == Carried(l, s, q, Restored(l.entries, l.fs, q))
  {
    match s
    case Replace(p, sub) => ReplaceKeeps(l, p, sub, q);
    case Guarded(p, sub, ending) => GuardedKeeps(l, p, sub, ending, q);
    case External(created, result) => ExternalKeeps(l, created, result, q);
  }

  lemma {:induction false} HistoryRestores(fs0: Files, steps: seq<Step>, q: Path)
    ensures
      var l := After(fs0, steps);
      Tracks(l) && Restored(l.entries, l.fs, q) == Given(fs0, steps, q)
  {
    if steps != [] {
      var rest, s := steps[..|steps| - 1], steps[|steps| - 1];
      HistoryRestores(fs0, rest, q);
      if Allowed(After(fs0, rest), s) { StepRestores(After(fs0, rest), s, q); }
    }
  }

  /** The k-th step claims a file that was there before it. */
  ghost predicate ClaimedAt(fs0: Files, steps: seq<Step>, k: int, q: Path) {
    && 0 <= k < |steps| && steps[k].External? && Allowed(After(fs0, steps[..k]), steps[k])
    && Claimed(After(fs0, steps[..k]), steps[k].created, q)
  }

  /**
   The k-th step fails with its entry's "after" written and other content than that at its path: the
   remains of a removal that stopped halfway, say.  It is reported as a conflict and preserved.
   */
  ghost predicate LateAt(fs0: Files, steps: seq<Step>, k: int) {
    && 0 <= k < |steps| && steps[k].Guarded? && steps[k].ending.TakenBackLate?
    && Allowed(After(fs0, steps[..k]), steps[k]) && steps[k].ending.rest != steps[k].sub
  }

  /** It thereby loses what `q` held before. */
  ghost predicate DamagedAt(fs0: Files, steps: seq<Step>, k: int, q: Path) {
    && LateAt(fs0, steps, k) && steps[k].path <= q
    && Look(steps[k].ending.rest, q) != Look(After(fs0, steps[..k]).fs, q)
  }

  ghost predicate LossAt(fs0: Files, steps: seq<Step>, k: int, q: Path) {
    ClaimedAt(fs0, steps, k, q) || DamagedAt(fs0, steps, k, q)
  }

  /** Nothing changes behind the log: external runs are contained, unrecorded failures leave the prior content. */
  ghost predicate Orderly(l: Log, s: Step) {
    match s
    case Replace(_, _) => true
    case Guarded(p, _, ending) => ending.Unrecorded? ==> ending.rest == Subtree(l.fs, p)
    case External(created, result) => Contained(l, created, result)
  }

  ghost predicate Tidy(fs0: Files, steps: seq<Step>) {
    forall k | 0 <= k < |steps| && Allowed(After(fs0, steps[..k]), steps[k]) ::
      Orderly(After(fs0, steps[..k]), steps[k])
  }

  lemma {:induction false} TidyPrefix(fs0: Files, steps: seq<Step>)
    requires steps != [] && Tidy(fs0, steps)
    ensures
      var n := |steps| - 1;
      && Tidy(fs0, steps[..n])
      && (Allowed(After(fs0, steps[..n]), steps[n]) ==> Orderly(After(fs0, steps[..n]), steps[n]))
  {
    var n := |steps| - 1;
    forall k | 0 <= k < n ensures steps[..n][..k] == steps[..k] && steps[..n][k] == steps[k] {}
  }

  lemma LossSnoc(fs0: Files, steps: seq<Step>, q: Path)
    requires steps != []
    ensures
      var rest := steps[..|steps| - 1];
      (exists k :: LossAt(fs0, steps, k, q)) <==>
        (exists k :: LossAt(fs0, rest, k, q)) || LossAt(fs0, steps, |steps| - 1, q)
  {
    var n := |steps| - 1;
    forall k ensures LossAt(fs0, steps, k, q) && k != n <==> LossAt(fs0, steps[..n], k, q) {
      if 0 <= k < n { assert steps[..k] == steps[..n][..k]; }
    }
  }

  /** What one orderly step does to an unrecorded path, of which a restore gave the present content. */
  lemma OrderlyStep(l: Log, s: Step, q: Path)
    requires Tracks(l) && Allowed(l, s) && Orderly(l, s) && !Covered(l.entries, q)
    ensures
      var v := Look(l.fs, q);
      && (Carried(l, s, q, v) != v <==>
            || (s.External? && Claimed(l, s.created, q))
            || (s.Guarded? && s.ending.TakenBackLate? && s.ending.rest != s.sub && s.path <= q
                && Look(s.ending.rest, q) != v))
      && (!Covered(Perform(l, s).entries, q) ==> Carried(l, s, q, v) == v)
  {
    match s
    case Replace(p, sub) =>
    case Guarded(p, sub, ending) =>
      if p <= q {
        if ending.Unrecorded? {
          SubtreeLook(l.fs, p, q);
        } else {
          assert !Seen(l.entries, p);
          assert Perform(l, s).entries[|l.entries|] in Perform(l, s).entries;
        }
      }
    case External(created, result) =>
      if IsCreated(created, q) {
        AssumeAdds(l, created);
        var c :| c in created && c <= q;
        var e :| e in AssumeAll(l, created).entries && e.path == c;
      } else {
        assert Same(l.fs, result, q);
      }
  }

  lemma SubtreeLook(fs: Files, p: Path, q: Path)
    requires p <= q
    ensures Look(Subtree(fs, p), q) == Look(fs, q)
  {
  }

  lemma RecordedStays(l: Log, s: Step, q: Path)
    requires Covered(l.entries, q)
    ensures Covered(Perform(l, s).entries, q)
  {
    if s.External? { AssumeAdds(l, s.created); }
    var e :| e in l.entries && e.path <= q;
    assert l.entries <= Perform(l, s).entries;
    assert e in Perform(l, s).entries;
  }

  /** In a tidy history a path is lost at most once: it is recorded from then on. */
  lemma {:induction false} TidyGiven(fs0: Files, steps: seq<Step>, q: Path)
    requires Tidy(fs0, steps)
    ensures Given(fs0, steps, q) == Look(fs0, q) <==> !exists k :: LossAt(fs0, steps, k, q)
    ensures !Covered(After(fs0, steps).entries, q) ==> Given(fs0, steps, q) == Look(fs0, q)
  {
    if steps != [] {
      var n := |steps| - 1;
      var rest, s := steps[..n], steps[n];
      var l := After(fs0, rest);
      TidyPrefix(fs0, steps);
      TidyGiven(fs0, rest, q);
      LossSnoc(fs0, steps, q);
      HistoryRestores(fs0, rest, q);
      if Allowed(l, s) {
        if Covered(l.entries, q) {
          RecordedStays(l, s, q);
          if s.Guarded? && s.path <= q {
            var x :| x in l.entries && x.path <= q;
            PrefixesNest(x.path, s.path, q);
          }
        } else {
          RestoredDepends(l.entries, l.fs, l.fs, q);
          OrderlyStep(l, s, q);
        }
      }
    }
  }

  // ---------------------------------------------------------------- conflicts, and a second restore

  predicate AnyConflict(l: Log) { exists e | e in l.entries :: Conflicts(e, l.fs) }

  lemma GuardedPathsUntouched(l: Log, s: Step)
    requires Tracks(l) && Allowed(l, s)
    ensures GuardedSame(l.entries, l.fs, Perform(l, s).fs)
  {
    match s
    case Replace(p, sub) => PutKeepsGuarded(l.entries, l.fs, p, sub);
    case Guarded(p, sub, ending) => PutKeepsGuarded(l.entries, l.fs, p, Left(sub, ending));
    case External(created, result) =>
  }

  lemma LateSnoc(fs0: Files, steps: seq<Step>)
    requires steps != []
    ensures
      var rest := steps[..|steps| - 1];
      (exists k :: LateAt(fs0, steps, k)) <==> (exists k :: LateAt(fs0, rest, k)) || LateAt(fs0, steps, |steps| - 1)
  {
    var n := |steps| - 1;
    forall k ensures LateAt(fs0, steps, k) && k != n <==> LateAt(fs0, steps[..n], k) {
      if 0 <= k < n { assert steps[..k] == steps[..n][..k]; }
    }
  }

  lemma {:induction false} LateConflicts(fs0: Files, steps: seq<Step>)
    ensures AnyConflict(After(fs0, steps)) <==> exists k :: LateAt(fs0, steps, k)
  {
    if steps == [] {
      assert !exists k :: LateAt(fs0, steps, k);
    } else {
      var rest, s := steps[..|steps| - 1], steps[|steps| - 1];
      LateConflicts(fs0, rest);
      LateSnoc(fs0, steps);
      HistoryRestores(fs0, rest, []);
      if Allowed(After(fs0, rest), s) { StepConflicts(After(fs0, rest), s); }
    }
  }

  lemma StepConflicts(l: Log, s: Step)
    requires Tracks(l) && Allowed(l, s)
    ensures AnyConflict(Perform(l, s)) <==>
            AnyConflict(l) || (s.Guarded? && s.ending.TakenBackLate? && s.ending.rest != s.sub)
  {
    GuardedPathsUntouched(l, s);
    var r := Perform(l, s);
    if s.External? { AssumeAdds(l, s.created); }
    if s.Guarded? {
      SubtreePut(l.fs, s.path, Left(s.sub, s.ending));
      assert !Seen(l.entries, s.path);
    }
    assert l.entries <= r.entries;
    forall e | e in l.entries ensures e in r.entries && (Conflicts(e, r.fs) <==> Conflicts(e, l.fs)) {}
    forall k | |l.entries| <= k < |r.entries|
      ensures Conflicts(r.entries[k], r.fs) <==>
              s.Guarded? && s.ending.TakenBackLate? && s.ending.rest != s.sub
    {
    }
    if AnyConflict(r) {
      var e :| e in r.entries && Conflicts(e, r.fs);
      var k :| 0 <= k < |r.entries| && r.entries[k] == e;
      if k < |l.entries| { assert l.entries[k] == e; }
    }
    if s.Guarded? && s.ending.TakenBackLate? { assert r.entries[|l.entries|] in r.entries; }
  }

  /** The same entries, some of them with an "after" they did not have. */
  predicate Completes(entries: seq<Entry>, other: seq<Entry>) {
    && |other| == |entries|
    && forall k | 0 <= k < |entries| ::
         && other[k].path == entries[k].path && other[k].before == entries[k].before
         && other[k].guarded == entries[k].guarded
         && (entries[k].after.Some? ==> other[k].after == entries[k].after)
  }

  lemma {:induction false} OriginOfCompleted(entries: seq<Entry>, other: seq<Entry>, fs: Files, q: Path)
    requires Completes(entries, other)
    ensures Origin(other, fs, q) == Origin(entries, fs, q)
    ensures Covered(other, q) <==> Covered(entries, q)
  {
    if entries != [] {
      var n := |entries| - 1;
      OriginOfCompleted(entries[..n], other[..n], fs, q);
      CoveredSnoc(entries, q);
      CoveredSnoc(other, q);
    }
  }

  lemma CompletedTracks(entries: seq<Entry>, other: seq<Entry>)
    requires Completes(entries, other) && WellFormed(entries) && Separated(entries)
    ensures WellFormed(other) && Separated(other)
  {
    forall x | x in other ensures Under(x.path, x.before) {
      var k :| 0 <= k < |other| && other[k] == x;
      assert entries[k] in entries;
    }
  }

  /** After a restore every guarded path holds its "before", or is in conflict whatever "after"s are added. */
  lemma GuardedAgain(l: Log, other: seq<Entry>, k: nat, q: Path)
    requires Tracks(l) && Completes(l.entries, other) && k < |other| && other[k].guarded && other[k].path <= q
    ensures
      var fs' := Restore(l.entries, l.fs).0;
      Conflicts(other[k], fs') || Look(other[k].before, q) == Look(fs', q)
  {
    var fs', e := Restore(l.entries, l.fs).0, l.entries[k];
    assert Alone(l.entries, k);
    RestoreEachPath(l.entries, l.fs, k);
    if !Conflicts(e, l.fs) { SubtreeLook(fs', e.path, q); }
  }

  /** A second restore changes nothing, whether or not the log was finished in between. */
  lemma {:induction false} RestoreAgain(l: Log, other: seq<Entry>)
    requires Tracks(l) && Completes(l.entries, other)
    ensures
      var fs' := Restore(l.entries, l.fs).0;
      Restore(other, fs').0 == fs'
  {
    var fs' := Restore(l.entries, l.fs).0;
    CompletedTracks(l.entries, other);
    var again := Restore(other, fs').0;
    if again != fs' {
      var q := DifferSomewhere(again, fs');
      RestoreIs(other, fs', q);
      RestoreIs(l.entries, l.fs, q);
      OriginOfCompleted(l.entries, other, fs', q);
      OriginDepends(l.entries, fs', l.fs, q);
      assert Covered(l.entries, q);
      if e :| e in other && e.guarded && e.path <= q {
        var k :| 0 <= k < |other| && other[k] == e;
        GuardedAgain(l, other, k, q);
        OriginGuarded(l.entries, fs', k, q);
      } else {
        NoGuardedNoConflict(l.entries, other, l.fs, q);
      }
      assert false;
    }
  }

  lemma NoGuardedNoConflict(entries: seq<Entry>, other: seq<Entry>, fs: Files, q: Path)
    requires Completes(entries, other) && !exists e | e in other :: e.guarded && e.path <= q
    ensures !Preserved(entries, fs, q)
  {
    forall k | 0 <= k < |entries| ensures other[k] in other {}
  }

  /** A guarded path is covered by its own entry alone. */
  lemma {:induction false} OriginGuarded(entries: seq<Entry>, fs: Files, k: nat, q: Path)
    requires Separated(entries) && k < |entries| && entries[k].guarded && entries[k].path <= q
    ensures Origin(entries, fs, q) == Look(entries[k].before, q)
  {
    var n := |entries| - 1;
    CoveredSnoc(entries, q);
    if k < n {
      assert entries[..n][k] in entries[..n];
      OriginGuarded(entries[..n], fs, k, q);
    }
  }

  lemma {:induction false} TidyLook(fs0: Files, steps: seq<Step>, q: Path)
    requires Tidy(fs0, steps)
    ensures
      var l := After(fs0, steps);
      Look(Restore(l.entries, l.fs).0, q) == Look(fs0, q) <==> !exists k :: LossAt(fs0, steps, k, q)
  {
    var l := After(fs0, steps);
    HistoryRestores(fs0, steps, q);
    RestoreIs(l.entries, l.fs, q);
    TidyGiven(fs0, steps, q);
  }

  lemma {:induction false} TidyReturns(fs0: Files, steps: seq<Step>)
    requires Tidy(fs0, steps)
    ensures
      var l := After(fs0, steps);
      Restore(l.entries, l.fs).0 == fs0 <==> !exists k, q :: LossAt(fs0, steps, k, q)
  {
    var l := After(fs0, steps);
    var fs' := Restore(l.entries, l.fs).0;
    if k, q :| LossAt(fs0, steps, k, q) {
      TidyLook(fs0, steps, q);
    } else if fs' != fs0 {
      var q := DifferSomewhere(fs', fs0);
      TidyLook(fs0, steps, q);
    }
  }

  /**
   Main result.  A transaction mixes user-scope replacements (nested in any way), external runs, and
   guarded project replacements apart from everything else, and fails anywhere.  Path by path, the
   reverse-order restore gives what the history says (Given).  A second restore changes nothing, and
   conflicts are reported exactly when some guarded replacement failed late.  When nothing was changed
   behind the log, a path is not given back exactly when an external run claimed the file there or a late
   failure damaged it; so the whole file system comes back exactly when neither happened anywhere.
   */
  lemma {:induction false} RestoreReturnsEverything(fs0: Files, steps: seq<Step>)
    ensures
      var l := After(fs0, steps);
      var (fs', conflicts) := Restore(l.entries, l.fs);
      && (forall q :: Look(fs', q) == Given(fs0, steps, q))
      && Restore(l.entries, fs').0 == fs'
      && (conflicts == [] <==> !exists k :: LateAt(fs0, steps, k))
      && (Tidy(fs0, steps) ==>
            && (forall q :: Look(fs', q) == Look(fs0, q) <==> !exists k :: LossAt(fs0, steps, k, q))
            && (fs' == fs0 <==> !exists k, q :: LossAt(fs0, steps, k, q)))
  {
    var l := After(fs0, steps);
    var fs' := Restore(l.entries, l.fs).0;
    HistoryRestores(fs0, steps, []);
    forall q ensures Look(fs', q) == Given(fs0, steps, q) {
      HistoryRestores(fs0, steps, q);
      RestoreIs(l.entries, l.fs, q);
    }
    RestoreAgain(l, l.entries);
    ConflictsExactly(l.entries, l.fs);
    LateConflicts(fs0, steps);
    if Tidy(fs0, steps) {
      forall q ensures Look(fs', q) == Look(fs0, q) <==> !exists k :: LossAt(fs0, steps, k, q) {
        TidyLook(fs0, steps, q);
      }
      TidyReturns(fs0, steps);
    }
  }

  /**
   A failing input: the removal of a quarantined prior directory stops halfway after "after" was written.
   The remains go back under the name, differ from "after", and are preserved and reported.
   */
  lemma {:induction false} HalfRemovalIsKept(fs0: Files, p: Path, sub: Files, rest: Files)
    requires Under(p, rest) && rest != sub
    ensures
      var l := After(fs0, [Guarded(p, sub, TakenBackLate(rest))]);
      Restore(l.entries, l.fs) == (Put(fs0, p, rest), [p])
    ensures Put(fs0, p, rest) == fs0 <==> rest == Subtree(fs0, p)
  {
    var s := Guarded(p, sub, TakenBackLate(rest));
    var start := Log(fs0, []);
    assert After(fs0, []) == start && [s][..0] == [];
    assert Allowed(start, s) && !Seen([], p);
    var l := After(fs0, [s]);
    assert l == Log(Put(fs0, p, rest), [Entry(p, Subtree(fs0, p), Some(sub), true)]);
    SubtreePut(fs0, p, rest);
    PutSubtree(fs0, p);
    assert l.entries[..0] == [] && [p] + [] == [p];
  }

  /**
   The input that fails: the new manifest claims a path where the user has a file nobody recorded.  Even
   when the external run changes nothing at all, the restore deletes that file.
   */
  lemma ClaimedFileIsDeleted(p: Path, text: string)
    ensures
      var fs0: Files := map[p := text];
      var l := After(fs0, [External([p], fs0)]);
      Restore(l.entries, l.fs) == (map[], [])
  {
    var fs0: Files := map[p := text];
    var s := External([p], fs0);
    var start := Log(fs0, []);
    assert After(fs0, []) == start && [s][..0] == [];
    assert Allowed(start, s);
    var none: seq<Path> := [];
    assert [p][..0] == none && AssumeAll(start, none) == start;
    var l := After(fs0, [s]);
    assert l == Perform(start, s) == Log(fs0, [Entry(p, map[], None, false)]);
    assert l.entries[..0] == [] && Put(l.fs, p, map[]) == map[];
  }

  /** Before the commit only guarded entries have an "after". */
  predicate Open(entries: seq<Entry>) { forall e | e in entries && e.after.Some? :: e.guarded }

  lemma {:induction false} HistoryOpen(fs0: Files, steps: seq<Step>)
    ensures Open(After(fs0, steps).entries)
  {
    if steps != [] {
      var rest, s := steps[..|steps| - 1], steps[|steps| - 1];
      HistoryOpen(fs0, rest);
      if s.External? { AssumeOpen(After(fs0, rest), s.created); }
    }
  }

  lemma {:induction false} AssumeOpen(l: Log, created: seq<Path>)
    requires Open(l.entries)
    ensures Open(AssumeAll(l, created).entries)
  {
    if created != [] { AssumeOpen(l, created[..|created| - 1]); }
  }
}
