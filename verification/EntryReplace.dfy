/**
 Replacing one directory entry through a quarantine name.  Other processes may create an entry under
 the destination name whenever it is vacant; the quarantine and temporary names are random and private.
 Every step may raise, and every raise runs the same unwinding handler.
 */
module EntryReplace {
  import opened Common
  import Installer

  /** An entry with everything beneath it. */
  type Content = Installer.Files

  datatype Removal = Removed | Refused | Partly(rest: Content)

  /** Who appears at the vacant name when, what raises where, and what is asked for. */
  datatype Plan = Plan(
    expected: Option<Option<Content>>,    // the required prior content, if one is required
    make: Option<Content>,                // the new content, or None for a removal
    afterQuarantine: Option<Content>, beforeCheck: Option<Content>,
    beforeInstall: Option<Content>, beforeRestore: Option<Content>,
    inspectFails: bool, backupFails: bool, makeFails: bool, afterFails: bool, removal: Removal)

  /** `foreign` is the entry another process last managed to create under the name. */
  datatype Dir = Dir(name: Option<Content>, quarantine: Option<Content>, temporary: Option<Content>,
                     foreign: Option<Content>)

  function Appear(d: Dir, f: Option<Content>): Dir {
    if d.name.None? && f.Some? then d.(name := f, foreign := f) else d
  }

  /** The exception handler: drop what was installed, and give the prior entry its name back if it is free. */
  function Unwind(p: Plan, d: Dir, moved: bool, installed: bool): Dir {
    var d1 := d.(temporary := None, name := if installed then None else d.name);
    var d2 := Appear(d1, p.beforeRestore);
    if moved && d2.name.None? then d2.(name := d2.quarantine, quarantine := None) else d2
  }

  function Conclude(p: Plan, d: Dir, moved: bool, installed: bool): (Dir, bool) {
    if p.afterFails then (Unwind(p, d, moved, installed), false)
    else if !moved then (d, true)
    else match p.removal
      case Removed => (d.(quarantine := None), true)
      case Refused => (Unwind(p, d, moved, installed), false)
      case Partly(rest) => (Unwind(p, d.(quarantine := Some(rest)), moved, installed), false)
  }

  function Install(p: Plan, d: Dir, moved: bool): (Dir, bool)
    requires p.make.Some?
  {
    if p.makeFails then (Unwind(p, d.(temporary := p.make), moved, false), false)
    else
      var d1 := Appear(d.(temporary := p.make), p.beforeCheck);
      if d1.name.Some? then (Unwind(p, d1, moved, false), false)
      else
        var d2 := Appear(d1, p.beforeInstall);
        if d2.name.Some? then (Unwind(p, d2, moved, false), false)
        else Conclude(p, d2.(name := d2.temporary, temporary := None), moved, true)
  }

  /** The directory afterwards, and whether the call succeeded. */
  function Replace(p: Plan, prior: Option<Content>): (Dir, bool) {
    var moved := prior.Some?;
    var d := Appear(Dir(None, prior, None, None), p.afterQuarantine);
    if p.inspectFails then (Unwind(p, d, moved, false), false)
    else if p.expected.Some? && p.expected.value != prior then
      if !moved then (Unwind(p, d, moved, false), false)
      else if d.name.None? then (Unwind(p, d.(name := prior, quarantine := None), false, false), false)
      else (Unwind(p, d, moved, false), false)
    else if p.backupFails then (Unwind(p, d, moved, false), false)
    else if p.make.Some? then Install(p, d, moved)
    else Conclude(p, d, moved, false)
  }

  predicate KeepsPrior(d: Dir, prior: Option<Content>) { d.name == prior || d.quarantine == prior }

  /** Some process took the name while it was vacant. */
  predicate Contested(d: Dir) { d.foreign.Some? }

  /**
   Main result.  A foreign entry that appeared while the name was vacant is never overwritten.  On
   failure the prior entry is back under its name, or -- only when a foreign entry holds the name --
   kept in quarantine, exactly as it was unless its removal had failed halfway; and nothing temporary
   remains.
   */
  lemma FailureLosesNothing(p: Plan, prior: Option<Content>)
    ensures
      var (d, ok) := Replace(p, prior);
      && (Contested(d) ==> d.name == d.foreign)
      && d.temporary.None?
      && (!ok && !p.removal.Partly? ==>
            && KeepsPrior(d, prior)
            && (!Contested(d) ==> d.name == prior && d.quarantine.None?)
            && (Contested(d) ==> d.quarantine == prior))
  {
  }

  /**
   Success means the required prior content was there, nobody took the name, and the name now holds
   exactly what was asked for -- except that after a removal a newcomer may hold the name.
   */
  lemma SuccessIsExact(p: Plan, prior: Option<Content>)
    ensures
      var (d, ok) := Replace(p, prior);
      ok ==>
        && (p.expected.Some? ==> p.expected.value == prior)
        && d.quarantine.None? && d.temporary.None?
        && (p.make.Some? ==> d.name == p.make && !Contested(d))
        && (p.make.None? ==> d.name == d.foreign)
  {
  }

  /** The prior entry is where a failed call leaves it: in quarantine if a newcomer has its name, else under it. */
  predicate Kept(d: Dir, prior: Option<Content>) {
    if Contested(d) then d.quarantine == prior else d.name == prior
  }

  /** The call got as far as writing the log's entry. */
  predicate Recorded(p: Plan, prior: Option<Content>) {
    && !p.inspectFails && !p.backupFails
    && (p.expected.Some? ==> p.expected.value == prior)
  }

  /** The call got as far as writing the entry's "after". */
  predicate AfterWritten(p: Plan, prior: Option<Content>) {
    && Recorded(p, prior) && !p.afterFails
    && (p.make.Some? ==>
          !p.makeFails && p.afterQuarantine.None? && p.beforeCheck.None? && p.beforeInstall.None?)
  }

  /** What "after" says: the new entry, or whoever took the name when nothing is made. */
  function Written(p: Plan): Option<Content> { if p.make.Some? then p.make else p.afterQuarantine }

  /** The call got as far as removing the quarantined prior entry. */
  predicate RemovalReached(p: Plan, prior: Option<Content>) { prior.Some? && AfterWritten(p, prior) }

  /**
   A failed call damages the prior entry exactly when it got as far as removing it and the removal
   stopped halfway with something else left.  The remains are then where the prior entry would be, and
   only the backup still has the original.
   */
  lemma DamageExactly(p: Plan, prior: Option<Content>)
    ensures
      var (d, ok) := Replace(p, prior);
      && (!ok && !Kept(d, prior) <==>
            RemovalReached(p, prior) && p.removal.Partly? && Some(p.removal.rest) != prior)
      && (!ok && !Kept(d, prior) ==> Kept(d, Some(p.removal.rest)))
  {
  }

  /** A call succeeds exactly when it gets as far as "after", and the prior entry, if any, goes away whole. */
  lemma SucceedsExactly(p: Plan, prior: Option<Content>)
    ensures Replace(p, prior).1 <==> AfterWritten(p, prior) && (prior.Some? ==> p.removal.Removed?)
  {
  }

  /** Nobody interferes and the quarantined entry goes away whole, if at all. */
  predicate Undisturbed(p: Plan) {
    && p.afterQuarantine.None? && p.beforeCheck.None? && p.beforeInstall.None? && p.beforeRestore.None?
    && !p.removal.Partly?
  }

  /** Undisturbed, a replacement is all or nothing, which is what the undo log builds on. */
  lemma AllOrNothing(p: Plan, prior: Option<Content>)
    requires Undisturbed(p)
    ensures
      var (d, ok) := Replace(p, prior);
      d == Dir(if ok then p.make else prior, None, None, None)
  {
    FailureLosesNothing(p, prior);
    SuccessIsExact(p, prior);
  }

  class Parent {
    var name: Option<Content>
    var quarantine: Option<Content>
    var temporary: Option<Content>
    ghost var foreign: Option<Content>

    constructor (name: Option<Content>)
      ensures View() == Dir(name, None, None, None)
    {
      this.name, quarantine, temporary, foreign := name, None, None, None;
    }

    ghost function View(): Dir
      reads this
    {
      Dir(name, quarantine, temporary, foreign)
    }

    /** Another process gets its turn. */
    method Interference(f: Option<Content>)
      modifies this
      ensures View() == Appear(old(View()), f)
    {
      if name.None? && f.Some? { name, foreign := f, f; }
    }

    /** rename_no_replace back from quarantine; false is FileExistsError. */
    method TryRestore() returns (done: bool)
      modifies this
      ensures done == old(name).None?
      ensures View() == if done then old(View()).(name := old(quarantine), quarantine := None) else old(View())
    {
      if name.Some? { return false; }
      name, quarantine := quarantine, None;
      return true;
    }

    method Handle(p: Plan, moved: bool, installed: bool)
      modifies this
      ensures View() == Unwind(p, old(View()), moved, installed)
    {
      temporary := None;
      if installed { name := None; }
      Interference(p.beforeRestore);
      if moved { var _ := TryRestore(); }
    }

    /** replace_anchored_entry. */
    method ReplaceEntry(p: Plan) returns (ok: bool)
      requires quarantine.None? && temporary.None? && foreign.None?
      modifies this
      ensures (View(), ok) == Replace(p, old(name))
    {
      var moved, installed := false, false;
      ghost var prior := name;
      var current := name;
      if name.Some? {
        quarantine, name := name, None;
        moved := true;
      }
      Interference(p.afterQuarantine);
      if p.inspectFails { Handle(p, moved, installed); return false; }
      if p.expected.Some? && current != p.expected.value {
        if moved {
          var done := TryRestore();
          if done { moved := false; }
        }
        Handle(p, moved, installed);
        return false;
      }
      if p.backupFails { Handle(p, moved, installed); return false; }
      if p.make.Some? {
        temporary := p.make;
        if p.makeFails { Handle(p, moved, installed); return false; }
        Interference(p.beforeCheck);
        if name.Some? { Handle(p, moved, installed); return false; }
        Interference(p.beforeInstall);
        if name.Some? { Handle(p, moved, installed); return false; }
        name, temporary := temporary, None;
        installed := true;
      }
      if p.afterFails { Handle(p, moved, installed); return false; }
      if moved {
        if p.removal.Partly? { quarantine := Some(p.removal.rest); }
        if !p.removal.Removed? { Handle(p, moved, installed); return false; }
        quarantine := None;
      }
      return true;
    }
  }
}
