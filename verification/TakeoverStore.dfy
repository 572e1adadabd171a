/**
 The takeover directory and evidence file as one mutable object, with consume and recovery written
 as the step-by-step procedures they are.  Both are proved to perform exactly the prefix of their
 plan that their process lives to perform, so the results of Takeover and TakeoverRuns apply to them.
 */
module TakeoverStore {
  import opened Common
  import opened Takeover

  /** How one call ends: it finishes, is killed, or meets an exception, after `after` durable steps. */
  datatype Stop = Never | Dies(after: nat) | Raises(after: nat, aside: Name)

  datatype Verdict = Refused | Killed | Escaped | Succeeded | SucceededByRecovery | RefusedAfterRecovery

  /** The inputs of one consume call; `policy` is the verdict of the git re-gate under the lock. */
  datatype Request = Request(run: string, at: int, record: Name, rec: Ino, snapshot: Bytes,
                             locked: bool, policy: bool, provisional: Name, consumed: Name, ino: Ino)

  /** The intent consume would write, or None for every reason it refuses. */
  function Admit(w: World, q: Request): Option<Intent> {
    if q.locked && w.evidence.bytes == q.snapshot && q.snapshot.Ledger?
       && q.record in w.dir && w.dir[q.record] == q.rec
       && q.policy && Cleared(q.snapshot, q.run, q.at).Some? && w.intent.Absent?
    then Some(Intent(q.record, q.provisional, q.consumed, q.rec, q.snapshot,
                     Cleared(q.snapshot, q.run, q.at).value, w.evidence, Prepared))
    else None
  }

  /**
   Admission establishes the basis every result about the transaction starts from.  One thing it does not
   look at: whether the record, and so the intent made from it, names this store.  Where it does not, a later
   recovery takes the intent for an unreadable one; only consume's caller checks it.
   */
  lemma AdmitGivesBasis(w: World, q: Request)
    requires Admit(w, q).Some? && w.log == [] && q.ino != w.evidence.ino
    requires q.provisional !in w.dir && q.consumed !in w.dir && q.provisional != q.consumed
    requires forall n | n in w.dir && w.dir[n] == q.rec :: n == q.record
    ensures Basis(Admit(w, q).value, w, q.ino)
    ensures Admit(w, q).value.original != Admit(w, q).value.desired
            <==> !AlreadyCleared(q.snapshot, q.run, q.at)
  {
    ClearedDiffers(q.snapshot, q.run, q.at);
    assert Holders(w.dir, q.rec) == {q.record};
  }

  /** What consume checks under the lock before it writes anything. */
  predicate Admissible(w: World, q: Request) {
    && q.locked && q.policy && w.intent.Absent?
    && q.record in w.dir && w.dir[q.record] == q.rec
    && w.evidence.bytes == q.snapshot && q.snapshot.Ledger? && q.snapshot.autonomy.Some?
    && (q.run in q.snapshot.autonomy.value ==> q.snapshot.autonomy.value[q.run].Row?)
  }

  lemma AdmittedExactly(w: World, q: Request)
    ensures Admit(w, q).Some? <==> Admissible(w, q)
    ensures Admit(w, q).Some? ==> ClearsOnly(w.evidence.bytes, Admit(w, q).value.desired, q.run, q.at)
  {
    ClearedExactly(q.snapshot, q.run, q.at);
  }

  /** A consume that gets through, without other records under the inode: what it leaves. */
  lemma {:induction false} ConsumedState(t: Intent, w0: World, ino: Ino)
    requires t.active in w0.dir && w0.dir[t.active] == t.rec && DistinctNames(t)
    requires t.provisional !in w0.dir && t.consumed !in w0.dir
    ensures
      var w := ApplyAll(ConsumePlan(t, ino), w0);
      && w.dir == (w0.dir - {t.active})[t.consumed := t.rec]
      && w.evidence == Evidence(t.desired, ino) && w.intent == Absent && w.log == w0.log + [TakeoverOk]
  {
    var plan := ConsumePlan(t, ino);
    assert plan[..5][..5] == plan[..5] && plan[5..][..5] == plan[5..];
    var w5 := ApplyAll(plan[..5], w0);
    Unfold(plan[..5], 5, w0);
    assert w5.dir == (w0.dir - {t.active})[t.provisional := t.rec];
    Unfold(plan[5..], 5, w5);
    ApplyTwice(plan[..5], plan[5..], w0);
    assert plan == plan[..5] + plan[5..];
  }

  lemma {:induction false} ApplyTwice(a: seq<Op>, b: seq<Op>, w: World)
    ensures ApplyAll(a + b, w) == ApplyAll(b, ApplyAll(a, w))
    decreases |a|
  {
    if a == [] {
      assert a + b == b;
    } else {
      assert (a + b)[1..] == a[1..] + b;
      ApplyTwice(a[1..], b, Apply(a[0], w));
    }
  }

  function Limit(stop: Stop): nat {
    match stop case Never => 10 case Dies(k) => k case Raises(k, _) => k
  }

  class Store {
    var dir: map<Name, Ino>
    var evidence: Evidence
    var intent: IntentFile
    var log: seq<Line>

    constructor (dir: map<Name, Ino>, evidence: Evidence)
      ensures View() == World(dir, evidence, Absent, [])
    {
      this.dir, this.evidence, this.intent, this.log := dir, evidence, Absent, [];
    }

    function View(): World
      reads this
    {
      World(dir, evidence, intent, log)
    }

    method Move(src: Name, dst: Name)
      requires src in dir
      modifies `dir
      ensures View() == Apply(Rename(src, dst), old(View()))
    {
      dir := (dir - {src})[dst := dir[src]];
    }

    /** Intent, provisional rename and evidence replacement. */
    method UpToReplace(t: Intent, ino: Ino, left: nat)
      requires t.active in dir
      modifies this
      ensures View() == ApplyAll(ConsumePlan(t, ino)[..Min(left, REPLACED)], old(View()))
    {
      ghost var w0, plan := View(), ConsumePlan(t, ino);
      if left == 0 { return; }
      intent := Present(t);
      ApplyAllSnoc(plan, 0, w0);
      if left == 1 { return; }
      Move(t.active, t.provisional);
      ApplyAllSnoc(plan, 1, w0);
      if left == 2 { return; }
      intent := Present(t.(phase := RecordProvisional));
      ApplyAllSnoc(plan, 2, w0);
      if left == 3 { return; }
      evidence := Evidence(t.desired, ino);
      ApplyAllSnoc(plan, 3, w0);
    }

    /** Final rename, acknowledgement and deletion of the intent. */
    method FromReplace(t: Intent, ino: Ino, left: nat, ghost w0: World)
      requires t.active in w0.dir && left > REPLACED
      requires View() == ApplyAll(ConsumePlan(t, ino)[..REPLACED], w0)
      modifies this
      ensures View() == ApplyAll(ConsumePlan(t, ino)[..Min(left, 10)], w0)
    {
      ghost var plan := ConsumePlan(t, ino);
      assert t.provisional in dir by {
        assert plan[..REPLACED][..REPLACED] == plan[..REPLACED];
        Unfold(plan[..REPLACED], REPLACED, w0);
      }
      intent := Present(t.(phase := EvidenceReplaced));
      ApplyAllSnoc(plan, 4, w0);
      if left == 5 { return; }
      Move(t.provisional, t.consumed);
      ApplyAllSnoc(plan, 5, w0);
      if left == 6 { return; }
      intent := Present(t.(phase := RecordConsumed));
      ApplyAllSnoc(plan, 6, w0);
      if left == 7 { return; }
      intent := Present(t.(phase := Acknowledged));
      ApplyAllSnoc(plan, 7, w0);
      if left == 8 { return; }
      log := log + [TakeoverOk];
      ApplyAllSnoc(plan, 8, w0);
      if left == 9 { return; }
      intent := Absent;
      ApplyAllSnoc(plan, 9, w0);
    }

    /** An exception while the intent is first written escapes; any later one runs recovery under the lock. */
    method Consume(q: Request, stop: Stop) returns (r: Verdict)
      requires q.provisional !in dir && q.consumed !in dir && q.provisional != q.consumed
      modifies this
      ensures Admit(old(View()), q).None? ==> r == Refused && View() == old(View())
      ensures Admit(old(View()), q).Some? ==>
        var w := ApplyAll(ConsumePlan(Admit(old(View()), q).value, q.ino)[..Min(Limit(stop), 10)], old(View()));
        if Limit(stop) >= 10 then r == Succeeded && View() == w
        else if stop.Dies? then r == Killed && View() == w
        else if stop.after == 0 then r == Escaped && View() == w
        else
          var (outcome, ops) := Takeover.Recover(w, w.intent, stop.aside);
          && View() == ApplyAll(ops, w)
          && r == (if outcome == RecoveredSuccess then SucceededByRecovery else RefusedAfterRecovery)
      ensures r == Refused <==> !Admissible(old(View()), q)
      ensures r == Succeeded <==> Admissible(old(View()), q) && Limit(stop) >= 10
      ensures r == Succeeded ==>
        && ClearsOnly(old(evidence.bytes), evidence.bytes, q.run, q.at) && evidence.ino == q.ino
        && dir == (old(dir) - {q.record})[q.consumed := q.rec]
        && intent == Absent && log == old(log) + [TakeoverOk]
    {
      AdmittedExactly(View(), q);
      var admitted := Admit(View(), q);
      if admitted.None? { return Refused; }
      var t := admitted.value;
      var left := Limit(stop);
      ghost var w0 := View();
      UpToReplace(t, q.ino, left);
      if left > REPLACED { FromReplace(t, q.ino, left, w0); }
      if left >= 10 {
        assert ConsumePlan(t, q.ino)[..10] == ConsumePlan(t, q.ino);
        ConsumedState(t, w0, q.ino);
        return Succeeded;
      }
      if stop.Dies? { return Killed; }
      if left == 0 { return Escaped; }
      ghost var ops := Takeover.Recover(View(), intent, stop.aside).1;
      assert ops[..|ops|] == ops;
      var outcome := Reconcile(intent, stop.aside, 5);
      return if outcome == Some(RecoveredSuccess) then SucceededByRecovery else RefusedAfterRecovery;
    }

    /** The stat loop over the three recorded names. */
    method Find(i: Intent) returns (at: Option<Name>)
      ensures at == Locate(dir, i)
    {
      var names := [i.active, i.provisional, i.consumed];
      var k := 0;
      at := None;
      while k < 3 && at.None?
        invariant 0 <= k <= 3
        invariant at.None? && k > 0 ==> i.active !in dir || dir[i.active] != i.rec
        invariant at.None? && k > 1 ==> i.provisional !in dir || dir[i.provisional] != i.rec
        invariant at.None? && k > 2 ==> i.consumed !in dir || dir[i.consumed] != i.rec
        invariant at.Some? ==> at == Locate(dir, i)
        decreases 3 - k
      {
        if names[k] in dir && dir[names[k]] == i.rec { at := Some(names[k]); }
        k := k + 1;
      }
    }

    /** Recovery with an intent image read earlier; None means the process died after `limit` steps. */
    method Reconcile(image: IntentFile, aside: Name, limit: nat) returns (outcome: Option<Outcome>)
      modifies this
      ensures
        var (o, ops) := Takeover.Recover(old(View()), image, aside);
        && View() == ApplyAll(ops[..Min(limit, |ops|)], old(View()))
        && outcome == (if |ops| <= limit then Some(o) else None)
    {
      ghost var w0 := View();
      ghost var plan := Takeover.Recover(w0, image, aside).1;
      assert plan[..|plan|] == plan;
      Unfold(plan, Min(limit, |plan|), w0);
      if image.Absent? { return Some(NoIntent); }
      if image.Unreadable? { return Some(Unexplained); }
      var i := image.intent;
      var at := Find(i);
      var n := limit;
      if evidence.bytes == i.original || evidence.bytes == i.desired {
        if at.None? { return Some(Unexplained); }
        var forward := evidence.bytes != i.original;
        var goal := if forward then i.consumed else i.active;
        if at.value != goal {
          if n == 0 { return None; }
          Move(at.value, goal);
          n := n - 1;
        }
        if forward {
          if n == 0 { return None; }
          intent := Present(i.(phase := Acknowledged));
          if n == 1 { return None; }
          log := log + [TakeoverOk];
          n := n - 2;
        }
        if n == 0 { return None; }
        intent := Absent;
        return Some(if forward then RecoveredSuccess else RolledBack);
      }
      if evidence.bytes.Ledger? && evidence.ino != i.generation.ino && evidence.bytes != i.generation.bytes {
        if at == Some(i.provisional) {
          if n == 0 { return None; }
          Move(i.provisional, if i.active in dir then aside else i.active);
          n := n - 1;
        }
        if n == 0 { return None; }
        intent := Present(i.(phase := Superseded));
        if n == 1 { return None; }
        log := log + [TakeoverSuperseded];
        if n == 2 { return None; }
        log := log + [Unblock];
        if n == 3 { return None; }
        intent := Absent;
        return Some(SupersededOutcome);
      }
      return Some(Unexplained);
    }
  }
}
