/**
 Every interleaving of one consume transaction with recoverers, locked ledger writers and
 crashes.

 One advisory lock serialises consume, recovery and ordinary evidence writers; a recoverer
 however reads the intent *before* it holds the lock.  `read` is the set of intent images some
 recoverer has read and may still act on, which covers any number of recoverers.  A holder of
 the lock is the list of durable operations it has left; dying simply drops that list.
 */
module TakeoverRuns {
  import opened Common
  import opened Takeover

  datatype State = State(w: World, holder: Option<seq<Op>>, read: set<IntentFile>)

  datatype Event =
    | Tick                               // the lock holder performs its next durable operation, or unlocks
    | Tear                               // consume dies while writing its intent file
    | Crash                              // the lock holder dies
    | Fault(aside: Name)                 // a caught exception: recovery under the same lock
    | Look                               // a recoverer reads the intent file
    | Enter(image: IntentFile, aside: Name)  // that recoverer gets the lock and classifies
    | Write(evidence: Evidence)          // an ordinary locked writer replaces evidence.json
    | Newcomer(ino: Ino)                 // a new record appears under the vacant active name

  /**
   What the environment may do: `stale` lets a recoverer act on an image whose intent has since
   been deleted; `echo` lets an ordinary writer publish bytes equal to the transaction's desired ones.
   */
  datatype Mode = Mode(stale: bool, echo: bool)

  predicate Fresh(t: Intent, w: World, aside: Name) {
    aside !in w.dir && aside != t.active && aside != t.provisional && aside != t.consumed
  }

  predicate Enabled(t: Intent, m: Mode, s: State, e: Event) {
    match e
    case Tick => s.holder.Some?
    case Tear => s.holder.Some? && |s.holder.value| == 10
    case Crash => s.holder.Some?
    case Fault(aside) => s.holder.Some? && Fresh(t, s.w, aside)
    case Look => true
    case Enter(image, aside) =>
      && s.holder.None? && image in s.read && Fresh(t, s.w, aside)
      && (m.stale || s.w.intent.Present?)
    case Write(ev) => s.holder.None? && ev.ino != s.w.evidence.ino && (m.echo || ev.bytes != t.desired)
    case Newcomer(ino) => t.active !in s.w.dir && ino != t.rec
  }

  function Step(t: Intent, m: Mode, s: State, e: Event): State {
    if !Enabled(t, m, s, e) then s
    else match e
      case Tick =>
        if s.holder.value == [] then s.(holder := None)
        else s.(w := Apply(s.holder.value[0], s.w), holder := Some(s.holder.value[1..]))
      case Tear => s.(w := s.w.(intent := Unreadable), holder := None)
      case Crash => s.(holder := None)
      case Fault(aside) => s.(holder := Some(Recover(s.w, s.w.intent, aside).1))
      case Look => s.(read := s.read + {s.w.intent})
      case Enter(image, aside) => s.(holder := Some(Recover(s.w, image, aside).1))
      case Write(ev) => s.(w := s.w.(evidence := ev))
      case Newcomer(ino) => s.(w := s.w.(dir := s.w.dir[t.active := ino]))
  }

  /** The state after a history of events, starting as consume, holding the lock, passed its checks. */
  function After(t: Intent, m: Mode, w0: World, ino: Ino, events: seq<Event>): State {
    if events == [] then State(w0, Some(ConsumePlan(t, ino)), {})
    else Step(t, m, After(t, m, w0, ino, events[..|events| - 1]), events[|events| - 1])
  }

  // ---------------------------------------------------------------- what the remaining operations may rely on

  predicate Acked(log: seq<Line>) { TakeoverOk in log || TakeoverSuperseded in log }

  predicate Careful(m: Mode) { !(m.stale && m.echo) }

  predicate OneName(dir: map<Name, Ino>, rec: Ino, n: Name) { Holders(dir, rec) == {n} }

  predicate Pre(t: Intent, m: Mode, op: Op, w: World) {
    match op
    case Publish(i) => SameTxn(t, i)
    case Rename(a, b) =>
      && a != b && OneName(w.dir, t.rec, a)
      && (b == t.consumed && Careful(m) ==> !w.intent.Absent? || Acked(w.log))
    case Replace(e) => e.bytes == t.desired && !w.intent.Absent?
    case Emit(l) =>
      l.TakeoverOk? ==> OneName(w.dir, t.rec, t.consumed) && w.evidence.bytes == t.desired
    case DropIntent =>
      Careful(m) ==> && (OneName(w.dir, t.rec, t.consumed) ==> Acked(w.log))
                     && (!m.echo && w.evidence.bytes == t.desired && t.desired != t.original ==> Acked(w.log))
  }

  predicate Sound(t: Intent, m: Mode, ops: seq<Op>, w: World) {
    ops == [] || (Pre(t, m, ops[0], w) && Sound(t, m, ops[1..], Apply(ops[0], w)))
  }

  /** Only where the record's inode is listed matters, not what else the directory holds. */
  lemma {:induction false} SoundCongruence(t: Intent, m: Mode, ops: seq<Op>, w: World, w': World)
    requires Holders(w.dir, t.rec) == Holders(w'.dir, t.rec)
    requires w.evidence == w'.evidence && w.intent == w'.intent && w.log == w'.log
    requires Sound(t, m, ops, w)
    ensures Sound(t, m, ops, w')
    decreases |ops|
  {
    if ops != [] {
      if ops[0].Rename? {
        RenameMovesRecord(w, t.rec, ops[0].src, ops[0].dst);
        RenameMovesRecord(w', t.rec, ops[0].src, ops[0].dst);
      }
      SoundCongruence(t, m, ops[1..], Apply(ops[0], w), Apply(ops[0], w'));
    }
  }

  /** The inductive invariant of every history. */
  ghost predicate Inv(t: Intent, m: Mode, s: State) {
    && (exists n :: OneName(s.w.dir, t.rec, n))
    && (t.provisional in s.w.dir ==> s.w.dir[t.provisional] == t.rec)
    && (t.consumed in s.w.dir ==> s.w.dir[t.consumed] == t.rec)
    && (s.w.intent.Present? ==> SameTxn(t, s.w.intent.intent))
    && (forall image | image in s.read && image.Present? :: SameTxn(t, image.intent))
    && (s.w.intent.Unreadable? ==>
          && (s.holder.None? || s.holder.value == [])
          && forall image | image in s.read :: !image.Present?)
    && (s.holder.Some? ==> Sound(t, m, s.holder.value, s.w))
    && (s.holder.Some? ==> |s.holder.value| <= 10)
    && (s.holder.Some? && |s.holder.value| == 10 ==>
          s.w.intent.Absent? && forall image | image in s.read :: !image.Present?)
    && (Careful(m) && OneName(s.w.dir, t.rec, t.consumed) && s.w.intent.Absent? ==> Acked(s.w.log))
    && (Careful(m) && !m.echo && s.w.intent.Absent? && t.desired != t.original ==>
          s.w.evidence.bytes == t.desired ==> Acked(s.w.log))
  }

  // ---------------------------------------------------------------- both plans respect their preconditions

  lemma {:induction false} ConsumePre(t: Intent, m: Mode, w0: World, ino: Ino, k: nat)
    requires Basis(t, w0, ino) && k < 10
    ensures Pre(t, m, ConsumePlan(t, ino)[k], ApplyAll(ConsumePlan(t, ino)[..k], w0))
  {
    ConsumePrefix(t, w0, ino, k);
    HoldersOfDirWith(t, w0, ino, Stage(t, k));
  }

  lemma HoldersOfDirWith(t: Intent, w0: World, ino: Ino, n: Name)
    requires Basis(t, w0, ino)
    ensures OneName(DirWith(t, w0, n), t.rec, n)
  {
  }

  lemma {:induction false} ConsumeSound(t: Intent, m: Mode, w0: World, ino: Ino, k: nat)
    requires Basis(t, w0, ino) && k <= 10
    ensures Sound(t, m, ConsumePlan(t, ino)[k..], ApplyAll(ConsumePlan(t, ino)[..k], w0))
    decreases 10 - k
  {
    if k < 10 {
      ConsumePre(t, m, w0, ino, k);
      ConsumeSound(t, m, w0, ino, k + 1);
      SoundHead(t, m, ConsumePlan(t, ino), w0, k);
    }
  }

  lemma {:induction false} SoundHead(t: Intent, m: Mode, plan: seq<Op>, w0: World, k: nat)
    requires k < |plan| && Pre(t, m, plan[k], ApplyAll(plan[..k], w0))
    requires Sound(t, m, plan[k + 1..], ApplyAll(plan[..k + 1], w0))
    ensures Sound(t, m, plan[k..], ApplyAll(plan[..k], w0))
  {
    ApplyAllSnoc(plan, k, w0);
    assert plan[k..][0] == plan[k] && plan[k..][1..] == plan[k + 1..];
  }

  lemma {:induction false} SoundMove(t: Intent, m: Mode, at: Name, goal: Name, rest: seq<Op>, w: World)
    requires at == goal || Pre(t, m, Rename(at, goal), w)
    requires OneName(w.dir, t.rec, at)
    requires
      var w' := if at == goal then w else Apply(Rename(at, goal), w);
      OneName(w'.dir, t.rec, goal) ==> Sound(t, m, rest, w')
    ensures Sound(t, m, MoveTo(at, goal) + rest, w)
  {
    if at == goal {
      assert MoveTo(at, goal) + rest == rest;
    } else {
      RenameMovesRecord(w, t.rec, at, goal);
      assert (MoveTo(at, goal) + rest)[1..] == rest;
    }
  }

  lemma {:induction false} SoundTail(t: Intent, m: Mode, i: Intent, line: Line, more: seq<Op>, w: World)
    requires SameTxn(t, i) && Pre(t, m, Emit(line), w)
    requires line.TakeoverOk? || line.TakeoverSuperseded?
    requires more == [DropIntent] || more == [Emit(Unblock), DropIntent]
    ensures Sound(t, m, [Publish(i), Emit(line)] + more, w)
  {
    var ops := [Publish(i), Emit(line)] + more;
    var w1 := Apply(ops[0], w);
    var w2 := Apply(ops[1], w1);
    assert w2.log[|w2.log| - 1] == line;
    assert ops[1..][1..] == more;
    if more == [Emit(Unblock), DropIntent] {
      var w3 := Apply(more[0], w2);
      assert w3.log[|w2.log| - 1] == line;
      assert more[1..] == [DropIntent];
      assert Sound(t, m, more[1..], w3);
    }
    assert Sound(t, m, more, w2);
    assert Sound(t, m, ops[1..], w1);
  }

  lemma {:induction false} RollBackSound(t: Intent, m: Mode, w: World, n: Name)
    requires OneName(w.dir, t.rec, n) && w.evidence.bytes == t.original && t.active != t.consumed
    ensures Sound(t, m, MoveTo(n, t.active) + [DropIntent], w)
  {
  }

  lemma {:induction false} CompleteSound(t: Intent, m: Mode, w: World, i: Intent, n: Name)
    requires OneName(w.dir, t.rec, n) && SameTxn(t, i) && w.evidence.bytes == t.desired
    requires Careful(m) ==> !w.intent.Absent? || Acked(w.log)
    ensures Sound(t, m, MoveTo(n, t.consumed)
                        + [Publish(i.(phase := Acknowledged)), Emit(TakeoverOk), DropIntent], w)
  {
    var w' := if n == t.consumed then w else Apply(Rename(n, t.consumed), w);
    if n != t.consumed { RenameMovesRecord(w, t.rec, n, t.consumed); }
    SoundTail(t, m, i.(phase := Acknowledged), TakeoverOk, [DropIntent], w');
    var rest := [Publish(i.(phase := Acknowledged)), Emit(TakeoverOk), DropIntent];
    assert [Publish(i.(phase := Acknowledged)), Emit(TakeoverOk)] + [DropIntent] == rest;
    SoundMove(t, m, n, t.consumed, rest, w);
  }

  lemma {:induction false} SupersedeSound(t: Intent, m: Mode, w: World, i: Intent, n: Name, goal: Name)
    requires OneName(w.dir, t.rec, n) && SameTxn(t, i) && (goal == n || goal != t.consumed)
    ensures Sound(t, m, MoveTo(n, goal)
                        + [Publish(i.(phase := Superseded)), Emit(TakeoverSuperseded), Emit(Unblock), DropIntent], w)
  {
    var rest := [Publish(i.(phase := Superseded)), Emit(TakeoverSuperseded), Emit(Unblock), DropIntent];
    assert [Publish(i.(phase := Superseded)), Emit(TakeoverSuperseded)] + [Emit(Unblock), DropIntent] == rest;
    SoundTail(t, m, i.(phase := Superseded), TakeoverSuperseded, [Emit(Unblock), DropIntent],
              if n == goal then w else Apply(Rename(n, goal), w));
    SoundMove(t, m, n, goal, rest, w);
  }

  lemma {:induction false} RecoverSound(t: Intent, m: Mode, s: State, image: IntentFile, aside: Name)
    requires Inv(t, m, s) && Fresh(t, s.w, aside)
    requires DistinctNames(t)
    requires image.Present? ==> SameTxn(t, image.intent) && !s.w.intent.Unreadable?
    requires m.stale || s.w.intent.Present? || image == s.w.intent
    ensures Sound(t, m, Recover(s.w, image, aside).1, s.w)
  {
    if image.Present? {
      var i, w := image.intent, s.w;
      var n :| OneName(w.dir, t.rec, n);
      var at := Locate(w.dir, i);
      if at.Some? { assert at.value in Holders(w.dir, t.rec); assert at.value == n; }
      if w.evidence.bytes == i.original {
        if at.Some? { RollBackSound(t, m, w, n); }
      } else if w.evidence.bytes == i.desired {
        if at.Some? { CompleteSound(t, m, w, i, n); }
      } else {
        var goal := if at != Some(i.provisional) then n else if i.active in w.dir then aside else i.active;
        SupersedeSound(t, m, w, i, n, goal);
        assert [] + [Publish(i.(phase := Superseded)), Emit(TakeoverSuperseded), Emit(Unblock), DropIntent]
            == [Publish(i.(phase := Superseded)), Emit(TakeoverSuperseded), Emit(Unblock), DropIntent];
      }
    }
  }

  // ---------------------------------------------------------------- the invariant holds in every history

  lemma TickKeeps(t: Intent, m: Mode, s: State)
    requires Inv(t, m, s) && s.holder.Some?
    requires DistinctNames(t)
    ensures Inv(t, m, Step(t, m, s, Tick))
  {
    var s' := Step(t, m, s, Tick);
    var n :| OneName(s.w.dir, t.rec, n);
    if s.holder.value != [] {
      var op := s.holder.value[0];
      assert Pre(t, m, op, s.w);
      if op.Rename? {
        RenameMovesRecord(s.w, t.rec, op.src, op.dst);
        assert OneName(s'.w.dir, t.rec, op.dst);
      } else {
        assert OneName(s'.w.dir, t.rec, n);
      }
    }
  }

  lemma StepKeeps(t: Intent, m: Mode, s: State, e: Event)
    requires Inv(t, m, s)
    requires DistinctNames(t)
    ensures Inv(t, m, Step(t, m, s, e))
  {
    if Enabled(t, m, s, e) {
      var n :| OneName(s.w.dir, t.rec, n);
      var s' := Step(t, m, s, e);
      match e
      case Tick => TickKeeps(t, m, s);
      case Fault(aside) => RecoverSound(t, m, s, s.w.intent, aside);
      case Enter(image, aside) => RecoverSound(t, m, s, image, aside);
      case Newcomer(ino) =>
        assert Holders(s'.w.dir, t.rec) == Holders(s.w.dir, t.rec);
        assert OneName(s'.w.dir, t.rec, n);
        if s.holder.Some? { SoundCongruence(t, m, s.holder.value, s.w, s'.w); }
      case _ =>
        assert OneName(s'.w.dir, t.rec, n);
    }
  }

  lemma {:induction false} AlwaysInv(t: Intent, m: Mode, w0: World, ino: Ino, events: seq<Event>)
    requires Basis(t, w0, ino)
    ensures Inv(t, m, After(t, m, w0, ino, events))
  {
    if events == [] {
      ConsumeSound(t, m, w0, ino, 0);
      assert ConsumePlan(t, ino)[0..] == ConsumePlan(t, ino);
      assert OneName(w0.dir, t.rec, t.active);
    } else {
      AlwaysInv(t, m, w0, ino, events[..|events| - 1]);
      StepKeeps(t, m, After(t, m, w0, ino, events[..|events| - 1]), events[|events| - 1]);
    }
  }

  /** In every reachable state the record's inode is listed under exactly one name. */
  lemma {:induction false} RecordUnderOneName(t: Intent, m: Mode, w0: World, ino: Ino, events: seq<Event>)
    requires Basis(t, w0, ino)
    ensures |Holders(After(t, m, w0, ino, events).w.dir, t.rec)| == 1
  {
    AlwaysInv(t, m, w0, ino, events);
    var s := After(t, m, w0, ino, events);
    var n :| OneName(s.w.dir, t.rec, n);
  }

  /** Whatever happens next, TAKEOVER-OK is printed only over a consumed record and cleared evidence. */
  lemma {:induction false} OkMeansConsumed(t: Intent, m: Mode, w0: World, ino: Ino, events: seq<Event>, e: Event)
    requires Basis(t, w0, ino)
    requires
      var s, s' := After(t, m, w0, ino, events), After(t, m, w0, ino, events + [e]);
      s'.w.log != s.w.log && s'.w.log[|s'.w.log| - 1] == TakeoverOk
    ensures
      var s' := After(t, m, w0, ino, events + [e]);
      Holders(s'.w.dir, t.rec) == {t.consumed} && s'.w.evidence.bytes == t.desired
  {
    AlwaysInv(t, m, w0, ino, events);
    assert (events + [e])[..|events|] == events;
    var s := After(t, m, w0, ino, events);
    assert e.Tick? && s.holder.Some? && s.holder.value != [];
    assert Pre(t, m, s.holder.value[0], s.w);
  }

  /** A consumed record whose intent is gone was announced, unless stale readers meet echoing writers. */
  lemma {:induction false} ConsumedWasAnnounced(t: Intent, m: Mode, w0: World, ino: Ino, events: seq<Event>)
    requires Basis(t, w0, ino) && Careful(m)
    requires
      var s := After(t, m, w0, ino, events);
      t.consumed in s.w.dir && s.w.intent.Absent?
    ensures Acked(After(t, m, w0, ino, events).w.log)
  {
    AlwaysInv(t, m, w0, ino, events);
    var s := After(t, m, w0, ino, events);
    var n :| OneName(s.w.dir, t.rec, n);
    assert t.consumed in Holders(s.w.dir, t.rec);
    assert OneName(s.w.dir, t.rec, t.consumed);
  }

  /**
   The restriction is exact.  With both freedoms, for every transaction with differing bytes there is
   a history that ends with the record consumed, no intent, and not a single line printed: a
   recoverer reads the intent, consume dies, a second recoverer rolls back, a writer publishes the
   desired bytes, and the first recoverer moves the record and dies.
   */
  lemma SilentConsumption(t: Intent, w0: World, ino: Ino, aside: Name) returns (events: seq<Event>)
    requires Basis(t, w0, ino) && t.original != t.desired && Fresh(t, w0, aside)
    ensures
      var s := After(t, Mode(true, true), w0, ino, events);
      && Holders(s.w.dir, t.rec) == {t.consumed} && s.w.intent.Absent?
      && s.holder.None? && s.w.log == []
  {
    var m := Mode(true, true);
    var image := Present(t);
    events := [Tick, Look, Crash, Enter(image, aside), Tick, Tick, Write(Evidence(t.desired, ino)),
               Enter(image, aside), Tick, Crash];
    assert t.active in Holders(w0.dir, t.rec);
    var plan := ConsumePlan(t, ino);
    var w1 := w0.(intent := image);
    var s0 := State(w0, Some(plan), {});
    var s1 := Step(t, m, s0, Tick);
    var s2 := Step(t, m, s1, Look);
    var s3 := Step(t, m, s2, Crash);
    assert s3 == State(w1, None, {image});
    var s4 := Step(t, m, s3, Enter(image, aside));
    assert s4.holder.value == [DropIntent];
    var s5 := Step(t, m, s4, Tick);
    var s6 := Step(t, m, s5, Tick);
    assert s6 == State(w0, None, {image});
    var s7 := Step(t, m, s6, Write(Evidence(t.desired, ino)));
    var s8 := Step(t, m, s7, Enter(image, aside));
    assert s8.holder.value[0] == Rename(t.active, t.consumed);
    var s9 := Step(t, m, s8, Tick);
    RenameMovesRecord(s8.w, t.rec, t.active, t.consumed);
    var s10 := Step(t, m, s9, Crash);
    Replay(t, m, w0, ino, events, [s0, s1, s2, s3, s4, s5, s6, s7, s8, s9, s10]);
  }

  /** A list of states linked by Step is the history's state. */
  lemma {:induction false} Replay(t: Intent, m: Mode, w0: World, ino: Ino, events: seq<Event>, states: seq<State>)
    requires |states| == |events| + 1
    requires states[0] == State(w0, Some(ConsumePlan(t, ino)), {})
    requires forall k | 0 <= k < |events| :: states[k + 1] == Step(t, m, states[k], events[k])
    ensures After(t, m, w0, ino, events) == states[|events|]
  {
    if events != [] {
      var k := |events| - 1;
      Replay(t, m, w0, ino, events[..k], states[..k + 1]);
      assert states[k + 1] == Step(t, m, states[k], events[k]);
    }
  }

  /** A torn intent freezes the transaction: nothing moves and nothing is printed any more. */
  lemma {:induction false} TornIntentIsInert(t: Intent, m: Mode, w0: World, ino: Ino, events: seq<Event>, e: Event)
    requires Basis(t, w0, ino)
    requires After(t, m, w0, ino, events).w.intent.Unreadable?
    ensures
      var s, s' := After(t, m, w0, ino, events), After(t, m, w0, ino, events + [e]);
      && s'.w.intent.Unreadable? && s'.w.log == s.w.log
      && Holders(s'.w.dir, t.rec) == Holders(s.w.dir, t.rec)
      && (s'.w.evidence != s.w.evidence ==> e.Write?)
  {
    AlwaysInv(t, m, w0, ino, events);
    assert (events + [e])[..|events|] == events;
    var s, s' := After(t, m, w0, ino, events), After(t, m, w0, ino, events + [e]);
    if e.Newcomer? && s' != s {
      assert Holders(s'.w.dir, t.rec) == Holders(s.w.dir, t.rec);
    }
  }

  /** A superseded record leaves the provisional name for the active one, or aside if that is taken; else it stays. */
  function SupersededHolders(t: Intent, w: World, aside: Name): set<Name> {
    if Holders(w.dir, t.rec) != {t.provisional} then Holders(w.dir, t.rec)
    else if t.active in w.dir then {aside} else {t.active}
  }

  /** The two final states the transaction is for. */
  predicate Promised(t: Intent, w: World) {
    || (Holders(w.dir, t.rec) == {t.active} && w.evidence.bytes == t.original)
    || (Holders(w.dir, t.rec) == {t.consumed} && w.evidence.bytes == t.desired)
  }

  /** What a completed recovery leaves behind, outcome by outcome. */
  predicate Settled(t: Intent, w: World, aside: Name, outcome: Outcome, w': World) {
    && w'.intent.Absent? && t.provisional !in w'.dir && w'.evidence == w.evidence
    && (outcome == RolledBack ==>
          && Holders(w'.dir, t.rec) == {t.active} && w'.evidence.bytes == t.original
          && w'.log == w.log)
    && (outcome == RecoveredSuccess ==>
          && Holders(w'.dir, t.rec) == {t.consumed} && w'.evidence.bytes == t.desired
          && w'.log == w.log + [TakeoverOk])
    && (outcome == SupersededOutcome ==>
          && w'.evidence.bytes != t.original && w'.evidence.bytes != t.desired
          && Holders(w'.dir, t.rec) == SupersededHolders(t, w, aside)
          && w'.log == w.log + [TakeoverSuperseded, Unblock])
  }

  lemma {:induction false} MoveSettles(t: Intent, w: World, n: Name, goal: Name, rest: seq<Op>)
    requires OneName(w.dir, t.rec, n) && goal != t.provisional
    requires t.provisional in w.dir ==> w.dir[t.provisional] == t.rec
    ensures
      var w1 := ApplyAll(MoveTo(n, goal), w);
      && ApplyAll(MoveTo(n, goal) + rest, w) == ApplyAll(rest, w1)
      && OneName(w1.dir, t.rec, goal) && t.provisional !in w1.dir
      && w1.evidence == w.evidence && w1.log == w.log
  {
    assert t.provisional in w.dir ==> t.provisional in Holders(w.dir, t.rec);
    if n == goal {
      assert MoveTo(n, goal) + rest == rest;
    } else {
      RenameMovesRecord(w, t.rec, n, goal);
      assert (MoveTo(n, goal) + rest)[1..] == rest && MoveTo(n, goal)[1..] == [];
    }
  }

  lemma {:induction false} TailSettles(rest: seq<Op>, w: World)
    requires |rest| <= 5
    ensures ApplyAll(rest, w) == ApplyAll(rest[..|rest|], w)
  {
    assert rest[..|rest|] == rest;
  }

  /** What the lemmas about a completed recovery assume of the state it starts from. */
  predicate Recoverable(t: Intent, w: World, n: Name, i: Intent, aside: Name) {
    && DistinctNames(t)
    && OneName(w.dir, t.rec, n) && SameTxn(t, i) && Fresh(t, w, aside)
    && (t.provisional in w.dir ==> w.dir[t.provisional] == t.rec)
  }

  lemma LocateHolder(t: Intent, w: World, n: Name, i: Intent, aside: Name)
    requires Recoverable(t, w, n, i, aside)
    ensures Locate(w.dir, i).Some? ==> Locate(w.dir, i) == Some(n)
    ensures n == t.provisional ==> Locate(w.dir, i) == Some(n)
  {
    var at := Locate(w.dir, i);
    if at.Some? { assert at.value in Holders(w.dir, t.rec); }
    if n == t.provisional { assert t.provisional in Holders(w.dir, t.rec); }
  }

  lemma {:induction false} RolledBackSettles(t: Intent, w: World, n: Name, i: Intent, aside: Name)
    requires Recoverable(t, w, n, i, aside) && Classify(w, i, aside).0 == RolledBack
    ensures Settled(t, w, aside, RolledBack, ApplyAll(Classify(w, i, aside).1, w))
  {
    LocateHolder(t, w, n, i, aside);
    var rest, w1 := [DropIntent], ApplyAll(MoveTo(n, t.active), w);
    MoveSettles(t, w, n, t.active, rest);
    Unfold(rest, 1, w1);
    TailSettles(rest, w1);
  }

  lemma {:induction false} SuccessSettles(t: Intent, w: World, n: Name, i: Intent, aside: Name)
    requires Recoverable(t, w, n, i, aside) && Classify(w, i, aside).0 == RecoveredSuccess
    ensures Settled(t, w, aside, RecoveredSuccess, ApplyAll(Classify(w, i, aside).1, w))
  {
    LocateHolder(t, w, n, i, aside);
    var rest := [Publish(i.(phase := Acknowledged)), Emit(TakeoverOk), DropIntent];
    var w1 := ApplyAll(MoveTo(n, t.consumed), w);
    MoveSettles(t, w, n, t.consumed, rest);
    Unfold(rest, 3, w1);
    TailSettles(rest, w1);
  }

  lemma {:induction false} SupersededSettles(t: Intent, w: World, n: Name, i: Intent, aside: Name)
    requires Recoverable(t, w, n, i, aside) && Classify(w, i, aside).0 == SupersededOutcome
    ensures Settled(t, w, aside, SupersededOutcome, ApplyAll(Classify(w, i, aside).1, w))
  {
    LocateHolder(t, w, n, i, aside);
    var rest := [Publish(i.(phase := Superseded)), Emit(TakeoverSuperseded), Emit(Unblock), DropIntent];
    var goal := if n != t.provisional then n else if t.active in w.dir then aside else t.active;
    var w1 := ApplyAll(MoveTo(n, goal), w);
    assert Classify(w, i, aside).1 == MoveTo(n, goal) + rest;
    MoveSettles(t, w, n, goal, rest);
    Unfold(rest, 4, w1);
    TailSettles(rest, w1);
  }

  /**
   From every reachable state, a recovery that completes either recognises what it finds -- then no
   intent is left, nothing is under the provisional name, and the record is where the outcome says --
   or it changes nothing at all.  A recognised outcome is one of the two promised states exactly when
   the evidence still holds the original or the desired bytes; with a successor's evidence it is neither.
   */
  lemma {:induction false} RecoveryOutcomes(t: Intent, m: Mode, w0: World, ino: Ino, events: seq<Event>,
                                             image: IntentFile, aside: Name)
    requires Basis(t, w0, ino)
    requires Enabled(t, m, After(t, m, w0, ino, events), Enter(image, aside))
    ensures
      var w := After(t, m, w0, ino, events).w;
      var (outcome, ops) := Recover(w, image, aside);
      if Recognised(outcome) then
        && Settled(t, w, aside, outcome, ApplyAll(ops, w))
        && (Promised(t, ApplyAll(ops, w)) <==> w.evidence.bytes == t.original || w.evidence.bytes == t.desired)
      else ApplyAll(ops, w) == w
  {
    AlwaysInv(t, m, w0, ino, events);
    var w := After(t, m, w0, ino, events).w;
    if Recognised(Recover(w, image, aside).0) {
      var n :| OneName(w.dir, t.rec, n);
      match Recover(w, image, aside).0
      case RolledBack => RolledBackSettles(t, w, n, image.intent, aside);
      case RecoveredSuccess => SuccessSettles(t, w, n, image.intent, aside);
      case SupersededOutcome => SupersededSettles(t, w, n, image.intent, aside);
    }
  }

  // ---------------------------------------------------------------- which outcome it is

  /** The record is still under one of the names the intent gives. */
  predicate Placed(t: Intent, w: World) { Holders(w.dir, t.rec) <= {t.active, t.provisional, t.consumed} }

  /** The evidence of a later locked writer: a parseable ledger in another file, with other content. */
  predicate Succeeds(t: Intent, ev: Evidence) {
    && ev.bytes.Ledger? && ev.ino != t.generation.ino
    && ev.bytes != t.generation.bytes && ev.bytes != t.original && ev.bytes != t.desired
  }

  lemma PlacedExactly(t: Intent, w: World, n: Name, i: Intent)
    requires OneName(w.dir, t.rec, n) && SameTxn(t, i)
    ensures Locate(w.dir, i).Some? <==> Placed(t, w)
  {
    assert n in Holders(w.dir, t.rec);
    if Locate(w.dir, i).Some? { assert Locate(w.dir, i).value in Holders(w.dir, t.rec); }
  }

  /**
   Main result on classification.  From every reachable state with the lock free, an intact image gets its
   outcome from what is on disk: rolled back over the original bytes, success over the desired ones, each if
   the record is under one of its names; superseded over a successor's ledger, wherever the record is; and
   unexplained otherwise.  No image means nothing to do, and an unreadable one is unexplained.
   */
  lemma {:induction false} OutcomeExactly(t: Intent, m: Mode, w0: World, ino: Ino, events: seq<Event>,
                                             image: IntentFile, aside: Name)
    requires Basis(t, w0, ino)
    requires Enabled(t, m, After(t, m, w0, ino, events), Enter(image, aside))
    ensures
      var w := After(t, m, w0, ino, events).w;
      var cur, outcome := w.evidence.bytes, Recover(w, image, aside).0;
      && (outcome == NoIntent <==> image.Absent?)
      && (outcome == RolledBack <==> image.Present? && cur == t.original && Placed(t, w))
      && (outcome == RecoveredSuccess <==>
            image.Present? && cur == t.desired && cur != t.original && Placed(t, w))
      && (outcome == SupersededOutcome <==> image.Present? && Succeeds(t, w.evidence))
      && (!Recognised(outcome) && !image.Absent? <==> outcome == Unexplained)
  {
    AlwaysInv(t, m, w0, ino, events);
    var w := After(t, m, w0, ino, events).w;
    if image.Present? {
      var n :| OneName(w.dir, t.rec, n);
      PlacedExactly(t, w, n, image.intent);
    }
  }

  /**
   Consume dies after any of its steps with the intent on disk, a locked writer publishes another ledger, and
   one recovery completes.  It is superseded, with the record swept from its provisional name, exactly when
   the ledger is in another file than the one consume started from; in a reused one nothing moves at all.
   */
  lemma {:induction false} SuccessorIsRecognised(t: Intent, w0: World, ino: Ino, k: nat, ev: Evidence, aside: Name)
    requires Basis(t, w0, ino) && 1 <= k < 10 && Fresh(t, w0, aside)
    requires ev.bytes.Ledger? && ev.bytes != t.original && ev.bytes != t.desired
    ensures
      var w := ApplyAll(ConsumePlan(t, ino)[..k], w0).(evidence := ev);
      var (outcome, ops) := Recover(w, w.intent, aside);
      var w' := ApplyAll(ops, w);
      if ev.ino != w0.evidence.ino then
        && outcome == SupersededOutcome && Settled(t, w, aside, outcome, w')
        && Holders(w'.dir, t.rec) == {if k < 6 then t.active else t.consumed}
        && w'.log == w.log + [TakeoverSuperseded, Unblock] && w'.intent.Absent? && w'.evidence == ev
      else outcome == Unexplained && w' == w
  {
    ConsumePrefix(t, w0, ino, k);
    var n := Stage(t, k);
    var w := ApplyAll(ConsumePlan(t, ino)[..k], w0).(evidence := ev);
    assert w.dir == DirWith(t, w0, n);
    HoldersOfDirWith(t, w0, ino, n);
    if ev.ino != w0.evidence.ino { SupersededSettles(t, w, n, w.intent.intent, aside); }
  }

  // ---------------------------------------------------------------- a recovery among newcomers

  /** What can happen while a recovery holds the lock and lives. */
  predicate Quiet(e: Event) { e.Tick? || e.Newcomer? || e.Look? }

  function Later(t: Intent, m: Mode, s: State, events: seq<Event>): State
    decreases |events|
  {
    if events == [] then s else Later(t, m, Step(t, m, s, events[0]), events[1..])
  }

  lemma {:induction false} LaterIsAfter(t: Intent, m: Mode, w0: World, ino: Ino, past: seq<Event>, more: seq<Event>)
    ensures After(t, m, w0, ino, past + more) == Later(t, m, After(t, m, w0, ino, past), more)
    decreases |more|
  {
    if more == [] {
      assert past + more == past;
    } else {
      var past' := past + [more[0]];
      assert past'[..|past|] == past && past' + more[1..] == past + more;
      LaterIsAfter(t, m, w0, ino, past', more[1..]);
    }
  }

  /** Two worlds that differ at most in who, other than the record, is under the active name. */
  predicate Alike(t: Intent, v: World, w: World) {
    && v.evidence == w.evidence && v.intent == w.intent && v.log == w.log
    && Holders(v.dir, t.rec) == Holders(w.dir, t.rec)
    && (v.dir - {t.active}) == (w.dir - {t.active})
  }

  lemma TickAlike(t: Intent, m: Mode, op: Op, v: World, w: World)
    requires Alike(t, v, w) && Pre(t, m, op, w)
    ensures Alike(t, Apply(op, v), Apply(op, w))
  {
    if op.Rename? {
      RenameMovesRecord(w, t.rec, op.src, op.dst);
      RenameMovesRecord(v, t.rec, op.src, op.dst);
      var a, b := Apply(op, v).dir - {t.active}, Apply(op, w).dir - {t.active};
      forall n | n != t.active ensures (n in v.dir <==> n in w.dir) && (n in v.dir ==> v.dir[n] == w.dir[n]) {
        assert n in v.dir - {t.active} <==> n in v.dir;
        assert n in w.dir - {t.active} <==> n in w.dir;
        assert n in v.dir ==> (v.dir - {t.active})[n] == (w.dir - {t.active})[n];
      }
      assert a == b;
    }
  }

  lemma NewcomerAlike(t: Intent, v: World, w: World, ino: Ino)
    requires Alike(t, v, w) && t.active !in w.dir && ino != t.rec
    ensures Alike(t, v, w.(dir := w.dir[t.active := ino]))
  {
    var w' := w.(dir := w.dir[t.active := ino]);
    assert Holders(w'.dir, t.rec) == Holders(w.dir, t.rec);
  }

  /** The holder's plan does to the world what it would have done undisturbed, newcomers apart. */
  lemma {:induction false} PlanAmongNewcomers(t: Intent, m: Mode, s: State, v: World, more: seq<Event>)
    requires DistinctNames(t) && Inv(t, m, s) && s.holder.Some? && Alike(t, v, s.w)
    requires (forall e | e in more :: Quiet(e)) && Later(t, m, s, more).holder == Some([])
    ensures Alike(t, ApplyAll(s.holder.value, v), Later(t, m, s, more).w)
    decreases |more|
  {
    if more != [] {
      var e, s' := more[0], Step(t, m, s, more[0]);
      assert e in more;
      StepKeeps(t, m, s, e);
      if e.Tick? && s.holder.value != [] {
        TickAlike(t, m, s.holder.value[0], v, s.w);
        PlanAmongNewcomers(t, m, s', Apply(s.holder.value[0], v), more[1..]);
      } else if e.Tick? {
        LockStaysFree(t, m, s', more[1..]);
      } else {
        if e.Newcomer? && s' != s { NewcomerAlike(t, v, s.w, e.ino); }
        PlanAmongNewcomers(t, m, s', v, more[1..]);
      }
    }
  }

  /** Nobody takes the lock during quiet events. */
  lemma {:induction false} LockStaysFree(t: Intent, m: Mode, s: State, more: seq<Event>)
    requires s.holder.None? && forall e | e in more :: Quiet(e)
    ensures Later(t, m, s, more).holder.None?
    decreases |more|
  {
    if more != [] {
      assert more[0] in more;
      LockStaysFree(t, m, Step(t, m, s, more[0]), more[1..]);
    }
  }

  lemma SettledAlike(t: Intent, w: World, aside: Name, outcome: Outcome, v: World, w': World)
    requires Alike(t, v, w') && Settled(t, w, aside, outcome, v) && t.provisional != t.active
    ensures Settled(t, w, aside, outcome, w') && (Promised(t, v) <==> Promised(t, w'))
  {
    assert t.provisional in v.dir - {t.active} <==> t.provisional in v.dir;
    assert t.provisional in w'.dir - {t.active} <==> t.provisional in w'.dir;
  }

  /**
   A recovery from any reachable state, with new records appearing under the vacant active name between
   any of its steps.  It ends as it would have without them: a recognised outcome settles the transaction,
   an unexplained one changes nothing of it.
   */
  lemma {:induction false} RecoveryAmongNewcomers(t: Intent, m: Mode, w0: World, ino: Ino, past: seq<Event>,
                                                  image: IntentFile, aside: Name, more: seq<Event>)
    requires Basis(t, w0, ino) && Enabled(t, m, After(t, m, w0, ino, past), Enter(image, aside))
    requires forall e | e in more :: Quiet(e)
    requires After(t, m, w0, ino, past + [Enter(image, aside)] + more).holder == Some([])
    ensures
      var w, w' := After(t, m, w0, ino, past).w, After(t, m, w0, ino, past + [Enter(image, aside)] + more).w;
      var outcome := Recover(w, image, aside).0;
      if Recognised(outcome) then
        && Settled(t, w, aside, outcome, w')
        && (Promised(t, w') <==> w.evidence.bytes == t.original || w.evidence.bytes == t.desired)
      else Alike(t, w, w')
  {
    var s := After(t, m, w0, ino, past);
    var s1 := EnteredState(t, m, w0, ino, past, image, aside, more);
    PlanAmongNewcomers(t, m, s1, s1.w, more);
    RecoveryOutcomes(t, m, w0, ino, past, image, aside);
    if Recognised(Recover(s.w, image, aside).0) {
      SettledAlike(t, s.w, aside, Recover(s.w, image, aside).0, ApplyAll(Recover(s.w, image, aside).1, s.w),
                   Later(t, m, s1, more).w);
    }
  }

  lemma EnteredState(t: Intent, m: Mode, w0: World, ino: Ino, past: seq<Event>, image: IntentFile, aside: Name,
                     more: seq<Event>) returns (s1: State)
    requires Basis(t, w0, ino) && Enabled(t, m, After(t, m, w0, ino, past), Enter(image, aside))
    ensures Inv(t, m, s1) && s1.w == After(t, m, w0, ino, past).w
    ensures s1.holder == Some(Recover(s1.w, image, aside).1)
    ensures After(t, m, w0, ino, past + [Enter(image, aside)] + more) == Later(t, m, s1, more)
  {
    var entered := past + [Enter(image, aside)];
    assert entered[..|past|] == past;
    s1 := After(t, m, w0, ino, entered);
    AlwaysInv(t, m, w0, ino, entered);
    LaterIsAfter(t, m, w0, ino, entered, more);
  }

  /** A plan that moves the record, if at all, in its first step. */
  predicate MovesFirst(ops: seq<Op>) { forall k | 0 < k < |ops| :: !ops[k].Rename? }

  predicate MovesToActive(t: Intent, ops: seq<Op>) { ops != [] && ops[0].Rename? && ops[0].dst == t.active }

  lemma {:induction false} OccupantStays(t: Intent, m: Mode, s: State, i: Ino, more: seq<Event>)
    requires Inv(t, m, s) && DistinctNames(t) && s.holder.Some? && forall op | op in s.holder.value :: !op.Rename?
    requires t.active in s.w.dir && s.w.dir[t.active] == i && forall e | e in more :: Quiet(e)
    ensures
      var dir := Later(t, m, s, more).w.dir;
      t.active in dir && dir[t.active] == i
    decreases |more|
  {
    if more != [] {
      assert more[0] in more;
      StepKeeps(t, m, s, more[0]);
      var s' := Step(t, m, s, more[0]);
      if s'.holder.Some? {
        OccupantStays(t, m, s', i, more[1..]);
      } else {
        NobodyActs(t, m, s', i, more[1..]);
      }
    }
  }

  lemma {:induction false} NobodyActs(t: Intent, m: Mode, s: State, i: Ino, more: seq<Event>)
    requires s.holder.None? && t.active in s.w.dir && s.w.dir[t.active] == i && forall e | e in more :: Quiet(e)
    ensures
      var dir := Later(t, m, s, more).w.dir;
      t.active in dir && dir[t.active] == i
    decreases |more|
  {
    if more != [] {
      assert more[0] in more;
      NobodyActs(t, m, Step(t, m, s, more[0]), i, more[1..]);
    }
  }

  /** Whoever is under the active name keeps it exactly when the plan that is left does not move the record there. */
  lemma {:induction false} OccupantFate(t: Intent, m: Mode, s: State, i: Ino, more: seq<Event>)
    requires Inv(t, m, s) && DistinctNames(t) && s.holder.Some? && MovesFirst(s.holder.value)
    requires t.active in s.w.dir && s.w.dir[t.active] == i != t.rec
    requires (forall e | e in more :: Quiet(e)) && Later(t, m, s, more).holder == Some([])
    ensures
      var dir := Later(t, m, s, more).w.dir;
      t.active in dir && dir[t.active] == (if MovesToActive(t, s.holder.value) then t.rec else i)
    decreases |more|
  {
    if more != [] {
      var e, s' := more[0], Step(t, m, s, more[0]);
      assert e in more;
      StepKeeps(t, m, s, e);
      if e.Tick? && s.holder.value != [] {
        var op := s.holder.value[0];
        assert Pre(t, m, op, s.w);
        forall x | x in s'.holder.value ensures !x.Rename? {
          var k :| 0 <= k < |s'.holder.value| && s'.holder.value[k] == x;
          assert s.holder.value[k + 1] == x;
        }
        if op.Rename? {
          assert op.src in Holders(s.w.dir, t.rec);
          assert op.src != t.active;
        }
        OccupantStays(t, m, s', if MovesToActive(t, s.holder.value) then t.rec else i, more[1..]);
      } else if e.Tick? {
        LockStaysFree(t, m, s', more[1..]);
      } else {
        OccupantFate(t, m, s', i, more[1..]);
      }
    }
  }

  lemma RecoveryMovesFirst(w: World, image: IntentFile, aside: Name)
    ensures MovesFirst(Recover(w, image, aside).1)
  {
  }

  /**
   When a newcomer under the active name is lost: exactly when the recovery still has the record to move
   there.  Rolling back does so from any other name without looking; a superseded record goes there only if
   the name was vacant when the recovery classified, so a newcomer after that look is lost as well.
   */
  lemma {:induction false} NewcomerLostExactly(t: Intent, m: Mode, w0: World, ino: Ino, past: seq<Event>,
                                               image: IntentFile, aside: Name,
                                               before: seq<Event>, more: seq<Event>, i: Ino)
    requires Basis(t, w0, ino) && Enabled(t, m, After(t, m, w0, ino, past), Enter(image, aside))
    requires forall e | e in before + more :: Quiet(e)
    requires After(t, m, w0, ino, past + [Enter(image, aside)] + (before + more)).holder == Some([])
    requires
      var s := After(t, m, w0, ino, past + [Enter(image, aside)] + before);
      s.holder.Some? && t.active in s.w.dir && s.w.dir[t.active] == i != t.rec
    ensures
      var w := After(t, m, w0, ino, past).w;
      var s := After(t, m, w0, ino, past + [Enter(image, aside)] + before);
      var dir := After(t, m, w0, ino, past + [Enter(image, aside)] + (before + more)).w.dir;
      var (outcome, ops) := Recover(w, image, aside);
      var lost :=
        && s.holder == Some(ops)
        && ((outcome == RolledBack && Holders(w.dir, t.rec) != {t.active})
            || (outcome == SupersededOutcome && Holders(w.dir, t.rec) == {t.provisional} && t.active !in w.dir));
      t.active in dir && dir[t.active] == (if lost then t.rec else i)
  {
    var entered := past + [Enter(image, aside)];
    var s1 := EnteredState(t, m, w0, ino, past, image, aside, before);
    var s := Later(t, m, s1, before);
    assert entered + before + more == entered + (before + more);
    LaterIsAfter(t, m, w0, ino, entered + before, more);
    AlwaysInv(t, m, w0, ino, past);
    AlwaysInv(t, m, w0, ino, entered + before);
    forall e | e in more ensures Quiet(e) { assert e in before + more; }
    forall e | e in before ensures Quiet(e) { assert e in before + more; }
    RecoveryMovesFirst(s1.w, image, aside);
    PlanSuffix(t, m, s1, before);
    OccupantFate(t, m, s, i, more);
    PlanMoves(t, m, After(t, m, w0, ino, past), image, aside);
  }

  /** What is left of the plan: all of it, or an end that no longer moves anything. */
  lemma {:induction false} PlanSuffix(t: Intent, m: Mode, s: State, more: seq<Event>)
    requires s.holder.Some? && MovesFirst(s.holder.value) && forall e | e in more :: Quiet(e)
    ensures
      var left := Later(t, m, s, more).holder;
      left.Some? ==> MovesFirst(left.value) && (left == s.holder || forall op | op in left.value :: !op.Rename?)
    decreases |more|
  {
    if more != [] {
      assert more[0] in more;
      var s' := Step(t, m, s, more[0]);
      if s'.holder.Some? { PlanSuffix(t, m, s', more[1..]); } else { LockStaysFree(t, m, s', more[1..]); }
    }
  }

  /** Which recoveries move the record to the active name. */
  lemma PlanMoves(t: Intent, m: Mode, s: State, image: IntentFile, aside: Name)
    requires Inv(t, m, s) && DistinctNames(t) && Enabled(t, m, s, Enter(image, aside))
    ensures
      var (outcome, ops) := Recover(s.w, image, aside);
      MovesToActive(t, ops) <==>
        || (outcome == RolledBack && Holders(s.w.dir, t.rec) != {t.active})
        || (outcome == SupersededOutcome && Holders(s.w.dir, t.rec) == {t.provisional} && t.active !in s.w.dir)
  {
    if image.Present? {
      var n :| OneName(s.w.dir, t.rec, n);
      LocateHolder(t, s.w, n, image.intent, aside);
    }
  }
}
