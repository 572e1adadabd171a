/**
 The takeover consume transaction and its crash recovery.

 A takeover record is consumed by moving it active -> provisional -> consumed while
 evidence.json is atomically replaced; a durable intent file guards the pair.  Every
 durable effect is one `Op`; the process may die between any two of them, so a crashed
 call is a prefix of its plan.  SHA-256 is taken to be injective, so digests are
 compared by comparing bytes, and rename/replace are atomic.
 */
module Takeover {
  import opened Common

  type Name = string
  type Ino = nat

  /** The run's ledger row: only the two fields that consume rewrites are told apart. */
  datatype Row = Row(expected: Option<bool>, consumedAt: Option<int>, rest: string) | NotAnObject

  /**
   File bytes: the text of a JSON object (with its layout), or anything else.  `autonomy` is None when that
   field is no object; a ledger without it has an empty one.
   */
  datatype Bytes =
    | Ledger(autonomy: Option<map<string, Row>>, others: string, layout: nat)
    | Other(text: string)

  datatype Evidence = Evidence(bytes: Bytes, ino: Ino)

  datatype Phase =
    | Prepared | RecordProvisional | EvidenceReplaced | RecordConsumed | Acknowledged | Superseded

  datatype Intent = Intent(active: Name, provisional: Name, consumed: Name, rec: Ino,
                           original: Bytes, desired: Bytes, generation: Evidence, phase: Phase)

  /** Unreadable stands for a torn, oversized, non-JSON or foreign intent. */
  datatype IntentFile = Absent | Unreadable | Present(intent: Intent)

  datatype Line = TakeoverOk | TakeoverSuperseded | Unblock

  /** Everything that survives a process: the directory, the two files, the printed lines. */
  datatype World = World(dir: map<Name, Ino>, evidence: Evidence, intent: IntentFile, log: seq<Line>)

  // ---------------------------------------------------------------- bytes

  /** The layout json.dumps(indent=2) produces. */
  const CANONICAL: nat := 0

  /** The bytes consume wants to publish, or None where it refuses the ledger's shape. */
  function Cleared(raw: Bytes, run: string, at: int): Option<Bytes> {
    if raw.Other? || raw.autonomy.None? then None
    else
      var row := if run in raw.autonomy.value then raw.autonomy.value[run] else Row(None, None, "");
      if row.NotAnObject? then None
      else Some(Ledger(Some(raw.autonomy.value[run := row.(expected := Some(false), consumedAt := Some(at))]),
                       raw.others, CANONICAL))
  }

  /**
   `c` is `raw` with the run's expectation cleared and nothing else changed: the other fields, the other runs'
   rows and the rest of the row survive, whatever the layout was.
   */
  predicate ClearsOnly(raw: Bytes, c: Bytes, run: string, at: int) {
    && raw.Ledger? && raw.autonomy.Some? && c.Ledger? && c.autonomy.Some?
    && c.others == raw.others && c.layout == CANONICAL
    && var before, after := raw.autonomy.value, c.autonomy.value;
       && after.Keys == before.Keys + {run}
       && (forall other | other in before && other != run :: after[other] == before[other])
       && after[run] == Row(Some(false), Some(at), if run in before && before[run].Row? then before[run].rest else "")
  }

  /** Consume has bytes to publish exactly for a ledger whose row for the run, if any, is an object. */
  lemma ClearedExactly(raw: Bytes, run: string, at: int)
    ensures Cleared(raw, run, at).Some? <==>
            raw.Ledger? && raw.autonomy.Some? && (run in raw.autonomy.value ==> raw.autonomy.value[run].Row?)
    ensures Cleared(raw, run, at).Some? ==> ClearsOnly(raw, Cleared(raw, run, at).value, run, at)
  {
  }

  /** What a caller can look at beforehand: the row is already cleared at this very second. */
  predicate AlreadyCleared(raw: Bytes, run: string, at: int) {
    && raw.Ledger? && raw.layout == CANONICAL && raw.autonomy.Some?
    && run in raw.autonomy.value && raw.autonomy.value[run].Row?
    && raw.autonomy.value[run].expected == Some(false)
    && raw.autonomy.value[run].consumedAt == Some(at)
  }

  /** The published bytes differ from the original ones exactly when the row was not already cleared. */
  lemma ClearedDiffers(raw: Bytes, run: string, at: int)
    requires Cleared(raw, run, at).Some?
    ensures Cleared(raw, run, at).value == raw <==> AlreadyCleared(raw, run, at)
  {
    var m := raw.autonomy.value;
    var c := Cleared(raw, run, at).value;
    if AlreadyCleared(raw, run, at) {
      assert m[run := m[run]] == m;
    }
    if c == raw {
      assert c.autonomy.value == m;
      assert run in m && m[run] == c.autonomy.value[run];
    }
  }

  // ---------------------------------------------------------------- durable operations

  datatype Op =
    | Publish(intent: Intent)
    | Rename(src: Name, dst: Name)
    | Replace(evidence: Evidence)
    | Emit(line: Line)
    | DropIntent

  function Apply(op: Op, w: World): World {
    match op
    case Publish(i) => w.(intent := Present(i))
    case Rename(a, b) => if a in w.dir then w.(dir := (w.dir - {a})[b := w.dir[a]]) else w
    case Replace(e) => w.(evidence := e)
    case Emit(l) => w.(log := w.log + [l])
    case DropIntent => w.(intent := Absent)
  }

  function ApplyAll(ops: seq<Op>, w: World): World {
    if ops == [] then w else ApplyAll(ops[1..], Apply(ops[0], w))
  }

  lemma {:induction false} ApplyAllSnoc(ops: seq<Op>, k: nat, w: World)
    requires k < |ops|
    ensures ApplyAll(ops[..k + 1], w) == Apply(ops[k], ApplyAll(ops[..k], w))
  {
    if k == 0 {
      assert ops[..1] == [ops[0]];
    } else {
      assert ops[..k + 1][1..] == ops[1..][..k] && ops[..k][1..] == ops[1..][..k - 1];
      ApplyAllSnoc(ops[1..], k - 1, Apply(ops[0], w));
    }
  }

  /** The durable steps of a successful consume, in program order. */
  function ConsumePlan(t: Intent, ino: Ino): seq<Op> {
    [ Publish(t),
      Rename(t.active, t.provisional),
      Publish(t.(phase := RecordProvisional)),
      Replace(Evidence(t.desired, ino)),
      Publish(t.(phase := EvidenceReplaced)),
      Rename(t.provisional, t.consumed),
      Publish(t.(phase := RecordConsumed)),
      Publish(t.(phase := Acknowledged)),
      Emit(TakeoverOk),
      DropIntent ]
  }

  /** Number of plan steps up to and including the evidence replacement. */
  const REPLACED: nat := 4

  datatype Outcome = NoIntent | Unexplained | RolledBack | RecoveredSuccess | SupersededOutcome

  predicate Recognised(o: Outcome) { o.RolledBack? || o.RecoveredSuccess? || o.SupersededOutcome? }

  /** First of the three recorded names that holds the recorded inode. */
  function Locate(dir: map<Name, Ino>, i: Intent): Option<Name> {
    if i.active in dir && dir[i.active] == i.rec then Some(i.active)
    else if i.provisional in dir && dir[i.provisional] == i.rec then Some(i.provisional)
    else if i.consumed in dir && dir[i.consumed] == i.rec then Some(i.consumed)
    else None
  }

  function MoveTo(at: Name, goal: Name): seq<Op> {
    if at == goal then [] else [Rename(at, goal)]
  }

  /** What recovery decides to do with one intent image; `aside` is its time-stamped spare name. */
  function Classify(w: World, i: Intent, aside: Name): (Outcome, seq<Op>) {
    var at := Locate(w.dir, i);
    var cur := w.evidence.bytes;
    if cur == i.original then
      if at.None? then (Unexplained, [])
      else (RolledBack, MoveTo(at.value, i.active) + [DropIntent])
    else if cur == i.desired then
      if at.None? then (Unexplained, [])
      else (RecoveredSuccess,
            MoveTo(at.value, i.consumed)
            + [Publish(i.(phase := Acknowledged)), Emit(TakeoverOk), DropIntent])
    else if cur.Ledger? && w.evidence.ino != i.generation.ino && cur != i.generation.bytes then
      (SupersededOutcome,
       (if at == Some(i.provisional)
        then [Rename(i.provisional, if i.active in w.dir then aside else i.active)] else [])
       + [Publish(i.(phase := Superseded)), Emit(TakeoverSuperseded), Emit(Unblock), DropIntent])
    else (Unexplained, [])
  }

  function Recover(w: World, image: IntentFile, aside: Name): (Outcome, seq<Op>) {
    match image
    case Absent => (NoIntent, [])
    case Unreadable => (Unexplained, [])
    case Present(i) => Classify(w, i, aside)
  }

  // ---------------------------------------------------------------- the transaction's basis

  function Holders(dir: map<Name, Ino>, rec: Ino): set<Name> {
    set n | n in dir && dir[n] == rec
  }

  predicate SameTxn(t: Intent, i: Intent) { i.(phase := t.phase) == t }

  predicate DistinctNames(t: Intent) {
    t.active != t.provisional && t.active != t.consumed && t.provisional != t.consumed
  }

  /** Facts consume has established under the lock just before it writes its intent. */
  predicate Basis(t: Intent, w: World, ino: Ino) {
    && DistinctNames(t)
    && Holders(w.dir, t.rec) == {t.active}
    && t.provisional !in w.dir && t.consumed !in w.dir
    && t.generation == w.evidence && t.original == w.evidence.bytes
    && ino != w.evidence.ino
    && w.intent.Absent? && w.log == []
  }

  lemma RenameMovesRecord(w: World, rec: Ino, a: Name, b: Name)
    requires a != b && Holders(w.dir, rec) == {a}
    ensures a in w.dir && w.dir[a] == rec
    ensures Holders(Apply(Rename(a, b), w).dir, rec) == {b}
  {
  }

  // ---------------------------------------------------------------- no other writer: the outcome in closed form

  /** The directory with the record under `n` instead of its active name. */
  function DirWith(t: Intent, w0: World, n: Name): map<Name, Ino> {
    (w0.dir - {t.active})[n := t.rec]
  }

  function SettledName(t: Intent, k: nat): Name { if k < REPLACED then t.active else t.consumed }

  function EvidenceAfter(t: Intent, w0: World, ino: Ino, k: nat): Evidence {
    if k < REPLACED then w0.evidence else Evidence(t.desired, ino)
  }

  /** Invariant of a consume that died after `k` durable steps, through any recoveries after it. */
  predicate Between(t: Intent, w0: World, ino: Ino, k: nat, w: World, n: Name) {
    && n in {t.active, t.provisional, t.consumed}
    && w.dir == DirWith(t, w0, n)
    && w.evidence == EvidenceAfter(t, w0, ino, k)
    && (w.intent.Present? ==> SameTxn(t, w.intent.intent))
    && (w.intent.Absent? ==> n == SettledName(t, k) && (REPLACED <= k ==> TakeoverOk in w.log))
    && !w.intent.Unreadable?
    && (k < REPLACED ==> w.log == [])
  }

  /** Where consume has put the record after `k` steps. */
  function Stage(t: Intent, k: nat): Name {
    if k < 2 then t.active else if k < 6 then t.provisional else t.consumed
  }

  /** The exact state after `k` steps of consume. */
  lemma {:induction false} ConsumePrefix(t: Intent, w0: World, ino: Ino, k: nat)
    requires Basis(t, w0, ino) && k <= 10
    ensures
      var w := ApplyAll(ConsumePlan(t, ino)[..k], w0);
      && Between(t, w0, ino, k, w, Stage(t, k))
      && (w.intent.Absent? <==> k == 0 || k == 10)
      && w.log == (if k < 9 then [] else [TakeoverOk])
  {
    var plan := ConsumePlan(t, ino);
    if k == 0 {
      assert t.active in Holders(w0.dir, t.rec);
      assert w0.dir == DirWith(t, w0, t.active);
    } else {
      ConsumePrefix(t, w0, ino, k - 1);
      ApplyAllSnoc(plan, k - 1, w0);
      var w := ApplyAll(plan[..k - 1], w0);
      if k == 2 || k == 6 {
        assert Apply(plan[k - 1], w).dir == DirWith(t, w0, Stage(t, k));
      }
    }
  }

  lemma LocateBetween(t: Intent, w0: World, ino: Ino, k: nat, w: World, n: Name, i: Intent)
    requires Basis(t, w0, ino) && Between(t, w0, ino, k, w, n) && SameTxn(t, i)
    ensures Locate(w.dir, i) == Some(n)
  {
  }

  /** A recovery that dies after `j` durable steps keeps the invariant; one that finishes settles. */
  lemma RecoveryStep(t: Intent, w0: World, ino: Ino, k: nat, w: World, n: Name, aside: Name, j: nat)
    returns (n': Name)
    requires Basis(t, w0, ino) && t.original != t.desired && k <= 10
    requires Between(t, w0, ino, k, w, n)
    requires j <= |Recover(w, w.intent, aside).1|
    ensures Between(t, w0, ino, k, ApplyAll(Recover(w, w.intent, aside).1[..j], w), n')
    ensures j == |Recover(w, w.intent, aside).1| ==>
              ApplyAll(Recover(w, w.intent, aside).1, w).intent.Absent?
  {
    var ops := Recover(w, w.intent, aside).1;
    if w.intent.Absent? {
      n' := n;
    } else {
      LocateBetween(t, w0, ino, k, w, n, w.intent.intent);
      var goal := SettledName(t, k);
      n' := if j == 0 then n else goal;
      assert ops == MoveTo(n, goal) + (if k < REPLACED then [DropIntent] else
          [Publish(w.intent.intent.(phase := Acknowledged)), Emit(TakeoverOk), DropIntent]);
      Unfold(ops, j, w);
      if 0 < j && n != goal {
        assert (w.dir - {n})[goal := t.rec] == DirWith(t, w0, goal) by {
          assert t.active in Holders(w0.dir, t.rec);
        }
      }
      assert ops[..|ops|] == ops;
    }
  }

  /** Evaluates a prefix of a plan of at most five operations. */
  lemma {:induction false} Unfold(ops: seq<Op>, j: nat, w: World)
    requires j <= |ops| <= 5
    ensures ApplyAll(ops[..j], w) ==
      (if j == 0 then w
       else var w1 := Apply(ops[0], w);
         if j == 1 then w1 else var w2 := Apply(ops[1], w1);
         if j == 2 then w2 else var w3 := Apply(ops[2], w2);
         if j == 3 then w3 else var w4 := Apply(ops[3], w3);
         if j == 4 then w4 else Apply(ops[4], w4))
  {
    if j >= 1 { ApplyAllSnoc(ops, 0, w); }
    if j >= 2 { ApplyAllSnoc(ops, 1, w); }
    if j >= 3 { ApplyAllSnoc(ops, 2, w); }
    if j >= 4 { ApplyAllSnoc(ops, 3, w); }
    if j >= 5 { ApplyAllSnoc(ops, 4, w); }
  }

  /** Recovery started again and again: the x-th attempt dies after deaths[x] durable steps. */
  function Attempts(w: World, deaths: seq<nat>, aside: Name): World
    decreases |deaths|
  {
    if deaths == [] then w
    else
      var ops := Recover(w, w.intent, aside).1;
      Attempts(ApplyAll(ops[..Min(deaths[0], |ops|)], w), deaths[1..], aside)
  }

  function Finish(w: World, aside: Name): World {
    ApplyAll(Recover(w, w.intent, aside).1, w)
  }

  lemma {:induction false} AttemptsKeep(t: Intent, w0: World, ino: Ino, k: nat, w: World, n: Name,
                                        deaths: seq<nat>, aside: Name)
    returns (n': Name)
    requires Basis(t, w0, ino) && t.original != t.desired && k <= 10
    requires Between(t, w0, ino, k, w, n)
    ensures Between(t, w0, ino, k, Attempts(w, deaths, aside), n')
    decreases |deaths|
  {
    if deaths == [] {
      n' := n;
    } else {
      var ops := Recover(w, w.intent, aside).1;
      var j := Min(deaths[0], |ops|);
      var m := RecoveryStep(t, w0, ino, k, w, n, aside, j);
      n' := AttemptsKeep(t, w0, ino, k, ApplyAll(ops[..j], w), m, deaths[1..], aside);
    }
  }

  /**
   Main result without other writers.  Consume dies after any number `k` of durable steps, then
   recovery is attempted and dies any number of times, then one recovery completes.  The final
   state has no intent and is exactly active+original or consumed+cleared; which of the two is
   decided by whether the evidence replacement had happened, and by nothing else.
   */
  lemma {:induction false} CrashThenRecover(t: Intent, w0: World, ino: Ino, k: nat, deaths: seq<nat>, aside: Name)
    requires Basis(t, w0, ino) && k <= 10
    requires t.original != t.desired
    ensures
      var w := Finish(Attempts(ApplyAll(ConsumePlan(t, ino)[..k], w0), deaths, aside), aside);
      && w.intent.Absent?
      && (k < REPLACED ==> w.dir == w0.dir && w.evidence == w0.evidence && w.log == [])
      && (REPLACED <= k ==> && w.dir == (w0.dir - {t.active})[t.consumed := t.rec]
                            && w.evidence == Evidence(t.desired, ino) && TakeoverOk in w.log)
  {
    ConsumePrefix(t, w0, ino, k);
    var w1 := ApplyAll(ConsumePlan(t, ino)[..k], w0);
    var n := AttemptsKeep(t, w0, ino, k, w1, Stage(t, k), deaths, aside);
    var w2 := Attempts(w1, deaths, aside);
    var ops := Recover(w2, w2.intent, aside).1;
    n := RecoveryStep(t, w0, ino, k, w2, n, aside, |ops|);
    assert ops[..|ops|] == ops;
    assert t.active in Holders(w0.dir, t.rec);
    assert DirWith(t, w0, t.active) == w0.dir;
  }

  /**
   The hypothesis original != desired is needed: with equal bytes recovery tests "original" first,
   so a consume that died after printing its success is still rolled back to active.
   */
  lemma {:induction false} EqualBytesRollBack(t: Intent, w0: World, ino: Ino, k: nat, aside: Name)
    requires Basis(t, w0, ino) && 1 <= k < 10
    requires t.original == t.desired
    ensures
      var w := Finish(ApplyAll(ConsumePlan(t, ino)[..k], w0), aside);
      w.intent.Absent? && w.dir == w0.dir && w.log == (if k == 9 then [TakeoverOk] else [])
  {
    ConsumePrefix(t, w0, ino, k);
    var n := Stage(t, k);
    var w := ApplyAll(ConsumePlan(t, ino)[..k], w0);
    LocateBetween(t, w0, ino, k, w, n, w.intent.intent);
    var ops := Recover(w, w.intent, aside).1;
    assert ops == MoveTo(n, t.active) + [DropIntent];
    Unfold(ops, |ops|, w);
    assert ops[..|ops|] == ops;
    assert t.active in Holders(w0.dir, t.rec);
    assert DirWith(t, w0, t.active) == w0.dir;
    assert (w.dir - {n})[t.active := t.rec] == w0.dir;
  }

  /** Recovery never looks at the recorded phase: any phase gives the same outcome and final state. */
  lemma {:induction false} PhaseIsIrrelevant(w: World, i: Intent, p: Phase, aside: Name)
    ensures Classify(w, i, aside).0 == Classify(w, i.(phase := p), aside).0
    ensures
      var a, b := Classify(w, i, aside).1, Classify(w, i.(phase := p), aside).1;
      ApplyAll(a, w) == ApplyAll(b, w)
  {
  }
}
