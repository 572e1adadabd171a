/**
 Durable loop counters.  A protected loop reserves its rounds against a cap that is sealed by its
 first reservation; plain loops only count.  Counters, caps and count histories share one map per
 run, told apart by the key suffixes "#cap" and "#counts".
 */
module LoopCaps {
  import opened Common

  datatype Entry =
    | Counter(n: int)
    | Cap(max: int, used: int)
    | Counts(counts: map<int, int>)
    | Malformed

  type RunEntry = map<string, Entry>
  type Loops = map<string, RunEntry>

  const CAP: string := "#cap"
  const COUNTS: string := "#counts"

  /** A loop name derived from a phase slug. */
  predicate Plain(name: string) { '#' !in name }

  predicate EndsWith(s: string, suffix: string) {
    |s| >= |suffix| && s[|s| - |suffix|..] == suffix
  }

  predicate Protected(key: string) { "review:" <= key || EndsWith(key, CAP) }

  function OfRun(loops: Loops, run: string): RunEntry { if run in loops then loops[run] else map[] }

  // ---------------------------------------------------------------- key arithmetic

  /** A suffixed key splits in one way only: its first '#' is where the suffix starts. */
  lemma FirstHash(a: string, suffix: string)
    requires Plain(a) && suffix != "" && suffix[0] == '#'
    ensures (a + suffix)[|a|] == '#' && '#' in a + suffix
    ensures forall i | 0 <= i < |a| :: (a + suffix)[i] != '#'
    ensures (a + suffix)[..|a|] == a && (a + suffix)[|a|..] == suffix
  {
  }

  lemma SuffixKeys(a: string, b: string)
    requires Plain(a) && Plain(b)
    ensures a + CAP != b && a + COUNTS != b && a + CAP != b + COUNTS
    ensures a != b ==> a + CAP != b + CAP && a + COUNTS != b + COUNTS
    ensures EndsWith(a + CAP, CAP)
  {
    FirstHash(a, CAP);
    FirstHash(a, COUNTS);
    FirstHash(b, CAP);
    FirstHash(b, COUNTS);
    assert CAP != COUNTS;
    var x, y := a + CAP, b + COUNTS;
    assert |x| == |y| ==> |a| == |b| + 3 && x[|b|] != y[|b|];
  }

  // ---------------------------------------------------------------- one locked call

  /**
   `probe` is the state an unlocked read of the store saw at some earlier time; nothing relates it
   to the state under the lock.  `name` None asks for a reset of the whole run.
   */
  datatype Call =
    | Reserve(run: string, name: string, maximum: int)
    | Count(run: string, name: string)
    | Note(run: string, name: string, found: int)
    | Reset(run: string, target: Option<string>, probe: Loops)

  /** Granted and Spent both print a pair; Raised is every error return. */
  datatype Reply = Granted(round: int, max: int) | Spent(round: int, max: int) | Round(n: int)
                 | Noted(round: int, previous: Option<int>) | Done | Raised

  function DoReserve(loops: Loops, run: string, name: string, maximum: int): (Loops, Reply) {
    var e := OfRun(loops, run);
    var key := name + CAP;
    if maximum < 1 then (loops, Raised)
    else if key !in e then
      if name in e then (loops, Raised)
      else (loops[run := e[key := Cap(maximum, 1)]], Granted(1, maximum))
    else if !e[key].Cap? || e[key].max < 1 || e[key].used < 0 then (loops, Raised)
    else if e[key].max != maximum then (loops, Raised)
    else if e[key].used >= e[key].max then (loops, Spent(e[key].used + 1, e[key].max))
    else (loops[run := e[key := Cap(e[key].max, e[key].used + 1)]], Granted(e[key].used + 1, e[key].max))
  }

  function DoCount(loops: Loops, run: string, name: string): (Loops, Reply) {
    var e := OfRun(loops, run);
    if name in e && (!e[name].Counter? || e[name].n < 0) then (loops, Raised)
    else
      var n := (if name in e then e[name].n else 0) + 1;
      (loops[run := e[name := Counter(n)]], Round(n))
  }

  function DoNote(loops: Loops, run: string, name: string, found: int): (Loops, Reply) {
    var e := OfRun(loops, run);
    var key := name + COUNTS;
    if name !in e || !e[name].Counter? || e[name].n < 1 then (loops, Raised)
    else if key in e && !e[key].Counts? then (loops, Raised)
    else
      var n := e[name].n;
      var c := (if key in e then e[key].counts else map[])[n := found];
      (loops[run := e[key := Counts(c)]], Noted(n, if n - 1 in c then Some(c[n - 1]) else None))
  }

  /** The checks the reset makes twice, first unlocked on the probe and then under the lock. */
  predicate ResetRefused(loops: Loops, run: string, name: Option<string>) {
    match name
    case None => exists k | k in OfRun(loops, run) :: Protected(k)
    case Some(x) => x + CAP in OfRun(loops, run)
  }

  predicate NothingToReset(loops: Loops, run: string, name: Option<string>) {
    match name
    case None => run !in loops
    case Some(x) => x !in OfRun(loops, run) && x + COUNTS !in OfRun(loops, run)
  }

  function DoReset(loops: Loops, run: string, name: Option<string>, probe: Loops): (Loops, Reply) {
    if name.Some? && "review:" <= name.value then (loops, Raised)
    else if ResetRefused(probe, run, name) then (loops, Raised)
    else if NothingToReset(probe, run, name) then (loops, Done)
    else if ResetRefused(loops, run, name) then (loops, Raised)
    else match name
      case None => (loops - {run}, Done)
      case Some(x) =>
        (if run in loops then loops[run := loops[run] - {x, x + COUNTS}] else loops, Done)
  }

  function Perform(loops: Loops, c: Call): (Loops, Reply) {
    match c
    case Reserve(run, name, maximum) => DoReserve(loops, run, name, maximum)
    case Count(run, name) => DoCount(loops, run, name)
    case Note(run, name, found) => DoNote(loops, run, name, found)
    case Reset(run, x, probe) => DoReset(loops, run, x, probe)
  }

  // ---------------------------------------------------------------- whole histories

  function After(calls: seq<Call>): Loops {
    if calls == [] then map[] else Perform(After(calls[..|calls| - 1]), calls[|calls| - 1]).0
  }

  /** The reservations a protected loop was granted, in the order they were granted. */
  function Grants(calls: seq<Call>, run: string, name: string): seq<int> {
    if calls == [] then []
    else
      var c := calls[|calls| - 1];
      var r := Perform(After(calls[..|calls| - 1]), c).1;
      Grants(calls[..|calls| - 1], run, name) +
      (if c.Reserve? && c.run == run && c.name == name && r.Granted? then [r.round] else [])
  }

  /** The maximum named by the first granted reservation, if there was one. */
  function Sealed(calls: seq<Call>, run: string, name: string): Option<int> {
    if calls == [] then None
    else
      var before := Sealed(calls[..|calls| - 1], run, name);
      var c := calls[|calls| - 1];
      if before.Some? then before
      else if c.Reserve? && c.run == run && c.name == name
              && Perform(After(calls[..|calls| - 1]), c).1.Granted?
      then Some(c.maximum) else None
  }

  predicate PlainCall(c: Call) {
    match c
    case Reset(_, x, _) => x.Some? ==> Plain(x.value)
    case _ => Plain(c.name)
  }

  function Upto(n: nat): seq<int> { seq(n, i requires 0 <= i => i + 1) }

  /** Only its own reservations touch a cap; in particular no reset removes one. */
  lemma CapChangesOnlyByReserve(loops: Loops, c: Call, run: string, name: string)
    requires PlainCall(c) && Plain(name)
    ensures
      var before, after := OfRun(loops, run), OfRun(Perform(loops, c).0, run);
      var key := name + CAP;
      if c.Reserve? && c.run == run && c.name == name && Perform(loops, c).1.Granted?
      then key in after && after[key] == Cap(c.maximum, Perform(loops, c).1.round)
           && c.maximum >= Perform(loops, c).1.round
           && (if key in before
               then before[key] == Cap(c.maximum, Perform(loops, c).1.round - 1) && before[key].used >= 0
               else Perform(loops, c).1.round == 1)
      else (key in after <==> key in before) && (key in before ==> after[key] == before[key])
  {
    var key := name + CAP;
    match c
    case Reset(r, x, probe) =>
      if x.Some? { SuffixKeys(name, x.value); SuffixKeys(x.value, name); }
      SuffixKeys(name, name);
      if x.None? && key in OfRun(loops, run) { assert Protected(key); }
    case _ => SuffixKeys(name, c.name); SuffixKeys(c.name, name);
  }

  /**
   Main result.  In every interleaving of locked calls over '#'-free names, with arbitrary unlocked
   probes: the granted reservations are exactly 1, 2, ..., used in order; the cap on record is the one
   the first grant named; used never exceeds it; and the cap is there as soon as anything was granted.
   */
  lemma {:induction false} GrantsAreExact(calls: seq<Call>, run: string, name: string)
    requires Plain(name) && forall c | c in calls :: PlainCall(c)
    ensures
      var e := OfRun(After(calls), run);
      var seal := Sealed(calls, run, name);
      && (name + CAP in e <==> seal.Some?)
      && (seal.None? ==> Grants(calls, run, name) == [])
      && (seal.Some? ==>
            && e[name + CAP].Cap? && e[name + CAP].max == seal.value
            && 1 <= e[name + CAP].used <= seal.value
            && Grants(calls, run, name) == Upto(e[name + CAP].used))
  {
    if calls != [] {
      var c, rest := calls[|calls| - 1], calls[..|calls| - 1];
      assert c in calls;
      GrantsAreExact(rest, run, name);
      CapChangesOnlyByReserve(After(rest), c, run, name);
      var r := Perform(After(rest), c).1;
      if c.Reserve? && c.run == run && c.name == name && r.Granted? {
        assert Upto(r.round - 1) + [r.round] == Upto(r.round);
      }
    }
  }

  /** A sealed loop answers every request: the next round while the cap lasts, and then Spent for ever. */
  lemma {:induction false} ReserveAnswer(calls: seq<Call>, run: string, name: string, maximum: int)
    requires Plain(name) && forall c | c in calls :: PlainCall(c)
    requires Sealed(calls, run, name).Some?
    ensures
      var k := |Grants(calls, run, name)|;
      var r := Perform(After(calls), Reserve(run, name, maximum)).1;
      if maximum != Sealed(calls, run, name).value then r == Raised
      else if k < maximum then r == Granted(k + 1, maximum)
      else r == Spent(maximum + 1, maximum)
  {
    GrantsAreExact(calls, run, name);
  }

  /** A reset that really drops the loop's counter and count history. */
  predicate Resets(loops: Loops, c: Call, run: string, name: string) {
    && c.Reset? && c.run == run && (c.target.None? || c.target == Some(name))
    && Perform(loops, c).1 == Done && !NothingToReset(c.probe, run, c.target)
  }

  /** Rounds counted since the last such reset. */
  function Rounds(calls: seq<Call>, run: string, name: string): nat {
    if calls == [] then 0
    else
      var c, before := calls[|calls| - 1], Rounds(calls[..|calls| - 1], run, name);
      if c.Count? && c.run == run && c.name == name then before + 1
      else if Resets(After(calls[..|calls| - 1]), c, run, name) then 0
      else before
  }

  /** The counter on record is the number of rounds since the last reset, and the count history is well formed. */
  predicate CounterHolds(loops: Loops, run: string, name: string, rounds: nat) {
    var e := OfRun(loops, run);
    && (name in e <==> rounds > 0) && (name in e ==> e[name] == Counter(rounds))
    && (name + COUNTS in e ==> e[name + COUNTS].Counts?)
  }

  lemma {:induction false} CounterIs(calls: seq<Call>, run: string, name: string)
    requires Plain(name) && forall c | c in calls :: PlainCall(c)
    ensures CounterHolds(After(calls), run, name, Rounds(calls, run, name))
  {
    if calls != [] {
      var rest, c := calls[..|calls| - 1], calls[|calls| - 1];
      assert c in calls;
      CounterIs(rest, run, name);
      CounterStep(After(rest), c, run, name, Rounds(rest, run, name));
    }
  }

  lemma ResetStep(loops: Loops, c: Call, run: string, name: string, rounds: nat)
    requires Plain(name) && PlainCall(c) && c.Reset? && CounterHolds(loops, run, name, rounds)
    ensures CounterHolds(Perform(loops, c).0, run, name, if Resets(loops, c, run, name) then 0 else rounds)
  {
    SuffixKeys(name, name);
    if c.target.Some? {
      SuffixKeys(name, c.target.value);
      SuffixKeys(c.target.value, name);
    }
  }

  lemma CounterStep(loops: Loops, c: Call, run: string, name: string, rounds: nat)
    requires Plain(name) && PlainCall(c) && CounterHolds(loops, run, name, rounds)
    ensures CounterHolds(Perform(loops, c).0, run, name,
              if c.Count? && c.run == run && c.name == name then rounds + 1
              else if Resets(loops, c, run, name) then 0 else rounds)
  {
    if c.Reset? {
      ResetStep(loops, c, run, name, rounds);
    } else {
      SuffixKeys(name, name);
      SuffixKeys(name, c.name);
      SuffixKeys(c.name, name);
    }
  }

  /** A loop that was never granted a reservation: the first one is granted unless it has a plain counter. */
  lemma {:induction false} FirstReservation(calls: seq<Call>, run: string, name: string, maximum: int)
    requires Plain(name) && forall c | c in calls :: PlainCall(c)
    requires Sealed(calls, run, name).None?
    ensures
      Perform(After(calls), Reserve(run, name, maximum)).1 ==
        if maximum >= 1 && Rounds(calls, run, name) == 0 then Granted(1, maximum) else Raised
  {
    GrantsAreExact(calls, run, name);
    CounterIs(calls, run, name);
  }

  /** A plain round is the next one since the last reset; a note needs a round and names the present one. */
  lemma {:induction false} RoundAnswers(calls: seq<Call>, run: string, name: string, found: int)
    requires Plain(name) && forall c | c in calls :: PlainCall(c)
    ensures
      var n := Rounds(calls, run, name);
      var noted := Perform(After(calls), Note(run, name, found)).1;
      && Perform(After(calls), Count(run, name)).1 == Round(n + 1)
      && (if n == 0 then noted == Raised else noted.Noted? && noted.round == n)
  {
    CounterIs(calls, run, name);
  }

  /**
   What a reset of one loop answers: refused for review loops, for a cap on record at the unlocked look, and,
   if that look found anything to reset, for a cap on record under the lock; otherwise done.
   */
  lemma {:induction false} ResetAnswer(calls: seq<Call>, run: string, name: string, probe: Loops)
    requires Plain(name) && forall c | c in calls :: PlainCall(c)
    ensures
      var seen := OfRun(probe, run);
      Perform(After(calls), Reset(run, Some(name), probe)).1 ==
        if "review:" <= name || name + CAP in seen then Raised
        else if (name in seen || name + COUNTS in seen) && Sealed(calls, run, name).Some? then Raised
        else Done
  {
    GrantsAreExact(calls, run, name);
  }

  /** Some key of the run belongs to a review loop or is a cap. */
  predicate AnyGuarded(loops: Loops, run: string) {
    exists k | k in OfRun(loops, run) :: "review:" <= k || (|k| >= 4 && k[|k| - 4..] == "#cap")
  }

  lemma GuardedExactly(loops: Loops, run: string)
    ensures ResetRefused(loops, run, None) <==> AnyGuarded(loops, run)
  {
    assert |CAP| == 4;
    if k :| k in OfRun(loops, run) && Protected(k) {
      assert "review:" <= k || (|k| >= 4 && k[|k| - 4..] == "#cap");
    }
    if k :| k in OfRun(loops, run) && ("review:" <= k || (|k| >= 4 && k[|k| - 4..] == "#cap")) { assert Protected(k); }
  }

  /** What a reset of the whole run answers: the same two looks, each for any review loop's key or any cap. */
  lemma ResetAllAnswer(loops: Loops, run: string, probe: Loops)
    ensures Perform(loops, Reset(run, None, probe)).1 ==
            if AnyGuarded(probe, run) || (run in probe && AnyGuarded(loops, run)) then Raised else Done
  {
    GuardedExactly(loops, run);
    GuardedExactly(probe, run);
  }

  /** The count noted in one round is what the next round's note is compared with. */
  lemma NoteRemembersPreviousRound(loops: Loops, run: string, name: string, first: int, second: int)
    requires Plain(name) && Perform(loops, Note(run, name, first)).1.Noted?
    ensures
      var n := Perform(loops, Note(run, name, first)).1.round;
      var l1 := Perform(loops, Note(run, name, first)).0;
      var l2 := Perform(l1, Count(run, name)).0;
      Perform(l2, Note(run, name, second)).1 == Noted(n + 1, Some(first))
  {
    SuffixKeys(name, name);
  }

  /** A reset takes the count history along: the first round after it has no previous count. */
  lemma ResetForgetsCounts(loops: Loops, run: string, name: string, probe: Loops, found: int)
    requires Plain(name) && Perform(loops, Reset(run, Some(name), probe)).1 == Done
    requires !NothingToReset(probe, run, Some(name))
    ensures
      var l1 := Perform(loops, Reset(run, Some(name), probe)).0;
      var (l2, counted) := Perform(l1, Count(run, name));
      counted == Round(1) && Perform(l2, Note(run, name, found)).1 == Noted(1, None)
  {
    SuffixKeys(name, name);
  }

  // ---------------------------------------------------------------- the store

  class LoopStore {
    var loops: Loops

    constructor ()
      ensures loops == map[]
    {
      loops := map[];
    }

    method LoopRoundDurable(run: string, name: string, maximum: int) returns (r: Reply)
      modifies this
      ensures (loops, r) == DoReserve(old(loops), run, name, maximum)
    {
      if maximum < 1 { return Raised; }
      var e := OfRun(loops, run);
      var key := name + CAP;
      var meta: Entry;
      if key !in e {
        if name in e { return Raised; }
        meta := Cap(maximum, 0);
      } else {
        meta := e[key];
      }
      if !meta.Cap? || meta.max < 1 || meta.used < 0 { return Raised; }
      if meta.max != maximum { return Raised; }
      if meta.used >= meta.max { return Spent(meta.used + 1, meta.max); }
      meta := Cap(meta.max, meta.used + 1);
      e := e[key := meta];
      loops := loops[run := e];
      return Granted(meta.used, meta.max);
    }

    method LoopRound(run: string, name: string) returns (r: Reply)
      modifies this
      ensures (loops, r) == DoCount(old(loops), run, name)
    {
      var e := OfRun(loops, run);
      var current := 0;
      if name in e {
        if !e[name].Counter? || e[name].n < 0 { return Raised; }
        current := e[name].n;
      }
      loops := loops[run := e[name := Counter(current + 1)]];
      return Round(current + 1);
    }

    method LoopRoundNoteCount(run: string, name: string, found: int) returns (r: Reply)
      modifies this
      ensures (loops, r) == DoNote(old(loops), run, name, found)
    {
      var e := OfRun(loops, run);
      if name !in e || !e[name].Counter? || e[name].n < 1 { return Raised; }
      var current := e[name].n;
      var counts := map[];
      if name + COUNTS in e {
        if !e[name + COUNTS].Counts? { return Raised; }
        counts := e[name + COUNTS].counts;
      }
      counts := counts[current := found];
      loops := loops[run := e[name + COUNTS := Counts(counts)]];
      return Noted(current, if current - 1 in counts then Some(counts[current - 1]) else None);
    }

    method ResetLoopRound(run: string, name: Option<string>, probe: Loops) returns (r: Reply)
      modifies this
      ensures (loops, r) == DoReset(old(loops), run, name, probe)
    {
      if name.Some? && "review:" <= name.value { return Raised; }
      if ResetRefused(probe, run, name) { return Raised; }
      if NothingToReset(probe, run, name) { return Done; }
      if ResetRefused(loops, run, name) { return Raised; }
      if name.None? {
        loops := loops - {run};
      } else if run in loops {
        var e := loops[run];
        e := e - {name.value};
        e := e - {name.value + COUNTS};
        assert e == loops[run] - {name.value, name.value + COUNTS};
        loops := loops[run := e];
      }
      return Done;
    }
  }
}
