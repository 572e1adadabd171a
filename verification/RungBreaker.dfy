/**
 The rung circuit breaker.  The ledger keeps only the last twenty attempts of a rung and a count of
 probe opportunities; the results say what those two numbers mean in terms of the full history.
 */
module RungBreaker {
  const WINDOW: nat := 20
  const PROBE_PERIOD: nat := 10

  /** One rung's ledger entry; in `events` true is a failure. */
  datatype Rung = Rung(events: seq<bool>, opportunities: nat)

  type Rungs = map<string, Rung>

  function Fetch(rungs: Rungs, id: string): Rung { if id in rungs then rungs[id] else Rung([], 0) }

  function LastN<T>(s: seq<T>, n: nat): seq<T> { if |s| <= n then s else s[|s| - n..] }

  datatype Event = Attempt(id: string, failed: bool) | Probe(id: string) | Reset(id: string)

  function Next(rungs: Rungs, e: Event): Rungs {
    match e
    case Attempt(id, failed) =>
      var r := Fetch(rungs, id);
      rungs[id := r.(events := LastN(r.events + [failed], WINDOW))]
    case Probe(id) =>
      var r := Fetch(rungs, id);
      rungs[id := r.(opportunities := r.opportunities + 1)]
    case Reset(id) => rungs - {id}
  }

  function After(events: seq<Event>): Rungs {
    if events == [] then map[] else Next(After(events[..|events| - 1]), events[|events| - 1])
  }

  predicate AllFailed(s: seq<bool>) { forall i | 0 <= i < |s| :: s[i] }

  predicate Tripped(r: Rung) { |r.events| == WINDOW && AllFailed(r.events) }

  // ---------------------------------------------------------------- the full history of one rung

  /** Every attempt since the rung's last reset. */
  function Attempts(events: seq<Event>, id: string): seq<bool> {
    if events == [] then []
    else
      var rest := Attempts(events[..|events| - 1], id);
      match events[|events| - 1]
      case Attempt(x, failed) => if x == id then rest + [failed] else rest
      case Probe(_) => rest
      case Reset(x) => if x == id then [] else rest
  }

  /** Number of probe opportunities since the rung's last reset. */
  function Opportunities(events: seq<Event>, id: string): nat {
    if events == [] then 0
    else
      var rest := Opportunities(events[..|events| - 1], id);
      match events[|events| - 1]
      case Attempt(_, _) => rest
      case Probe(x) => if x == id then rest + 1 else rest
      case Reset(x) => if x == id then 0 else rest
  }

  lemma LastNSnoc<T>(s: seq<T>, x: T, n: nat)
    requires n > 0
    ensures LastN(LastN(s, n) + [x], n) == LastN(s + [x], n)
  {
  }

  /** The bounded entry is a window on the full history. */
  lemma {:induction false} WindowRefines(events: seq<Event>, id: string)
    ensures Fetch(After(events), id) == Rung(LastN(Attempts(events, id), WINDOW), Opportunities(events, id))
  {
    if events != [] {
      var rest := events[..|events| - 1];
      WindowRefines(rest, id);
      match events[|events| - 1]
      case Attempt(x, failed) => LastNSnoc(Attempts(rest, id), failed, WINDOW);
      case _ =>
    }
  }

  /**
   Main result: a rung is tripped exactly when at least twenty attempts followed its last reset and
   the last twenty all failed, no matter how attempts, probes and resets of all rungs interleave.
   */
  lemma {:induction false} TrippedExactly(events: seq<Event>, id: string)
    ensures
      var a := Attempts(events, id);
      Tripped(Fetch(After(events), id)) <==>
      |a| >= 20 && forall i | |a| - 20 <= i < |a| :: a[i]
  {
    WindowRefines(events, id);
    var a := Attempts(events, id);
    var w := LastN(a, WINDOW);
    if |a| >= WINDOW {
      assert forall i | |a| - WINDOW <= i < |a| :: a[i] == w[i - (|a| - WINDOW)];
      if AllFailed(w) {
        forall i | |a| - WINDOW <= i < |a| ensures a[i] { assert w[i - (|a| - WINDOW)]; }
      }
      if forall i | |a| - WINDOW <= i < |a| :: a[i] {
        forall i | 0 <= i < |w| ensures w[i] { assert a[i + (|a| - WINDOW)]; }
      }
    }
  }

  /** A probe is due exactly on every tenth opportunity since the last reset, whatever else happened. */
  lemma {:induction false} ProbeDueExactly(events: seq<Event>, id: string)
    ensures
      var h := events + [Probe(id)];
      Fetch(After(h), id).opportunities % PROBE_PERIOD == 0 <==> (Opportunities(events, id) + 1) % 10 == 0
  {
    assert (events + [Probe(id)])[..|events|] == events;
    WindowRefines(events + [Probe(id)], id);
  }

  /** A rung is on record exactly when it was used since its last reset. */
  lemma {:induction false} KnownExactly(events: seq<Event>, id: string)
    ensures id in After(events) <==> Attempts(events, id) != [] || Opportunities(events, id) > 0
  {
    if events != [] { KnownExactly(events[..|events| - 1], id); }
  }

  class BreakerStore {
    var rungs: Rungs

    constructor ()
      ensures rungs == map[]
    {
      rungs := map[];
    }

    method NoteAttempt(id: string, failed: bool)
      modifies this
      ensures rungs == Next(old(rungs), Attempt(id, failed))
    {
      var r := Fetch(rungs, id);
      var events := r.events + [failed];
      if |events| > WINDOW { events := events[|events| - WINDOW..]; }
      rungs := rungs[id := Rung(events, r.opportunities)];
    }

    method Status(id: string) returns (tripped: bool, attempts: nat, opportunities: nat)
      ensures tripped == Tripped(Fetch(rungs, id))
      ensures attempts == |Fetch(rungs, id).events| && opportunities == Fetch(rungs, id).opportunities
    {
      var r := Fetch(rungs, id);
      tripped := |r.events| == WINDOW;
      var i := 0;
      while tripped && i < |r.events|
        invariant 0 <= i <= |r.events|
        invariant tripped ==> |r.events| == WINDOW && forall x | 0 <= x < i :: r.events[x]
        invariant !tripped ==> !Tripped(r)
      {
        tripped := r.events[i];
        i := i + 1;
      }
      attempts, opportunities := |r.events|, r.opportunities;
    }

    method ProbeCheck(id: string) returns (due: bool)
      modifies this
      ensures rungs == Next(old(rungs), Probe(id))
      ensures due <==> Fetch(rungs, id).opportunities % PROBE_PERIOD == 0
    {
      var r := Fetch(rungs, id);
      r := r.(opportunities := r.opportunities + 1);
      due := r.opportunities % PROBE_PERIOD == 0;
      rungs := rungs[id := r];
    }

    method ResetRung(id: string) returns (existed: bool)
      modifies this
      ensures rungs == Next(old(rungs), Reset(id)) && existed == (id in old(rungs))
    {
      existed := id in rungs;
      rungs := rungs - {id};
    }
  }
}
