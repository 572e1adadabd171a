/**
 The ledger writers and the production check as procedures over one mutable store, each proved to do
 what the pure ledger of ProdGate says.
 */
module ProdStore {
  import opened Common
  import opened ProdActions
  import opened ProdGate

  class LedgerStore {
    const u: Rules
    var gates: map<string, Gate>
    var grants: map<(string, string), Grant>
    var promotions: map<string, seq<Promotion>>
    var canary: seq<Canary>
    var reviews: seq<Review>
    var dryRuns: seq<DryRun>
    ghost var history: seq<Event>

    constructor (u: Rules)
      ensures this.u == u && View() == EMPTY && Valid()
    {
      this.u := u;
      gates, grants, promotions, canary, reviews, dryRuns, history := map[], map[], map[], [], [], [], [];
    }

    function View(): Ledger
      reads this
    {
      Ledger(gates, grants, promotions, canary, reviews, dryRuns)
    }

    /** The store holds what its history of writes left. */
    ghost predicate Valid()
      reads this
    {
      View() == After(u, history)
    }

    /** A write that did to the ledger what its event does keeps the history true. */
    ghost method Log(e: Event)
      requires View() == Next(u, After(u, history), e)
      modifies `history
      ensures Valid() && history == old(history) + [e]
    {
      assert (history + [e])[..|history|] == history;
      history := history + [e];
    }

    /** None is the raised error for a mutable artifact reference. */
    method RunGateCommand(id: string, exitCode: int, bound: Option<string>) returns (r: Option<int>)
      requires Valid()
      modifies `gates, `history
      ensures View() == Next(u, old(View()), RunGate(id, exitCode, bound))
      ensures Valid() && history == old(history) + [RunGate(id, exitCode, bound)]
      ensures r == if bound.Some? && !u.immutableId(bound.value) then None else Some(exitCode)
    {
      if bound.Some? && !u.immutableId(bound.value) {
        Log(RunGate(id, exitCode, bound));
        return None;
      }
      var gate := Gate(exitCode, true, None);
      if bound.Some? { gate := gate.(artifact := bound); }
      gates := gates[id := gate];
      Log(RunGate(id, exitCode, bound));
      return Some(exitCode);
    }

    method RecordGateEvidence(id: string, exitCode: int)
      requires Valid()
      modifies `gates, `history
      ensures View() == Next(u, old(View()), RecordGate(id, exitCode))
      ensures Valid() && history == old(history) + [RecordGate(id, exitCode)]
    {
      gates := gates[id := Gate(exitCode, false, None)];
      Log(RecordGate(id, exitCode));
    }

    method GrantAll(run: string, actions: seq<string>, ttl: real, at: real, queueMinted: bool) returns (ok: bool)
      requires Valid()
      modifies `grants, `history
      ensures View() == Next(u, old(View()), GrantActions(run, actions, ttl, at, queueMinted))
      ensures Valid() && history == old(history) + [GrantActions(run, actions, ttl, at, queueMinted)]
      ensures ok <==>
        && actions != [] && 0.0 < ttl <= 168.0
        && forall a | a in actions ::
             && u.typed(a)
             && ("consolidate:" <= a ==> queueMinted && u.estateScope(a) && ttl <= 8.0)
    {
      ok := Terms(actions, ttl, queueMinted);
      if ok { Enter(run, actions, at + ttl * 3600.0); }
      Log(GrantActions(run, actions, ttl, at, queueMinted));
    }

    /** The checks on what is to be granted. */
    method Terms(actions: seq<string>, ttl: real, queueMinted: bool) returns (ok: bool)
      ensures ok <==>
        && actions != [] && Bounded(ttl)
        && forall a | a in actions ::
             && u.typed(a)
             && ("consolidate:" <= a ==> queueMinted && u.estateScope(a) && ttl <= ESTATE_TTL_HOURS)
    {
      if actions == [] || !Bounded(ttl) { return false; }
      var n := 0;
      while n < |actions|
        invariant 0 <= n <= |actions|
        invariant forall x | 0 <= x < n ::
          && u.typed(actions[x])
          && ("consolidate:" <= actions[x] ==> queueMinted && u.estateScope(actions[x]) && ttl <= ESTATE_TTL_HOURS)
      {
        var a := actions[n];
        if !u.typed(a) { return false; }
        if "consolidate:" <= a && !(queueMinted && u.estateScope(a) && ttl <= ESTATE_TTL_HOURS) { return false; }
        n := n + 1;
      }
      return true;
    }

    /** The loop that writes the grants. */
    method Enter(run: string, actions: seq<string>, until: real)
      modifies `grants
      ensures grants == AddGrants(old(grants), run, actions, until)
    {
      var n := 0;
      while n < |actions|
        invariant 0 <= n <= |actions|
        invariant grants == AddGrants(old(grants), run, actions[..n], until)
      {
        assert actions[..n + 1][..n] == actions[..n];
        grants := grants[(run, actions[n]) := Grant(until)];
        n := n + 1;
      }
      assert actions[..|actions|] == actions;
    }

    method Resolves(ids: seq<string>, artifact: string) returns (ok: bool)
      ensures ok == EvidenceResolves(gates, ids, artifact)
    {
      if ids == [] { return false; }
      var n := 0;
      while n < |ids|
        invariant 0 <= n <= |ids|
        invariant forall x | 0 <= x < n :: Proves(gates, ids[x], artifact)
      {
        var g := if ids[n] in gates then gates[ids[n]] else Gate(1, false, None);
        if g.exitCode != 0 || !g.byRunner || g.artifact != Some(artifact) {
          assert ids[n] in ids && !Proves(gates, ids[n], artifact);
          return false;
        }
        n := n + 1;
      }
      return true;
    }

    /** None is the raised error: a run id that is not ledger-shaped, or too many degraded reviews. */
    method RecordPromotion(e: Event) returns (ok: Option<bool>)
      requires Valid() && e.Promote?
      modifies `promotions, `history
      ensures View() == Next(u, old(View()), e)
      ensures Valid() && history == old(history) + [e]
      ensures ok == Some(true) <==> PromoteAccepted(u, old(View()), e)
    {
      ok := Promoted(e);
      Log(e);
    }

    method Promoted(e: Event) returns (ok: Option<bool>)
      requires e.Promote?
      modifies `promotions
      ensures View() == Next(u, old(View()), e)
      ensures ok == Some(true) <==> PromoteAccepted(u, old(View()), e)
    {
      if !u.immutableId(e.artifact) || e.evidence == [] || "" in e.evidence || !Bounded(e.ttl) { return Some(false); }
      if e.toEnv == "prod" && !(u.ledgerRun(e.run) && RatioAllowed(View(), e.run)) { return None; }
      var resolves := Resolves(e.evidence, e.artifact);
      if u.blank(e.fromEnv) || u.blank(e.toEnv) || u.blank(e.surface) || !resolves { return Some(false); }
      promotions := promotions[e.run := OfRun(View(), e.run) + [RecordOf(e)]];
      return Some(true);
    }

    /** The scan of a run's promotion records. */
    method PromotionInForce(run: string, toEnv: string, surface: string, artifact: string, now: real) returns (ok: bool)
      ensures ok == CheckPromotion(u, View(), run, toEnv, surface, artifact, now)
    {
      if !u.immutableId(artifact) { return false; }
      var records := OfRun(View(), run);
      var n := 0;
      while n < |records|
        invariant 0 <= n <= |records|
        invariant forall x | 0 <= x < n :: !Counts(u, View(), records[x], toEnv, surface, artifact, now)
      {
        var p := records[n];
        n := n + 1;
        if !ValidPromotion(u, View(), p) { continue; }
        if p.toEnv != toEnv { continue; }
        if toEnv == "prod" && p.fromEnv != "staging" { continue; }
        if p.surface != surface || p.artifact != artifact { continue; }
        if !CanaryBoundOk(u, View(), artifact) { continue; }
        if now < p.expiresAt {
          assert p in records && Counts(u, View(), p, toEnv, surface, artifact, now);
          return true;
        }
      }
      return false;
    }

    /**
     The production check, refusals in their order; an ordinary action only needs its grant.  A production
     hotfix needs a surface and the verdict of its own check, which is an input here.
     */
    method CheckGrantProd(q: Query, bypass: bool) returns (ok: bool)
      requires Valid()
      ensures Verdict(u, history, q, bypass, ok)
      ensures forall verb, s |
        ok && verb in VERBS && q.action == verb + ":prod-" + s && verb + ":prod-" <= u.fold(q.action) ::
          exists k :: Staged(u, history, k, q, s)
    {
      ok := Decide(q, bypass);
      CheckIsVerdict(u, history, q, bypass, ok);
      forall verb, s |
        ok && verb in VERBS && q.action == verb + ":prod-" + s && verb + ":prod-" <= u.fold(q.action)
        ensures exists k :: Staged(u, history, k, q, s)
      {
        assert q.action[|verb| + 6..] == s;
        VerbIsNoHotfix(u, q.action, verb);
        assert Canonical(u, q.action, verb, s);
        assert NamesProd(u, q.action, s);
      }
    }

    method Decide(q: Query, bypass: bool) returns (ok: bool)
      ensures
        var hotfix, s := HotfixSurface(u, q.action), ProdSurface(u, q.action);
        ok == if hotfix.Some? then hotfix.value != "" && bypass
              else if s.None? then CheckGrant(View(), q.run, q.action, q.now)
              else Authorised(u, View(), q, s.value)
    {
      var hotfix := HotfixSurface(u, q.action);
      if hotfix.Some? {
        if hotfix.value == "" { return false; }
        return bypass;
      }
      var surface := ProdSurface(u, q.action);
      if surface.None? { return CheckGrant(View(), q.run, q.action, q.now); }
      var s := surface.value;
      if u.ledgerRun(q.run) {
        if !RatioAllowed(View(), q.run) { return false; }
        if DegradedProdTouch(View(), q.run) { return false; }
      }
      if q.artifact == "" { return false; }
      if q.manifest.Some? && q.hard && FoldedRow(u, q.manifest.value, s).None? { return false; }
      if q.manifest.Some? && !HasStaging(u, q.manifest, s) { return false; }
      if !CheckGrant(View(), q.run, q.action, q.now) { return false; }
      var promoted := PromotionInForce(q.run, "prod", s, q.artifact, q.now);
      if !promoted { return false; }
      var declared := DeclaredRollback(u, q.manifest, s);
      if declared.None? { return true; }
      return DryRunOk(u, View(), q.run, s, declared.value, q.artifact);
    }

    method RecordCanary(c: Canary) returns (ok: bool)
      requires Valid()
      modifies `canary, `history
      ensures View() == Next(u, old(View()), CanaryRow(c))
      ensures Valid() && history == old(history) + [CanaryRow(c)]
      ensures ok <==>
        && 1 <= |c.run| <= 128 && (forall x | x in c.run :: x >= ' ' && x != 0x7F as char)
        && u.immutableId(c.sha) && StampAccepted(u, c.createdAt) && StampAccepted(u, c.endedAt)
    {
      ok := EvidenceRun(c.run) && u.immutableId(c.sha) && StampAccepted(u, c.createdAt) && StampAccepted(u, c.endedAt);
      if ok { canary := canary + [c]; }
      Log(CanaryRow(c));
    }

    /**
     False for an identical replay of the whole event, binding included; None is a raised error: a
     malformed event, a binding Git refused, or a differing event under a known id.
     */
    method NoteInvocation(r: Review, bindingRefused: bool) returns (ok: Option<bool>)
      requires Valid()
      modifies `reviews, `history
      ensures Valid() && history == if bindingRefused then old(history) else old(history) + [Invocation(r)]
      ensures View() == if bindingRefused then old(View()) else Next(u, old(View()), Invocation(r))
      ensures ok == Some(true) <==> !bindingRefused && ReviewAccepted(u, old(View()), r)
      ensures ok == Some(false) ==> r in reviews
      ensures ok == None && ReviewShaped(u, r) && !bindingRefused ==>
                exists x | x in reviews :: x.run == r.run && x.id == r.id && x != r
      ensures ok == None <== !u.ledgerRun(r.run) || u.blank(r.seam) || r.id == "" || bindingRefused
    {
      ok := Noted(r, bindingRefused);
      if !bindingRefused { Log(Invocation(r)); }
    }

    method Noted(r: Review, bindingRefused: bool) returns (ok: Option<bool>)
      modifies `reviews
      ensures View() == if bindingRefused then old(View()) else Next(u, old(View()), Invocation(r))
      ensures ok == Some(true) <==> !bindingRefused && ReviewAccepted(u, old(View()), r)
      ensures ok == Some(false) ==> r in reviews
      ensures ok == None && ReviewShaped(u, r) && !bindingRefused ==>
                exists x | x in reviews :: x.run == r.run && x.id == r.id && x != r
      ensures ok == None <== !u.ledgerRun(r.run) || u.blank(r.seam) || r.id == "" || bindingRefused
    {
      if !u.ledgerRun(r.run) { return None; }
      if u.blank(r.seam) || r.id == "" { return None; }
      if bindingRefused { return None; }
      var n := 0;
      while n < |reviews|
        invariant 0 <= n <= |reviews|
        invariant forall x | 0 <= x < n :: !(reviews[x].run == r.run && reviews[x].id == r.id)
      {
        if reviews[n].run == r.run && reviews[n].id == r.id {
          return if reviews[n] == r then Some(false) else None;
        }
        n := n + 1;
      }
      reviews := reviews + [r];
      return Some(true);
    }

    method RecordDryRun(d: DryRun) returns (ok: bool)
      requires Valid()
      modifies `dryRuns, `history
      ensures View() == Next(u, old(View()), Rehearse(d))
      ensures Valid() && history == old(history) + [Rehearse(d)]
      ensures ok <==>
        && 1 <= |d.run| <= 128 && (forall x | x in d.run :: x >= ' ' && x != 0x7F as char)
        && !u.blank(d.surface) && !u.blank(d.command) && u.immutableId(d.artifact)
    {
      ok := EvidenceRun(d.run) && !u.blank(d.surface) && !u.blank(d.command) && u.immutableId(d.artifact);
      if ok { dryRuns := dryRuns + [d]; }
      Log(Rehearse(d));
    }
  }
}
