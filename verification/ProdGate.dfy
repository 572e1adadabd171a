/**
 The production-authorisation predicate over the whole evidence ledger: grants, runner-executed gate
 evidence, promotions, canary rows, degraded reviews and rollback dry runs.  Ledger namespaces are
 separate fields, so an evidence id never collides with one.
 */
module ProdGate {
  import opened Common

  datatype Gate = Gate(exitCode: int, byRunner: bool, artifact: Option<string>)

  datatype Grant = Grant(expiresAt: real)

  datatype Promotion = Promotion(fromEnv: string, toEnv: string, surface: string, artifact: string,
                                 evidence: seq<string>, recordedAt: real, expiresAt: real)

  datatype Canary = Canary(run: string, sha: string, pass: bool, createdAt: string, endedAt: string)

  /** What Git says about a reviewed head; `rest` is the branch, the commits and the file lists. */
  datatype Binding = Binding(touch: bool, rest: string)

  /** The binding is absent when the caller supplied none, and on older rows. */
  datatype Review = Review(run: string, id: string, seam: string, degraded: bool, binding: Option<Binding>)

  datatype DryRun = DryRun(run: string, surface: string, command: string, exitCode: int, artifact: string)

  type Gates = map<string, Gate>
  type Grants = map<(string, string), Grant>

  datatype Ledger = Ledger(gates: Gates, grants: Grants,
                           promotions: map<string, seq<Promotion>>, canary: seq<Canary>,
                           reviews: seq<Review>, dryRuns: seq<DryRun>)

  datatype ManifestRow = ManifestRow(staging: Option<string>, rollback: Option<string>)

  type Manifest = seq<(string, ManifestRow)>

  /** Shape tests and case folding left open: regular expressions, casefold, strip. */
  datatype Rules = Rules(fold: string -> string, foldSurface: string -> string, blank: string -> bool,
                         immutableId: string -> bool, ledgerRun: string -> bool, typed: string -> bool,
                         estateScope: string -> bool)

  const MAX_TTL_HOURS: real := 168.0
  const ESTATE_TTL_HOURS: real := 8.0
  const EMPTY: Ledger := Ledger(map[], map[], map[], [], [], [])

  // ---------------------------------------------------------------- ledger writes

  datatype Event =
    | RunGate(id: string, exitCode: int, bound: Option<string>)
    | RecordGate(id: string, exitCode: int)
    | GrantActions(run: string, actions: seq<string>, ttl: real, at: real, queueMinted: bool)
    | Promote(run: string, fromEnv: string, toEnv: string, surface: string, artifact: string,
              evidence: seq<string>, ttl: real, at: real)
    | CanaryRow(canary: Canary)
    | Invocation(review: Review)
    | Rehearse(dryRun: DryRun)

  predicate Bounded(ttl: real) { 0.0 < ttl <= MAX_TTL_HOURS }

  predicate GrantAccepted(u: Rules, e: Event)
    requires e.GrantActions?
  {
    && e.actions != [] && Bounded(e.ttl)
    && forall a | a in e.actions ::
         && u.typed(a)
         && ("consolidate:" <= a ==> e.queueMinted && u.estateScope(a) && e.ttl <= ESTATE_TTL_HOURS)
  }

  predicate Proves(g: Gates, id: string, artifact: string) {
    id in g && g[id] == Gate(0, true, Some(artifact))
  }

  /** Every cited id carries a successful runner-executed gate bound to this artifact. */
  predicate EvidenceResolves(g: Gates, ids: seq<string>, artifact: string) {
    ids != [] && forall id | id in ids :: Proves(g, id, artifact)
  }

  function ReviewsOf(reviews: seq<Review>, run: string): seq<Review> {
    if reviews == [] then []
    else
      ReviewsOf(reviews[..|reviews| - 1], run)
      + (if reviews[|reviews| - 1].run == run then [reviews[|reviews| - 1]] else [])
  }

  function Degraded(reviews: seq<Review>): nat {
    if reviews == [] then 0
    else Degraded(reviews[..|reviews| - 1]) + (if reviews[|reviews| - 1].degraded then 1 else 0)
  }

  predicate RatioAllowed(l: Ledger, run: string) {
    var r := ReviewsOf(l.reviews, run);
    Degraded(r) * 2 <= |r|
  }

  /** Without a binding a degraded review counts as touching production. */
  predicate TouchesProduction(r: Review) { r.degraded && (r.binding.None? || r.binding.value.touch) }

  predicate DegradedProdTouch(l: Ledger, run: string) {
    exists r | r in l.reviews :: r.run == run && TouchesProduction(r)
  }

  /** The writer raises for prod when the run id is not ledger-shaped, before it looks at anything else. */
  predicate PromoteAccepted(u: Rules, l: Ledger, e: Event)
    requires e.Promote?
  {
    && u.immutableId(e.artifact) && e.evidence != [] && (forall id | id in e.evidence :: id != "")
    && Bounded(e.ttl)
    && (e.toEnv == "prod" ==> u.ledgerRun(e.run) && RatioAllowed(l, e.run))
    && !u.blank(e.fromEnv) && !u.blank(e.toEnv) && !u.blank(e.surface)
    && EvidenceResolves(l.gates, e.evidence, e.artifact)
  }

  function RecordOf(e: Event): Promotion
    requires e.Promote?
  {
    Promotion(e.fromEnv, e.toEnv, e.surface, e.artifact, e.evidence, e.at, e.at + e.ttl * 3600.0)
  }

  function OfRun(l: Ledger, run: string): seq<Promotion> {
    if run in l.promotions then l.promotions[run] else []
  }

  function AddGrants(g: Grants, run: string, actions: seq<string>, until: real): Grants {
    if actions == [] then g
    else AddGrants(g, run, actions[..|actions| - 1], until)[(run, actions[|actions| - 1]) := Grant(until)]
  }

  predicate Printing(c: char) { c >= ' ' && c != 0x7F as char }

  predicate EvidenceRun(run: string) { 1 <= |run| <= 128 && forall c | c in run :: Printing(c) }

  const STAMP_MAX: nat := 64

  /** What every read asks of a time stamp; the writer also refuses control characters. */
  predicate StampReads(u: Rules, s: string) { !u.blank(s) && |s| <= STAMP_MAX }

  predicate StampAccepted(u: Rules, s: string) { StampReads(u, s) && forall c | c in s :: Printing(c) }

  predicate CanaryAccepted(u: Rules, c: Canary) {
    EvidenceRun(c.run) && u.immutableId(c.sha) && StampAccepted(u, c.createdAt) && StampAccepted(u, c.endedAt)
  }

  predicate ReviewShaped(u: Rules, r: Review) { u.ledgerRun(r.run) && !u.blank(r.seam) && r.id != "" }

  /** A repeated invocation id of a run is either an idempotent replay or a conflict: no row either way. */
  predicate ReviewAccepted(u: Rules, l: Ledger, r: Review) {
    ReviewShaped(u, r) && forall x | x in l.reviews :: !(x.run == r.run && x.id == r.id)
  }

  predicate DryRunAccepted(u: Rules, d: DryRun) {
    EvidenceRun(d.run) && !u.blank(d.surface) && !u.blank(d.command) && u.immutableId(d.artifact)
  }

  function Next(u: Rules, l: Ledger, e: Event): Ledger {
    match e
    case RunGate(id, code, bound) =>
      if bound.Some? && !u.immutableId(bound.value) then l
      else l.(gates := l.gates[id := Gate(code, true, bound)])
    case RecordGate(id, code) => l.(gates := l.gates[id := Gate(code, false, None)])
    case GrantActions(run, actions, ttl, at, _) =>
      if GrantAccepted(u, e) then l.(grants := AddGrants(l.grants, run, actions, at + ttl * 3600.0)) else l
    case Promote(run, _, _, _, _, _, _, _) =>
      if PromoteAccepted(u, l, e) then l.(promotions := l.promotions[run := OfRun(l, run) + [RecordOf(e)]]) else l
    case CanaryRow(c) => if CanaryAccepted(u, c) then l.(canary := l.canary + [c]) else l
    case Invocation(r) => if ReviewAccepted(u, l, r) then l.(reviews := l.reviews + [r]) else l
    case Rehearse(d) => if DryRunAccepted(u, d) then l.(dryRuns := l.dryRuns + [d]) else l
  }

  function After(u: Rules, h: seq<Event>): Ledger {
    if h == [] then EMPTY else Next(u, After(u, h[..|h| - 1]), h[|h| - 1])
  }

  // ---------------------------------------------------------------- reads

  function Drop(s: string, n: nat): string { if n <= |s| then s[n..] else "" }

  function LStripUnderscore(s: string): string {
    if s != "" && s[0] == '_' then LStripUnderscore(s[1..]) else s
  }

  function AliasSurface(u: Rules, target: string): Option<string> {
    var t := u.fold(target);
    if t == "prod" then Some("")
    else if "prod_" <= t then Some(Drop(target, 5))
    else if t == "production" then Some("")
    else if "production-" <= t || "production_" <= t then Some(LStripUnderscore(Drop(target, 11)))
    else None
  }

  /** The surface of a production action, or None when the action is not a production one. */
  function ProdSurface(u: Rules, action: string): Option<string> {
    var f := u.fold(action);
    if "deploy:prod-" <= f then Some(Drop(action, 12))
    else if "flip:prod-" <= f then Some(Drop(action, 10))
    else if "migrate:prod-" <= f then Some(Drop(action, 13))
    else if "deploy:" <= action && AliasSurface(u, action[7..]).Some? then AliasSurface(u, action[7..])
    else if "flip:" <= action && AliasSurface(u, action[5..]).Some? then AliasSurface(u, action[5..])
    else if "migrate:" <= action then AliasSurface(u, action[8..])
    else None
  }

  /** The surface of a production hotfix, empty when it names none. */
  function HotfixSurface(u: Rules, action: string): Option<string> {
    var f := u.fold(action);
    if "hotfix:prod-" <= f || "hotfix:prod_" <= f then Some(Drop(action, 12))
    else if "hotfix:production-" <= f || "hotfix:production_" <= f then Some(Drop(action, 18))
    else if f == "hotfix:prod" || f == "hotfix:production" then Some("")
    else None
  }

  predicate CheckGrant(l: Ledger, run: string, action: string, now: real) {
    (run, action) in l.grants && now < l.grants[(run, action)].expiresAt
  }

  predicate ValidPromotion(u: Rules, l: Ledger, p: Promotion) {
    && u.immutableId(p.artifact) && p.evidence != [] && (forall id | id in p.evidence :: id != "")
    && p.recordedAt < p.expiresAt && p.expiresAt - p.recordedAt <= MAX_TTL_HOURS * 3600.0
    && EvidenceResolves(l.gates, p.evidence, p.artifact)
  }

  predicate ValidCanary(u: Rules, c: Canary) {
    EvidenceRun(c.run) && u.immutableId(c.sha) && StampReads(u, c.createdAt) && StampReads(u, c.endedAt)
  }

  predicate CanaryBoundOk(u: Rules, l: Ledger, artifact: string) {
    l.canary == [] || exists c | c in l.canary :: ValidCanary(u, c) && c.pass && c.sha == artifact
  }

  predicate Counts(u: Rules, l: Ledger, p: Promotion, toEnv: string, surface: string, artifact: string, now: real) {
    && ValidPromotion(u, l, p) && p.toEnv == toEnv && (toEnv == "prod" ==> p.fromEnv == "staging")
    && p.surface == surface && p.artifact == artifact && CanaryBoundOk(u, l, artifact) && now < p.expiresAt
  }

  predicate CheckPromotion(u: Rules, l: Ledger, run: string, toEnv: string, surface: string, artifact: string,
                           now: real)
  {
    u.immutableId(artifact) && exists p | p in OfRun(l, run) :: Counts(u, l, p, toEnv, surface, artifact, now)
  }

  /** First row whose folded key is the folded surface. */
  function FoldedRow(u: Rules, m: Manifest, surface: string): Option<ManifestRow> {
    if m == [] then None
    else if u.foldSurface(m[0].0) == u.foldSurface(surface) then Some(m[0].1)
    else FoldedRow(u, m[1..], surface)
  }

  function ExactRow(m: Manifest, surface: string): Option<ManifestRow> {
    if m == [] then None else if m[0].0 == surface then Some(m[0].1) else ExactRow(m[1..], surface)
  }

  predicate HasStaging(u: Rules, m: Option<Manifest>, surface: string) {
    m.None? ||
    var row := FoldedRow(u, m.value, surface);
    row.None? || (row.value.staging.Some? && u.foldSurface(row.value.staging.value) != "none")
  }

  predicate Registered(u: Rules, m: Option<Manifest>, hard: bool, surface: string) {
    m.Some? && hard ==> FoldedRow(u, m.value, surface).Some?
  }

  function DeclaredRollback(u: Rules, m: Option<Manifest>, surface: string): Option<string> {
    if m.None? then None
    else
      var row := ExactRow(m.value, surface);
      if row.Some? && row.value.rollback.Some? && !u.blank(row.value.rollback.value) then row.value.rollback else None
  }

  predicate DryRunOk(u: Rules, l: Ledger, run: string, surface: string, command: string, artifact: string) {
    exists d | d in l.dryRuns :: DryRunAccepted(u, d) && d == DryRun(run, surface, command, 0, artifact)
  }

  datatype Query = Query(run: string, action: string, artifact: string, manifest: Option<Manifest>, hard: bool,
                         now: real)

  /** check_grant_prod on a non-hotfix production action with surface `s`. */
  predicate Authorised(u: Rules, l: Ledger, q: Query, s: string) {
    && (u.ledgerRun(q.run) ==> RatioAllowed(l, q.run) && !DegradedProdTouch(l, q.run))
    && q.artifact != ""
    && Registered(u, q.manifest, q.hard, s) && HasStaging(u, q.manifest, s)
    && CheckGrant(l, q.run, q.action, q.now)
    && CheckPromotion(u, l, q.run, "prod", s, q.artifact, q.now)
    && var declared := DeclaredRollback(u, q.manifest, s);
       (declared.Some? ==> DryRunOk(u, l, q.run, s, declared.value, q.artifact))
  }

  // ---------------------------------------------------------------- what the history says

  /** The latest gate write of an evidence id, by runner or by caller. */
  function LatestGate(u: Rules, h: seq<Event>, id: string): Option<Gate> {
    if h == [] then None
    else
      var e := h[|h| - 1];
      if e.RunGate? && e.id == id && (e.bound.None? || u.immutableId(e.bound.value)) then
        Some(Gate(e.exitCode, true, e.bound))
      else if e.RecordGate? && e.id == id then Some(Gate(e.exitCode, false, None))
      else LatestGate(u, h[..|h| - 1], id)
  }

  /** Expiry of the latest accepted grant of exactly this action to exactly this run. */
  function LatestGrant(u: Rules, h: seq<Event>, run: string, action: string): Option<real> {
    if h == [] then None
    else
      var e := h[|h| - 1];
      if e.GrantActions? && GrantAccepted(u, e) && e.run == run && action in e.actions then Some(e.at + e.ttl * 3600.0)
      else LatestGrant(u, h[..|h| - 1], run, action)
  }

  /** The k-th event is a promotion the ledger accepted when it was made. */
  predicate PromotedAt(u: Rules, h: seq<Event>, k: int) {
    0 <= k < |h| && h[k].Promote? && PromoteAccepted(u, After(u, h[..k]), h[k])
  }

  predicate Staged(u: Rules, h: seq<Event>, k: int, q: Query, s: string) {
    && PromotedAt(u, h, k)
    && h[k].run == q.run && h[k].fromEnv == "staging" && h[k].toEnv == "prod"
    && h[k].surface == s && h[k].artifact == q.artifact && q.now < h[k].at + h[k].ttl * 3600.0
    && forall id | id in h[k].evidence :: LatestGate(u, h, id) == Some(Gate(0, true, Some(q.artifact)))
  }

  /** The k-th event is a well-formed report of this invocation. */
  predicate NamesReview(u: Rules, h: seq<Event>, k: int, run: string, id: string) {
    0 <= k < |h| && h[k].Invocation? && ReviewShaped(u, h[k].review) && h[k].review.run == run && h[k].review.id == id
  }

  /** The k-th event is the first report of its invocation: the one that counts. */
  ghost predicate ReviewedAt(u: Rules, h: seq<Event>, k: int) {
    && 0 <= k < |h| && h[k].Invocation? && ReviewShaped(u, h[k].review)
    && forall j | j < k :: !NamesReview(u, h, j, h[k].review.run, h[k].review.id)
  }

  /** Number of invocations of a run, or of its degraded ones. */
  ghost function Reviews(u: Rules, h: seq<Event>, run: string, degradedOnly: bool): nat {
    if h == [] then 0
    else
      var n := |h| - 1;
      Reviews(u, h[..n], run, degradedOnly)
      + (if ReviewedAt(u, h, n) && h[n].review.run == run && (degradedOnly ==> h[n].review.degraded) then 1 else 0)
  }

  /** At most half of a run's reviews are degraded. */
  ghost predicate MostlyUndegraded(u: Rules, h: seq<Event>, run: string) {
    2 * Reviews(u, h, run, true) <= Reviews(u, h, run, false)
  }

  predicate CanaryAt(u: Rules, h: seq<Event>, k: int) {
    0 <= k < |h| && h[k].CanaryRow? && CanaryAccepted(u, h[k].canary)
  }

  /** A canary run binds every promotion, and only a pass of this very artifact satisfies the binding. */
  ghost predicate CanaryHistoryOk(u: Rules, h: seq<Event>, artifact: string) {
    || (forall k :: !CanaryAt(u, h, k))
    || (exists k :: CanaryAt(u, h, k) && h[k].canary.pass && h[k].canary.sha == artifact)
  }

  predicate RehearsedAt(u: Rules, h: seq<Event>, k: int, d: DryRun) {
    0 <= k < |h| && h[k] == Rehearse(d) && DryRunAccepted(u, d)
  }

  // ---------------------------------------------------------------- ledger fields as functions of the history

  lemma {:induction false} GatesAre(u: Rules, h: seq<Event>, id: string)
    ensures
      var g := After(u, h).gates;
      LatestGate(u, h, id) == if id in g then Some(g[id]) else None
  {
    if h != [] { GatesAre(u, h[..|h| - 1], id); }
  }

  lemma {:induction false} AddedGrants(g: Grants, run: string, actions: seq<string>, until: real,
                                       r: string, a: string)
    ensures
      var g' := AddGrants(g, run, actions, until);
      if r == run && a in actions then (r, a) in g' && g'[(r, a)] == Grant(until)
      else ((r, a) in g' <==> (r, a) in g) && ((r, a) in g ==> g'[(r, a)] == g[(r, a)])
  {
    if actions != [] {
      AddedGrants(g, run, actions[..|actions| - 1], until, r, a);
      assert actions == actions[..|actions| - 1] + [actions[|actions| - 1]];
    }
  }

  lemma {:induction false} GrantsAre(u: Rules, h: seq<Event>, run: string, action: string)
    ensures
      var g := After(u, h).grants;
      LatestGrant(u, h, run, action) == if (run, action) in g then Some(g[(run, action)].expiresAt) else None
  {
    if h != [] {
      GrantsAre(u, h[..|h| - 1], run, action);
      var e := h[|h| - 1];
      if e.GrantActions? {
        AddedGrants(After(u, h[..|h| - 1]).grants, e.run, e.actions, e.at + e.ttl * 3600.0, run, action);
      }
    }
  }

  /** An accepted promotion stays on the ledger, and nothing else is on it. */
  lemma {:induction false} PromotionIsKept(u: Rules, h: seq<Event>, k: int)
    requires PromotedAt(u, h, k)
    ensures RecordOf(h[k]) in OfRun(After(u, h), h[k].run)
  {
    var n := |h| - 1;
    assert h[..n][..k] == h[..k];
    if k < n { PromotionIsKept(u, h[..n], k); }
  }

  lemma {:induction false} PromotionHasOrigin(u: Rules, h: seq<Event>, run: string, p: Promotion) returns (k: nat)
    requires p in OfRun(After(u, h), run)
    ensures PromotedAt(u, h, k) && h[k].run == run && RecordOf(h[k]) == p
  {
    var n := |h| - 1;
    var rest := h[..n];
    if p in OfRun(After(u, rest), run) {
      k := PromotionHasOrigin(u, rest, run, p);
      assert rest[..k] == h[..k];
    } else {
      k := n;
    }
  }

  /** The ledger has a row of an invocation exactly when some event reported it. */
  lemma {:induction false} KnownReviews(u: Rules, h: seq<Event>, run: string, id: string)
    ensures (exists x | x in After(u, h).reviews :: x.run == run && x.id == id)
            <==> exists k :: NamesReview(u, h, k, run, id)
  {
    if h != [] {
      var n := |h| - 1;
      var rest := h[..n];
      KnownReviews(u, rest, run, id);
      var was, now := After(u, rest).reviews, After(u, h).reviews;
      assert was <= now;
      if x :| x in was && x.run == run && x.id == id { assert x in now; }
      if k :| NamesReview(u, rest, k, run, id) { assert NamesReview(u, h, k, run, id); }
      if k :| NamesReview(u, h, k, run, id) {
        if k < n { assert NamesReview(u, rest, k, run, id); }
        else if ReviewAccepted(u, After(u, rest), h[n].review) { assert now[|was|] in now; }
      }
      if now != was { assert NamesReview(u, h, n, now[|was|].run, now[|was|].id); }
    }
  }

  /** The writer takes exactly the first report of an invocation. */
  lemma FirstIsAccepted(u: Rules, h: seq<Event>)
    requires h != [] && h[|h| - 1].Invocation?
    ensures ReviewAccepted(u, After(u, h[..|h| - 1]), h[|h| - 1].review) <==> ReviewedAt(u, h, |h| - 1)
  {
    var n := |h| - 1;
    var r, rest := h[n].review, h[..n];
    KnownReviews(u, rest, r.run, r.id);
    forall j ensures NamesReview(u, rest, j, r.run, r.id) <==> j < n && NamesReview(u, h, j, r.run, r.id) {}
  }

  lemma ReviewedEarlier(u: Rules, h: seq<Event>, k: int)
    requires h != []
    ensures ReviewedAt(u, h[..|h| - 1], k) <==> ReviewedAt(u, h, k) && k < |h| - 1
  {
    var rest := h[..|h| - 1];
    if 0 <= k < |rest| && h[k].Invocation? {
      var r := h[k].review;
      forall j | j < k ensures NamesReview(u, rest, j, r.run, r.id) <==> NamesReview(u, h, j, r.run, r.id) {}
    }
  }

  lemma {:induction false} ReviewsAre(u: Rules, h: seq<Event>, r: Review)
    ensures r in After(u, h).reviews <==> exists k :: ReviewedAt(u, h, k) && h[k].review == r
  {
    if h != [] {
      var n := |h| - 1;
      var rest := h[..n];
      ReviewsAre(u, rest, r);
      if h[n].Invocation? { FirstIsAccepted(u, h); }
      if r in After(u, rest).reviews {
        var k :| ReviewedAt(u, rest, k) && rest[k].review == r;
        ReviewedEarlier(u, h, k);
      } else if r in After(u, h).reviews {
        assert ReviewedAt(u, h, n);
      }
      if k :| ReviewedAt(u, h, k) && h[k].review == r {
        ReviewedEarlier(u, h, k);
      }
    }
  }

  lemma {:induction false} ReviewsOfSnoc(reviews: seq<Review>, r: Review, run: string)
    ensures ReviewsOf(reviews + [r], run) == ReviewsOf(reviews, run) + (if r.run == run then [r] else [])
    ensures Degraded(ReviewsOf(reviews + [r], run)) ==
            Degraded(ReviewsOf(reviews, run)) + (if r.run == run && r.degraded then 1 else 0)
  {
    assert (reviews + [r])[..|reviews|] == reviews;
    var of := ReviewsOf(reviews, run);
    assert (of + [r])[..|of|] == of && of + [] == of;
  }

  lemma NextReviews(u: Rules, l: Ledger, e: Event)
    ensures Next(u, l, e).reviews ==
            l.reviews + (if e.Invocation? && ReviewAccepted(u, l, e.review) then [e.review] else [])
  {
    assert l.reviews + [] == l.reviews;
  }

  lemma {:induction false} ReviewRowAdded(u: Rules, h: seq<Event>)
    requires h != []
    ensures
      var n := |h| - 1;
      After(u, h).reviews ==
        After(u, h[..n]).reviews + (if ReviewedAt(u, h, n) then [h[n].review] else [])
  {
    var n := |h| - 1;
    NextReviews(u, After(u, h[..n]), h[n]);
    if h[n].Invocation? { FirstIsAccepted(u, h); }
  }

  /** The writer's and the reader's counts are the counts of the history. */
  lemma {:induction false} CountsAre(u: Rules, h: seq<Event>, run: string)
    ensures |ReviewsOf(After(u, h).reviews, run)| == Reviews(u, h, run, false)
    ensures Degraded(ReviewsOf(After(u, h).reviews, run)) == Reviews(u, h, run, true)
  {
    if h != [] {
      var rest := h[..|h| - 1];
      CountsAre(u, rest, run);
      var was, now := After(u, rest).reviews, After(u, h).reviews;
      ReviewRowAdded(u, h);
      if ReviewedAt(u, h, |h| - 1) {
        ReviewsOfSnoc(was, h[|h| - 1].review, run);
      } else {
        assert now == was;
      }
    }
  }

  lemma {:induction false} RatioRead(u: Rules, h: seq<Event>, run: string)
    ensures RatioAllowed(After(u, h), run) <==> MostlyUndegraded(u, h, run)
  {
    CountsAre(u, h, run);
  }

  lemma {:induction false} CanariesAre(u: Rules, h: seq<Event>, c: Canary)
    ensures c in After(u, h).canary <==> exists k :: CanaryAt(u, h, k) && h[k].canary == c
  {
    if h != [] {
      var n := |h| - 1;
      var rest := h[..n];
      CanariesAre(u, rest, c);
      assert forall k | 0 <= k < n :: CanaryAt(u, h, k) <==> CanaryAt(u, rest, k);
      if c in After(u, h).canary && c !in After(u, rest).canary { assert CanaryAt(u, h, n); }
      if k :| CanaryAt(u, rest, k) && rest[k].canary == c { assert CanaryAt(u, h, k); }
    }
  }

  lemma {:induction false} DryRunsAre(u: Rules, h: seq<Event>, d: DryRun)
    ensures d in After(u, h).dryRuns <==> exists k :: RehearsedAt(u, h, k, d)
  {
    if h != [] {
      var n := |h| - 1;
      var rest := h[..n];
      DryRunsAre(u, rest, d);
      assert forall k | 0 <= k < n :: RehearsedAt(u, h, k, d) <==> RehearsedAt(u, rest, k, d);
      if d in After(u, h).dryRuns && d !in After(u, rest).dryRuns { assert RehearsedAt(u, h, n, d); }
      if exists k :: RehearsedAt(u, rest, k, d) {
        var k :| RehearsedAt(u, rest, k, d);
        assert RehearsedAt(u, h, k, d);
      }
    }
  }

  lemma {:induction false} CanaryBinding(u: Rules, h: seq<Event>, artifact: string)
    ensures CanaryBoundOk(u, After(u, h), artifact) <==> CanaryHistoryOk(u, h, artifact)
  {
    var rows := After(u, h).canary;
    if k :| CanaryAt(u, h, k) {
      CanariesAre(u, h, h[k].canary);
      assert rows != [];
    }
    if rows != [] { CanariesAre(u, h, rows[0]); }
    if c :| c in rows && ValidCanary(u, c) && c.pass && c.sha == artifact {
      CanariesAre(u, h, c);
    }
    if k :| CanaryAt(u, h, k) && h[k].canary.pass && h[k].canary.sha == artifact {
      CanariesAre(u, h, h[k].canary);
      assert h[k].canary in rows;
    }
  }

  lemma {:induction false} EvidenceNow(u: Rules, h: seq<Event>, ids: seq<string>, artifact: string)
    requires ids != []
    ensures EvidenceResolves(After(u, h).gates, ids, artifact)
            <==> forall id | id in ids :: LatestGate(u, h, id) == Some(Gate(0, true, Some(artifact)))
  {
    forall id | id in ids
      ensures Proves(After(u, h).gates, id, artifact) <==> LatestGate(u, h, id) == Some(Gate(0, true, Some(artifact)))
    {
      GatesAre(u, h, id);
    }
  }

  lemma {:induction false} PromotionCounts(u: Rules, h: seq<Event>, k: int, q: Query, s: string)
    requires PromotedAt(u, h, k) && h[k].run == q.run
    ensures Counts(u, After(u, h), RecordOf(h[k]), "prod", s, q.artifact, q.now)
            <==> Staged(u, h, k, q, s) && CanaryHistoryOk(u, h, q.artifact)
  {
    CanaryBinding(u, h, q.artifact);
    EvidenceNow(u, h, h[k].evidence, h[k].artifact);
    assert 0.0 < h[k].ttl * 3600.0 <= MAX_TTL_HOURS * 3600.0;
  }

  lemma {:induction false} PromotionRead(u: Rules, h: seq<Event>, q: Query, s: string)
    ensures CheckPromotion(u, After(u, h), q.run, "prod", s, q.artifact, q.now)
            <==> (exists k :: Staged(u, h, k, q, s)) && CanaryHistoryOk(u, h, q.artifact)
  {
    var l := After(u, h);
    if CheckPromotion(u, l, q.run, "prod", s, q.artifact, q.now) {
      var p :| p in OfRun(l, q.run) && Counts(u, l, p, "prod", s, q.artifact, q.now);
      var k := PromotionHasOrigin(u, h, q.run, p);
      PromotionCounts(u, h, k, q, s);
    }
    if (exists k :: Staged(u, h, k, q, s)) && CanaryHistoryOk(u, h, q.artifact) {
      var k :| Staged(u, h, k, q, s);
      PromotionIsKept(u, h, k);
      PromotionCounts(u, h, k, q, s);
    }
  }

  /** No accepted review of this run is degraded and production-touching. */
  ghost predicate ReviewsClean(u: Rules, h: seq<Event>, run: string) {
    forall k | ReviewedAt(u, h, k) && h[k].review.run == run :: !TouchesProduction(h[k].review)
  }

  lemma {:induction false} ReviewsRead(u: Rules, h: seq<Event>, run: string)
    ensures DegradedProdTouch(After(u, h), run) <==> !ReviewsClean(u, h, run)
  {
    var l := After(u, h);
    if DegradedProdTouch(l, run) {
      var r :| r in l.reviews && r.run == run && TouchesProduction(r);
      ReviewsAre(u, h, r);
    }
    if !ReviewsClean(u, h, run) {
      var k :| ReviewedAt(u, h, k) && h[k].review.run == run && TouchesProduction(h[k].review);
      ReviewsAre(u, h, h[k].review);
    }
  }

  lemma {:induction false} GrantRead(u: Rules, h: seq<Event>, q: Query)
    ensures CheckGrant(After(u, h), q.run, q.action, q.now)
            <==> LatestGrant(u, h, q.run, q.action).Some? && q.now < LatestGrant(u, h, q.run, q.action).value
  {
    GrantsAre(u, h, q.run, q.action);
  }

  /** The declared rollback of the exactly spelled surface was rehearsed in this run for this artifact. */
  ghost predicate Rehearsed(u: Rules, h: seq<Event>, q: Query, s: string) {
    var declared := DeclaredRollback(u, q.manifest, s);
    declared.Some? ==> exists k :: RehearsedAt(u, h, k, DryRun(q.run, s, declared.value, 0, q.artifact))
  }

  lemma {:induction false} RehearsalRead(u: Rules, h: seq<Event>, q: Query, s: string)
    ensures
      var declared := DeclaredRollback(u, q.manifest, s);
      (declared.Some? ==> DryRunOk(u, After(u, h), q.run, s, declared.value, q.artifact)) <==> Rehearsed(u, h, q, s)
  {
    var declared := DeclaredRollback(u, q.manifest, s);
    if declared.Some? {
      var d := DryRun(q.run, s, declared.value, 0, q.artifact);
      DryRunsAre(u, h, d);
      if exists k :: RehearsedAt(u, h, k, d) { assert DryRunAccepted(u, d); }
    }
  }

  /**
   Main result.  Over every history of ledger writes, a non-hotfix production action on surface `s` is
   authorised if and only if: its latest grant is unexpired; some accepted staging-to-prod promotion of
   this run, surface and artifact is unexpired and each evidence id it cites has, as its latest gate
   write, a runner-executed exit 0 bound to that artifact; the canary binding holds; no accepted review
   of the run is degraded and production-touching, and at most half are degraded; the manifest does
   not refuse the surface; and a declared rollback was rehearsed in this run.
   */
  lemma {:induction false} AuthorisedExactly(u: Rules, h: seq<Event>, q: Query, s: string)
    ensures Authorised(u, After(u, h), q, s) <==>
      && q.artifact != ""
      && LatestGrant(u, h, q.run, q.action).Some? && q.now < LatestGrant(u, h, q.run, q.action).value
      && (exists k :: Staged(u, h, k, q, s))
      && CanaryHistoryOk(u, h, q.artifact)
      && ReviewsClean(u, h, q.run) && MostlyUndegraded(u, h, q.run)
      && Registered(u, q.manifest, q.hard, s) && HasStaging(u, q.manifest, s)
      && Rehearsed(u, h, q, s)
  {
    GrantRead(u, h, q);
    PromotionRead(u, h, q, s);
    ReviewsRead(u, h, q.run);
    RatioRead(u, h, q.run);
    RehearsalRead(u, h, q, s);
  }

  /** When a promotion was accepted, in terms of the history before it: no ledger is left in the statement. */
  lemma {:induction false} PromotedExactly(u: Rules, h: seq<Event>, k: int)
    requires 0 <= k < |h| && h[k].Promote?
    ensures PromotedAt(u, h, k) <==>
      var e := h[k];
      && u.immutableId(e.artifact) && 0.0 < e.ttl <= 168.0
      && !u.blank(e.fromEnv) && !u.blank(e.toEnv) && !u.blank(e.surface)
      && (e.toEnv == "prod" ==> u.ledgerRun(e.run) && MostlyUndegraded(u, h[..k], e.run))
      && e.evidence != []
      && (forall id | id in e.evidence ::
            id != "" && LatestGate(u, h[..k], id) == Some(Gate(0, true, Some(e.artifact))))
  {
    RatioRead(u, h[..k], h[k].run);
    if h[k].evidence != [] { EvidenceNow(u, h[..k], h[k].evidence, h[k].artifact); }
  }

  /** Only ledger-shaped runs are ever authorised: the promotion writer refuses prod to every other run id. */
  lemma {:induction false} OnlyLedgerRunsAreAuthorised(u: Rules, h: seq<Event>, q: Query, s: string)
    requires Authorised(u, After(u, h), q, s)
    ensures u.ledgerRun(q.run)
  {
    PromotionRead(u, h, q, s);
    var k :| Staged(u, h, k, q, s);
  }

  /** A later gate write of any cited id withdraws the promotions that cite it. */
  lemma {:induction false} FailedRerunWithdraws(u: Rules, h: seq<Event>, q: Query, s: string, e: Event)
    requires e.RecordGate? || (e.RunGate? && e.exitCode != 0 && (e.bound.None? || u.immutableId(e.bound.value)))
    requires forall k | Staged(u, h, k, q, s) :: e.id in h[k].evidence
    ensures !Authorised(u, After(u, h + [e]), q, s)
  {
    var h' := h + [e];
    assert h'[..|h|] == h;
    if Authorised(u, After(u, h'), q, s) {
      PromotionRead(u, h', q, s);
      var k :| Staged(u, h', k, q, s);
      assert k < |h| && h'[..k] == h[..k];
      assert LatestGate(u, h', e.id) == Some(Gate(e.exitCode, e.RunGate?, if e.RunGate? then e.bound else None));
      assert e.id !in h[k].evidence;
      forall id | id in h[k].evidence ensures LatestGate(u, h, id) == Some(Gate(0, true, Some(q.artifact))) {
        assert LatestGate(u, h', id) == LatestGate(u, h, id);
      }
      assert Staged(u, h, k, q, s);
    }
  }
}
