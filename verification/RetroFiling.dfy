/**
 Retro issue filing: a write-ahead ledger around an external `gh issue create` that cannot be
 rolled back.  The ledger on disk is kept apart from the rows in memory, the process may die at any
 point, and what the tracker really holds is counted beside them.
 */
module RetroFiling {
  import opened Common

  datatype Action = Accrue | Create | Comment | Pending | Defer | Auth

  /** The optional "count" key of a ledger row; old rows have none, foreign rows may hold anything. */
  datatype CountKey = Missing | Int(n: int) | Junk

  datatype Row = Row(action: Action, fp: Option<string>, run: string, issue: Option<int>,
                     count: CountKey, occurrences: nat, failed: bool)

  datatype Finding = Finding(fp: string, p3: bool)

  /** One element of a payload: admitted by the aggregation filter or not. */
  datatype Item = Filable(finding: Finding) | Unfilable

  /** A `gh` write: its exit status, the number it prints, and whether the tracker really changed. */
  datatype Reply = Reply(exitZero: bool, happened: bool, number: nat, knownStatus: bool)

  datatype Death = Lives | DiesEarly | DiesAfterPublish | DiesAfterCall

  /** Everything outside the ledger that one filing depends on. */
  datatype Env = Env(run: string, floor: nat, cap: nat, listed: Option<int>, searched: Option<int>,
                     late: Option<int>, reply: Reply, death: Death)

  datatype Code = PendingIntent | Accrued | Capped | Commented | Created | KnownFailure | WriteFailure

  /** `said` is the occurrence number sent to the tracker, `published` the ledger saved before a create. */
  datatype Filing = Filing(rows: seq<Row>, published: Option<seq<Row>>, said: Option<nat>, code: Code)

  // ---------------------------------------------------------------- ledger arithmetic

  function RowCount(r: Row): nat {
    if r.count.Int? && r.count.n > 0 then r.count.n else 1
  }

  predicate Counted(r: Row, fp: string) {
    r.fp == Some(fp) && (r.action.Accrue? || r.action.Create? || r.action.Comment? || r.action.Pending?)
  }

  function Total(rows: seq<Row>, fp: string): nat {
    if rows == [] then 0
    else Total(rows[..|rows| - 1], fp) + (if Counted(rows[|rows| - 1], fp) then RowCount(rows[|rows| - 1]) else 0)
  }

  predicate IsPending(r: Row, fp: string) { r.action.Pending? && r.fp == Some(fp) }

  predicate IsNumbered(r: Row, fp: string) { r.action.Create? && r.fp == Some(fp) && r.issue.Some? }

  predicate HasPending(rows: seq<Row>, fp: string) { exists r | r in rows :: IsPending(r, fp) }

  predicate HasNumbered(rows: seq<Row>, fp: string) { exists r | r in rows :: IsNumbered(r, fp) }

  /** Smallest issue number among the recorded creates of a fingerprint. */
  function FirstIssue(rows: seq<Row>, fp: string): (n: int)
    requires HasNumbered(rows, fp)
    ensures exists r | r in rows :: IsNumbered(r, fp) && r.issue.value == n
    ensures forall r | r in rows && IsNumbered(r, fp) :: n <= r.issue.value
  {
    var last := rows[|rows| - 1];
    var rest := rows[..|rows| - 1];
    if HasNumbered(rest, fp) then
      var n := FirstIssue(rest, fp);
      if IsNumbered(last, fp) && last.issue.value < n then last.issue.value else n
    else
      assert IsNumbered(last, fp);
      last.issue.value
  }

  function CreatesOfRun(rows: seq<Row>, run: string): nat {
    if rows == [] then 0
    else CreatesOfRun(rows[..|rows| - 1], run)
         + (if rows[|rows| - 1].action.Create? && rows[|rows| - 1].run == run then 1 else 0)
  }

  /** The rows without the fingerprint's pending intents. */
  function DropPending(rows: seq<Row>, fp: string): seq<Row> {
    if rows == [] then []
    else
      var rest := DropPending(rows[..|rows| - 1], fp);
      if IsPending(rows[|rows| - 1], fp) then rest else rest + [rows[|rows| - 1]]
  }

  lemma {:induction false} DropNothing(rows: seq<Row>, fp: string)
    requires !HasPending(rows, fp)
    ensures DropPending(rows, fp) == rows
  {
    if rows != [] {
      assert rows[|rows| - 1] in rows;
      forall r | r in rows[..|rows| - 1] ensures !IsPending(r, fp) { assert r in rows; }
      DropNothing(rows[..|rows| - 1], fp);
    }
  }

  function NewRow(action: Action, f: Finding, e: Env, issue: Option<int>, count: nat, occ: nat, failed: bool): Row {
    Row(action, Some(f.fp), e.run, issue, Int(count), occ, failed)
  }

  // ---------------------------------------------------------------- one filing

  function CommentOn(rows: seq<Row>, f: Finding, e: Env, issue: int, occ: nat, count: nat): Filing {
    Filing(rows + [NewRow(Comment, f, e, Some(issue), count, occ, !e.reply.exitZero)], None, Some(occ),
           if e.reply.exitZero then Commented else if e.reply.knownStatus then KnownFailure else WriteFailure)
  }

  function FileOne(rows: seq<Row>, f: Finding, count: nat, e: Env): Filing {
    var occ := Total(rows, f.fp) + count;
    if HasNumbered(rows, f.fp) then CommentOn(rows, f, e, FirstIssue(rows, f.fp), occ, count)
    else if HasPending(rows, f.fp) then
      Filing(rows + [NewRow(Defer, f, e, None, count, occ, false)], None, None, PendingIntent)
    else if f.p3 && occ < e.floor then
      Filing(rows + [NewRow(Accrue, f, e, None, count, occ, false)], None, None, Accrued)
    else if e.listed.Some? then CommentOn(rows, f, e, e.listed.value, occ, count)
    else if e.searched.Some? then CommentOn(rows, f, e, e.searched.value, occ, count)
    else if CreatesOfRun(rows, e.run) >= e.cap then
      Filing(rows + [NewRow(Accrue, f, e, None, count, occ, false)], None, None, Capped)
    else if e.late.Some? then CommentOn(rows, f, e, e.late.value, occ, count)
    else
      var published := rows + [NewRow(Pending, f, e, None, count, occ, false)];
      var kept := DropPending(published, f.fp);
      Filing(kept + [if e.reply.exitZero then NewRow(Create, f, e, Some(e.reply.number), count, occ, false)
                     else NewRow(Create, f, e, None, count, occ, true)],
             Some(published), Some(occ),
             if e.reply.exitZero then Created else if e.reply.knownStatus then KnownFailure else WriteFailure)
  }

  /** A create supersedes its own intent and nothing else. */
  lemma CreateReplacesIntent(rows: seq<Row>, f: Finding, count: nat, e: Env)
    requires FileOne(rows, f, count, e).published.Some?
    ensures
      var r := FileOne(rows, f, count, e);
      && !HasPending(rows, f.fp) && !HasNumbered(rows, f.fp)
      && DropPending(r.published.value, f.fp) == rows
      && |r.rows| == |rows| + 1 && r.rows[..|rows|] == rows
  {
    var published := FileOne(rows, f, count, e).published.value;
    assert published[..|published| - 1] == rows;
    DropNothing(rows, f.fp);
  }

  lemma {:induction false} TotalSnoc(rows: seq<Row>, r: Row, fp: string)
    ensures Total(rows + [r], fp) == Total(rows, fp) + (if Counted(r, fp) then RowCount(r) else 0)
  {
  }

  /** The one row a filing adds, and the intent it publishes first when it creates. */
  predicate Shape(rows: seq<Row>, f: Finding, count: nat, r: Filing) {
    && |r.rows| == |rows| + 1 && r.rows[..|rows|] == rows
    && RowShape(f, count, r.code, r.rows[|rows|])
    && (r.code.Created? ==> r.published.Some?)
    && (r.published.Some? ==>
          && !HasPending(rows, f.fp) && !HasNumbered(rows, f.fp) && !r.code.PendingIntent?
          && |r.published.value| == |rows| + 1 && r.published.value[..|rows|] == rows
          && IsPending(r.published.value[|rows|], f.fp) && r.published.value[|rows|].count == Int(count))
    && (r.said.Some? ==> r.said.value == Total(rows, f.fp) + count && !r.code.PendingIntent?)
    && (r.code.PendingIntent? ==> HasPending(rows, f.fp))
  }

  predicate RowShape(f: Finding, count: nat, code: Code, x: Row) {
    && x.fp == Some(f.fp) && x.count == Int(count) && !x.action.Pending? && !x.action.Auth?
    && (x.action.Defer? <==> code.PendingIntent?)
    && (IsNumbered(x, f.fp) <==> code.Created?)
  }

  lemma FilingShape(rows: seq<Row>, f: Finding, count: nat, e: Env)
    ensures Shape(rows, f, count, FileOne(rows, f, count, e))
  {
    var r := FileOne(rows, f, count, e);
    if r.published.Some? { CreateReplacesIntent(rows, f, count, e); }
  }

  lemma {:induction false} ShapeConserves(rows: seq<Row>, f: Finding, count: nat, r: Filing, fp: string)
    requires count > 0 && Shape(rows, f, count, r)
    ensures
      var more := if fp == f.fp && r.code != PendingIntent then count else 0;
      && Total(r.rows, fp) == Total(rows, fp) + more
      && (r.published.Some? ==> Total(r.published.value, fp) == Total(rows, fp) + more)
  {
  }

  /**
   Conservation of one filing: it raises its fingerprint's total by exactly its aggregated count,
   unless it was deferred, touches no other fingerprint, and the number it publishes is the new
   total.  The intent published before a create already carries that same total.
   */
  lemma {:induction false} FilingConserves(rows: seq<Row>, f: Finding, count: nat, e: Env, fp: string)
    requires count > 0
    ensures
      var r := FileOne(rows, f, count, e);
      var more := if fp == f.fp && r.code != PendingIntent then count else 0;
      && Total(r.rows, fp) == Total(rows, fp) + more
      && (r.published.Some? ==> Total(r.published.value, fp) == Total(rows, fp) + more)
      && (r.said.Some? ==> r.said.value == Total(r.rows, f.fp))
  {
    FilingShape(rows, f, count, e);
    ShapeConserves(rows, f, count, FileOne(rows, f, count, e), fp);
    ShapeConserves(rows, f, count, FileOne(rows, f, count, e), f.fp);
  }

  // ---------------------------------------------------------------- which branch, and which issue

  /** `n` is the smallest number among the recorded creates of the fingerprint. */
  predicate IsFirst(rows: seq<Row>, fp: string, n: int) {
    && (exists r | r in rows :: IsNumbered(r, fp) && r.issue.value == n)
    && (forall r | r in rows && IsNumbered(r, fp) :: n <= r.issue.value)
  }

  predicate BelowFloor(rows: seq<Row>, f: Finding, count: nat, e: Env) {
    f.p3 && Total(rows, f.fp) + count < e.floor
  }

  predicate RoomToCreate(rows: seq<Row>, e: Env) { CreatesOfRun(rows, e.run) < e.cap }

  /** The issue a query found, where the ledger has none: a listed one, else a searched one, else a late one. */
  predicate FoundIssue(rows: seq<Row>, e: Env, n: int) {
    || e.listed == Some(n)
    || (e.listed.None? && e.searched == Some(n))
    || (e.listed.None? && e.searched.None? && RoomToCreate(rows, e) && e.late == Some(n))
  }

  predicate Settles(x: Row, reply: Reply) {
    (x.failed <==> (x.action.Comment? || x.action.Create?) && !reply.exitZero)
  }

  /**
   Everything one filing adds: one row, by the first that applies of a recorded issue, an orphaned intent,
   the floor, a found issue, the cap, and a create.  A recurrence is commented on the smallest recorded
   issue, or on the found one.
   */
  lemma {:induction false} FilingExactly(rows: seq<Row>, f: Finding, count: nat, e: Env)
    ensures
      var r := FileOne(rows, f, count, e);
      && |r.rows| == |rows| + 1 && r.rows[..|rows|] == rows
      && var x := r.rows[|rows|];
         var numbered, pending := HasNumbered(rows, f.fp), HasPending(rows, f.fp);
         var open := !numbered && !pending && !BelowFloor(rows, f, count, e);
         var found := exists n :: FoundIssue(rows, e, n);
         && x.fp == Some(f.fp) && x.run == e.run && x.count == Int(count) && x.occurrences == Total(rows, f.fp) + count
         && (x.action == Comment <==> numbered || (open && found))
         && (x.action == Defer <==> !numbered && pending)
         && (x.action == Accrue <==>
               (!numbered && !pending && BelowFloor(rows, f, count, e)) || (open && !found && !RoomToCreate(rows, e)))
         && (x.action == Create <==> open && !found && RoomToCreate(rows, e))
         && (x.action == Comment ==> x.issue.Some?)
         && (numbered ==> IsFirst(rows, f.fp, x.issue.value))
         && (open && found ==> FoundIssue(rows, e, x.issue.value))
         && (x.action == Create ==> x.issue == if e.reply.exitZero then Some(e.reply.number) else None)
         && (x.action == Defer || x.action == Accrue ==> x.issue.None?)
         && Settles(x, e.reply) && Says(r.code, x, BelowFloor(rows, f, count, e), e.reply)
  {
    FilingShape(rows, f, count, e);
    FoundExactly(rows, e);
    if HasNumbered(rows, f.fp) { FirstExactly(rows, f.fp); }
  }

  /** The outcome names the row, and for a failed call whether its status was a known one. */
  predicate Says(code: Code, x: Row, below: bool, reply: Reply) {
    && (code == PendingIntent <==> x.action == Defer)
    && (code == Accrued <==> x.action == Accrue && below)
    && (code == Capped <==> x.action == Accrue && !below)
    && (code == Commented <==> x.action == Comment && reply.exitZero)
    && (code == Created <==> x.action == Create && reply.exitZero)
    && (code == KnownFailure <==> x.failed && reply.knownStatus)
    && (code == WriteFailure <==> x.failed && !reply.knownStatus)
  }

  lemma {:induction false} FirstExactly(rows: seq<Row>, fp: string)
    requires HasNumbered(rows, fp)
    ensures IsFirst(rows, fp, FirstIssue(rows, fp))
  {
  }

  lemma FoundExactly(rows: seq<Row>, e: Env)
    ensures (exists n :: FoundIssue(rows, e, n)) <==>
            e.listed.Some? || e.searched.Some? || (RoomToCreate(rows, e) && e.late.Some?)
  {
    if e.listed.Some? { assert FoundIssue(rows, e, e.listed.value); }
    else if e.searched.Some? { assert FoundIssue(rows, e, e.searched.value); }
    else if RoomToCreate(rows, e) && e.late.Some? { assert FoundIssue(rows, e, e.late.value); }
  }

  // ---------------------------------------------------------------- the durable world

  /**
   `issues` counts the issues really created; `forgotten` those among them whose create returned
   a nonzero exit to a process that lived to erase its intent.
   */
  datatype World = World(disk: seq<Row>, issues: multiset<string>, forgotten: multiset<string>)

  datatype Event = File(finding: Finding, count: nat, env: Env) | AuthFailure(run: string)

  function One(b: bool, fp: string): multiset<string> { if b then multiset{fp} else multiset{} }

  function Next(w: World, ev: Event): World {
    match ev
    case AuthFailure(run) => w.(disk := w.disk + [Row(Auth, None, run, None, Missing, 0, true)])
    case File(f, count, e) => Land(w, f, e, FileOne(w.disk, f, count, e))
  }

  /** What a filing leaves behind when its process ends as the environment says. */
  function Land(w: World, f: Finding, e: Env, r: Filing): World {
    var called := r.published.Some? && (e.death.Lives? || e.death.DiesAfterCall?);
    World(if e.death.Lives? then r.rows
          else if e.death.DiesEarly? || r.published.None? then w.disk
          else r.published.value,
          w.issues + One(called && e.reply.happened, f.fp),
          w.forgotten + One(called && e.reply.happened && !e.reply.exitZero && e.death.Lives?, f.fp))
  }

  function After(w: World, events: seq<Event>): World {
    if events == [] then w
    else Next(After(w, events[..|events| - 1]), events[|events| - 1])
  }

  /** Number of pending intent rows of a fingerprint. */
  function Pendings(rows: seq<Row>, fp: string): nat {
    if rows == [] then 0
    else Pendings(rows[..|rows| - 1], fp) + (if IsPending(rows[|rows| - 1], fp) then 1 else 0)
  }

  lemma {:induction false} PendingsZero(rows: seq<Row>, fp: string)
    ensures Pendings(rows, fp) == 0 <==> !HasPending(rows, fp)
  {
    if rows != [] {
      PendingsZero(rows[..|rows| - 1], fp);
      assert rows == rows[..|rows| - 1] + [rows[|rows| - 1]];
    }
  }

  lemma {:induction false} CreatesSnoc(rows: seq<Row>, d: seq<Row>, run: string)
    requires |d| == |rows| + 1 && d[..|rows|] == rows
    ensures CreatesOfRun(d, run) ==
            CreatesOfRun(rows, run) + (if d[|rows|].action.Create? && d[|rows|].run == run then 1 else 0)
  {
  }

  /** What every history keeps, fingerprint by fingerprint. */
  predicate Inv(w: World, fp: string) {
    && Pendings(w.disk, fp) <= 1
    && w.forgotten[fp] <= w.issues[fp] <= w.forgotten[fp] + 1
    && (!HasPending(w.disk, fp) && !HasNumbered(w.disk, fp) ==> w.issues[fp] == w.forgotten[fp])
  }

  lemma {:induction false} SnocFacts(rows: seq<Row>, d: seq<Row>, fp: string)
    requires |d| == |rows| + 1 && d[..|rows|] == rows
    ensures HasPending(d, fp) <==> HasPending(rows, fp) || IsPending(d[|rows|], fp)
    ensures HasNumbered(d, fp) <==> HasNumbered(rows, fp) || IsNumbered(d[|rows|], fp)
    ensures Pendings(d, fp) == Pendings(rows, fp) + (if IsPending(d[|rows|], fp) then 1 else 0)
  {
  }

  lemma LandKeeps(w: World, f: Finding, count: nat, e: Env, r: Filing, fp: string)
    requires Inv(w, fp) && Shape(w.disk, f, count, r)
    requires r.published.Some? ==> (r.code.Created? <==> e.reply.exitZero)
    ensures Inv(Land(w, f, e, r), fp)
  {
    PendingsZero(w.disk, fp);
    SnocFacts(w.disk, r.rows, fp);
    if r.published.Some? { SnocFacts(w.disk, r.published.value, fp); }
  }

  lemma NextKeeps(w: World, ev: Event, fp: string)
    requires Inv(w, fp)
    ensures Inv(Next(w, ev), fp)
  {
    match ev
    case AuthFailure(run) => SnocFacts(w.disk, Next(w, ev).disk, fp);
    case File(f, count, e) =>
      FilingShape(w.disk, f, count, e);
      LandKeeps(w, f, count, e, FileOne(w.disk, f, count, e), fp);
  }

  lemma {:induction false} AlwaysInv(w: World, events: seq<Event>, fp: string)
    requires Inv(w, fp)
    ensures Inv(After(w, events), fp)
  {
    if events != [] {
      AlwaysInv(w, events[..|events| - 1], fp);
      NextKeeps(After(w, events[..|events| - 1]), events[|events| - 1], fp);
    }
  }

  const EMPTY: World := World([], multiset{}, multiset{})

  /**
   Main result.  Over every sequence of filings and every pattern of deaths there is at most one
   intent row per fingerprint, and at most one issue beyond the forgotten ones -- hence at most one
   issue whenever a nonzero exit means that nothing was created.
   */
  lemma {:induction false} AtMostOneIssue(events: seq<Event>, fp: string)
    ensures Pendings(After(EMPTY, events).disk, fp) <= 1
    ensures After(EMPTY, events).issues[fp] <= After(EMPTY, events).forgotten[fp] + 1
    ensures (forall ev | ev in events && ev.File? :: ev.env.reply.happened ==> ev.env.reply.exitZero) ==>
              After(EMPTY, events).issues[fp] <= 1
  {
    AlwaysInv(EMPTY, events, fp);
    if forall ev | ev in events && ev.File? :: ev.env.reply.happened ==> ev.env.reply.exitZero {
      NothingForgotten(events, fp);
    }
  }

  lemma {:induction false} NothingForgotten(events: seq<Event>, fp: string)
    requires forall ev | ev in events && ev.File? :: ev.env.reply.happened ==> ev.env.reply.exitZero
    ensures After(EMPTY, events).forgotten[fp] == 0
  {
    if events != [] {
      assert events[|events| - 1] in events;
      NothingForgotten(events[..|events| - 1], fp);
    }
  }

  /** The guard of the create branch, and a tracker that answers it: when a filing really makes an issue. */
  predicate Creates(w: World, f: Finding, count: nat, e: Env) {
    && !HasNumbered(w.disk, f.fp) && !HasPending(w.disk, f.fp)
    && (f.p3 ==> Total(w.disk, f.fp) + count >= e.floor)
    && e.listed.None? && e.searched.None? && e.late.None?
    && CreatesOfRun(w.disk, e.run) < e.cap
    && (e.death.Lives? || e.death.DiesAfterCall?) && e.reply.happened
  }

  predicate CreatesAt(events: seq<Event>, k: int, fp: string) {
    && 0 <= k < |events| && events[k].File? && events[k].finding.fp == fp
    && Creates(After(EMPTY, events[..k]), events[k].finding, events[k].count, events[k].env)
  }

  /** The k-th event makes an issue, is told of a failure, and lives to erase its intent. */
  predicate ForgetsAt(events: seq<Event>, k: int, fp: string) {
    CreatesAt(events, k, fp) && !events[k].env.reply.exitZero && events[k].env.death.Lives?
  }

  /** An event raises the number of issues of a fingerprint exactly when its create guard holds. */
  lemma RaisesExactly(w: World, ev: Event, fp: string)
    ensures
      var here := ev.File? && ev.finding.fp == fp && Creates(w, ev.finding, ev.count, ev.env);
      && Next(w, ev).issues[fp] == w.issues[fp] + (if here then 1 else 0)
      && Next(w, ev).forgotten[fp] ==
           w.forgotten[fp] + (if here && !ev.env.reply.exitZero && ev.env.death.Lives? then 1 else 0)
  {
  }

  lemma EarlierEvents(events: seq<Event>, j: int, fp: string)
    requires events != []
    ensures
      var n := |events| - 1;
      && (CreatesAt(events, j, fp) && j != n <==> CreatesAt(events[..n], j, fp))
      && (ForgetsAt(events, j, fp) && j != n <==> ForgetsAt(events[..n], j, fp))
  {
    var n := |events| - 1;
    if 0 <= j < n { assert events[..n][..j] == events[..j]; }
  }

  lemma ForgetsSnoc(events: seq<Event>, fp: string)
    requires events != []
    ensures
      var n := |events| - 1;
      var rest := events[..n];
      (exists j :: ForgetsAt(events, j, fp)) <==> (exists j :: ForgetsAt(rest, j, fp)) || ForgetsAt(events, n, fp)
  {
    var n := |events| - 1;
    if j :| ForgetsAt(events, j, fp) { EarlierEvents(events, j, fp); }
    if j :| ForgetsAt(events[..n], j, fp) { EarlierEvents(events, j, fp); }
  }

  /** The counts after a history, in terms of its last event. */
  lemma {:induction false} LastRaises(events: seq<Event>, fp: string)
    requires events != []
    ensures
      var n := |events| - 1;
      var v, w := After(EMPTY, events[..n]), After(EMPTY, events);
      && w.issues[fp] == v.issues[fp] + (if CreatesAt(events, n, fp) then 1 else 0)
      && w.forgotten[fp] == v.forgotten[fp] + (if ForgetsAt(events, n, fp) then 1 else 0)
  {
    var n := |events| - 1;
    RaisesExactly(After(EMPTY, events[..n]), events[n], fp);
  }

  /** The ledger's forgotten issues come from creates that were reported as failed. */
  lemma {:induction false} ForgottenExactly(events: seq<Event>, fp: string)
    ensures After(EMPTY, events).forgotten[fp] > 0 <==> exists j :: ForgetsAt(events, j, fp)
  {
    if events == [] {
      assert forall j :: !ForgetsAt(events, j, fp);
    } else {
      ForgottenExactly(events[..|events| - 1], fp);
      LastRaises(events, fp);
      ForgetsSnoc(events, fp);
    }
  }

  /** The k-th event makes an issue although an earlier one was forgotten. */
  predicate RepeatsAt(events: seq<Event>, k: int, fp: string) {
    CreatesAt(events, k, fp) && After(EMPTY, events[..k]).forgotten[fp] > 0
  }

  lemma RepeatsEarlier(events: seq<Event>, k: int, fp: string)
    requires events != []
    ensures RepeatsAt(events, k, fp) && k != |events| - 1 <==> RepeatsAt(events[..|events| - 1], k, fp)
  {
    var n := |events| - 1;
    EarlierEvents(events, k, fp);
    if 0 <= k < n { assert events[..n][..k] == events[..k]; }
  }

  lemma RepeatsSnoc(events: seq<Event>, fp: string)
    requires events != []
    ensures
      var n := |events| - 1;
      var rest := events[..n];
      (exists k :: RepeatsAt(events, k, fp)) <==> (exists k :: RepeatsAt(rest, k, fp)) || RepeatsAt(events, n, fp)
  {
    var rest := events[..|events| - 1];
    if k :| RepeatsAt(events, k, fp) { RepeatsEarlier(events, k, fp); }
    if k :| RepeatsAt(rest, k, fp) { RepeatsEarlier(events, k, fp); }
  }

  /** Whenever a create guard holds, the ledger knows no issue: all that exist are forgotten ones. */
  lemma GuardKnowsNone(events: seq<Event>, fp: string)
    requires events != [] && CreatesAt(events, |events| - 1, fp)
    ensures
      var v := After(EMPTY, events[..|events| - 1]);
      v.issues[fp] == v.forgotten[fp]
  {
    AlwaysInv(EMPTY, events[..|events| - 1], fp);
  }

  /**
   Main result, exactly.  A history ends with at most one issue of a fingerprint if and only if no filing
   passes its create guard after an earlier create of that fingerprint was reported as failed although it
   happened -- what `gh` timing out after the create reached the tracker looks like -- and its intent was
   erased.
   */
  lemma {:induction false} AtMostOneExactly(events: seq<Event>, fp: string)
    ensures After(EMPTY, events).issues[fp] <= 1 <==> !exists k :: RepeatsAt(events, k, fp)
  {
    if events == [] {
      assert forall k :: !RepeatsAt(events, k, fp);
    } else {
      var n := |events| - 1;
      AtMostOneExactly(events[..n], fp);
      LastRaises(events, fp);
      RepeatsSnoc(events, fp);
      if CreatesAt(events, n, fp) { GuardKnowsNone(events, fp); }
    }
  }

  /** A create reported as failed leaves a ledger that would create again. */
  lemma ForgottenLeavesRoom(w: World, f: Finding, count: nat, e: Env)
    requires Creates(w, f, count, e) && e.death.Lives? && !e.reply.exitZero && count > 0
    ensures
      var d := Next(w, File(f, count, e)).disk;
      && !HasPending(d, f.fp) && !HasNumbered(d, f.fp)
      && CreatesOfRun(d, e.run) == CreatesOfRun(w.disk, e.run) + 1
      && Total(d, f.fp) == Total(w.disk, f.fp) + count
  {
    var r := FileOne(w.disk, f, count, e);
    FilingShape(w.disk, f, count, e);
    FilingConserves(w.disk, f, count, e, f.fp);
    SnocFacts(w.disk, r.rows, f.fp);
    CreatesSnoc(w.disk, r.rows, e.run);
    assert r.rows[|w.disk|] == NewRow(Create, f, e, None, count, Total(w.disk, f.fp) + count, true);
  }

  /**
   The exception is within reach of every ledger that lets a create through twice: the same filing, first
   timing out after the tracker had acted and then succeeding, leaves two more issues.
   */
  lemma TimeoutDuplicates(w: World, f: Finding, count: nat, e: Env, number: nat)
    requires Creates(w, f, count, e) && e.death.Lives? && !e.reply.exitZero && count > 0
    requires e.cap > CreatesOfRun(w.disk, e.run) + 1
    ensures
      var retry := e.(reply := Reply(true, true, number, false));
      Next(Next(w, File(f, count, e)), File(f, count, retry)).issues[f.fp] == w.issues[f.fp] + 2
  {
    var retry := e.(reply := Reply(true, true, number, false));
    ForgottenLeavesRoom(w, f, count, e);
    RaisesExactly(w, File(f, count, e), f.fp);
    RaisesExactly(Next(w, File(f, count, e)), File(f, count, retry), f.fp);
  }

  predicate Blocked(w: World, fp: string, total: nat, issues: nat) {
    && HasPending(w.disk, fp) && !HasNumbered(w.disk, fp)
    && Total(w.disk, fp) == total && w.issues[fp] == issues
  }

  lemma {:induction false} LandBlocked(w: World, f: Finding, count: nat, e: Env, r: Filing, fp: string)
    requires HasPending(w.disk, fp) && !HasNumbered(w.disk, fp) && count > 0
    requires Shape(w.disk, f, count, r) && (f.fp == fp ==> r.code.PendingIntent?)
    ensures Blocked(Land(w, f, e, r), fp, Total(w.disk, fp), w.issues[fp])
  {
  }

  lemma {:induction false} BlockedStep(w: World, ev: Event, fp: string)
    requires HasPending(w.disk, fp) && !HasNumbered(w.disk, fp)
    requires ev.File? ==> ev.count > 0
    ensures Blocked(Next(w, ev), fp, Total(w.disk, fp), w.issues[fp])
  {
    match ev
    case AuthFailure(run) =>
      SnocFacts(w.disk, Next(w, ev).disk, fp);
      TotalSnoc(w.disk, Row(Auth, None, run, None, Missing, 0, true), fp);
    case File(f, count, e) =>
      FilingShape(w.disk, f, count, e);
      LandBlocked(w, f, count, e, FileOne(w.disk, f, count, e), fp);
  }

  /** An orphaned intent blocks creation of its fingerprint forever, and freezes its total. */
  lemma {:induction false} OrphanBlocksForever(w: World, events: seq<Event>, fp: string)
    requires HasPending(w.disk, fp) && !HasNumbered(w.disk, fp)
    requires forall ev | ev in events && ev.File? :: ev.count > 0
    ensures Blocked(After(w, events), fp, Total(w.disk, fp), w.issues[fp])
  {
    if events != [] {
      assert events[|events| - 1] in events;
      OrphanBlocksForever(w, events[..|events| - 1], fp);
      BlockedStep(After(w, events[..|events| - 1]), events[|events| - 1], fp);
    }
  }

  /** A create row, failed or not, is written only while its run is below the cap. */
  lemma {:induction false} CreateNeedsRoom(rows: seq<Row>, f: Finding, count: nat, e: Env)
    ensures
      var r := FileOne(rows, f, count, e);
      && |r.rows| == |rows| + 1
      && (r.rows[|rows|].action.Create? ==> r.rows[|rows|].run == e.run && CreatesOfRun(rows, e.run) < e.cap)
      && (r.published.Some? ==> |r.published.value| == |rows| + 1 && r.published.value[|rows|].action.Pending?)
  {
    FilingShape(rows, f, count, e);
  }

  lemma {:induction false} NextKeepsCap(w: World, ev: Event, run: string, cap: nat)
    requires CreatesOfRun(w.disk, run) <= cap
    requires ev.File? && ev.env.run == run ==> ev.env.cap <= cap
    ensures CreatesOfRun(Next(w, ev).disk, run) <= cap
  {
    match ev
    case AuthFailure(r) => CreatesSnoc(w.disk, Next(w, ev).disk, run);
    case File(f, count, e) =>
      FilingShape(w.disk, f, count, e);
      CreateNeedsRoom(w.disk, f, count, e);
      var filing := FileOne(w.disk, f, count, e);
      CreatesSnoc(w.disk, filing.rows, run);
      if filing.published.Some? { CreatesSnoc(w.disk, filing.published.value, run); }
  }

  /** No history of filings ever records more creates of a run than the run's cap. */
  lemma {:induction false} RunCapHolds(events: seq<Event>, run: string, cap: nat)
    requires forall ev | ev in events && ev.File? && ev.env.run == run :: ev.env.cap <= cap
    ensures CreatesOfRun(After(EMPTY, events).disk, run) <= cap
  {
    if events != [] {
      var rest, last := events[..|events| - 1], events[|events| - 1];
      assert last in events;
      forall ev | ev in rest ensures ev in events {}
      RunCapHolds(rest, run, cap);
      NextKeepsCap(After(EMPTY, rest), last, run, cap);
    }
  }

  /** A P3 finding without a recorded issue reaches the tracker only once its new total is at the floor. */
  lemma FloorHolds(rows: seq<Row>, f: Finding, count: nat, e: Env)
    requires count > 0 && f.p3 && !HasNumbered(rows, f.fp)
    ensures FileOne(rows, f, count, e).said.Some? ==> Total(FileOne(rows, f, count, e).rows, f.fp) >= e.floor
  {
    FilingConserves(rows, f, count, e, f.fp);
  }

  /** What a history credits to a fingerprint: the counts of its filings that reached the ledger. */
  function Credited(w: World, events: seq<Event>, fp: string): nat {
    if events == [] then 0
    else
      var v := After(w, events[..|events| - 1]);
      var ev := events[|events| - 1];
      Credited(w, events[..|events| - 1], fp) +
      (if ev.AuthFailure? || ev.finding.fp != fp then 0
       else
         var r := FileOne(v.disk, ev.finding, ev.count, ev.env);
         if r.code == PendingIntent || ev.env.death.DiesEarly? || (!ev.env.death.Lives? && r.published.None?)
         then 0 else ev.count)
  }

  /** Conservation of occurrences over whole histories, deaths included. */
  lemma {:induction false} OccurrencesConserved(w: World, events: seq<Event>, fp: string)
    requires forall ev | ev in events && ev.File? :: ev.count > 0
    ensures Total(After(w, events).disk, fp) == Total(w.disk, fp) + Credited(w, events, fp)
  {
    if events != [] {
      var last := events[|events| - 1];
      assert last in events;
      OccurrencesConserved(w, events[..|events| - 1], fp);
      var v := After(w, events[..|events| - 1]);
      match last
      case AuthFailure(run) => TotalSnoc(v.disk, Row(Auth, None, run, None, Missing, 0, true), fp);
      case File(f, count, e) => FilingConserves(v.disk, f, count, e, fp);
    }
  }

  /** The i-th row is a comment on the issue that was on record for its fingerprint, if there was one. */
  predicate CommentRight(rows: seq<Row>, i: int)
    requires 0 <= i < |rows|
  {
    rows[i].action.Comment? && rows[i].fp.Some? && HasNumbered(rows[..i], rows[i].fp.value) ==>
      rows[i].issue.Some? && IsFirst(rows[..i], rows[i].fp.value, rows[i].issue.value)
  }

  predicate CommentsRight(rows: seq<Row>) { forall i | 0 <= i < |rows| :: CommentRight(rows, i) }

  lemma CommentsRightSnoc(rows: seq<Row>, d: seq<Row>)
    requires CommentsRight(rows) && |d| == |rows| + 1 && d[..|rows|] == rows && CommentRight(d, |rows|)
    ensures CommentsRight(d)
  {
    forall i | 0 <= i < |d| ensures CommentRight(d, i) {
      if i < |rows| {
        assert d[i] == rows[i] && d[..i] == rows[..i];
        assert CommentRight(rows, i);
      }
    }
  }

  lemma NextKeepsComments(w: World, ev: Event)
    requires CommentsRight(w.disk)
    ensures CommentsRight(Next(w, ev).disk)
  {
    match ev
    case AuthFailure(run) => CommentsRightSnoc(w.disk, Next(w, ev).disk);
    case File(f, count, e) =>
      var r := FileOne(w.disk, f, count, e);
      FilingShape(w.disk, f, count, e);
      FilingExactly(w.disk, f, count, e);
      CommentsRightSnoc(w.disk, r.rows);
      if r.published.Some? { CommentsRightSnoc(w.disk, r.published.value); }
  }

  /** In every history, each comment on a fingerprint with a recorded issue is on the smallest number then recorded. */
  lemma {:induction false} CommentsFollowIssues(events: seq<Event>)
    ensures CommentsRight(After(EMPTY, events).disk)
  {
    if events != [] {
      CommentsFollowIssues(events[..|events| - 1]);
      NextKeepsComments(After(EMPTY, events[..|events| - 1]), events[|events| - 1]);
    }
  }

  // ---------------------------------------------------------------- aggregation

  datatype Group = Group(first: Finding, seen: nat)

  function Index(groups: seq<Group>, fp: string): (k: nat)
    ensures k <= |groups|
    ensures k < |groups| ==> groups[k].first.fp == fp
    ensures forall x | 0 <= x < k :: groups[x].first.fp != fp
  {
    if groups == [] then 0
    else if groups[0].first.fp == fp then 0
    else 1 + Index(groups[1..], fp)
  }

  predicate Distinct(groups: seq<Group>) {
    forall x, y | 0 <= x < y < |groups| :: groups[x].first.fp != groups[y].first.fp
  }

  /** Number of admitted findings of a fingerprint in a payload. */
  function Occurs(items: seq<Item>, fp: string): nat {
    if items == [] then 0
    else Occurs(items[..|items| - 1], fp)
         + (if items[|items| - 1].Filable? && items[|items| - 1].finding.fp == fp then 1 else 0)
  }

  function GroupCount(groups: seq<Group>, fp: string): nat {
    var k := Index(groups, fp);
    if k < |groups| then groups[k].seen else 0
  }

  function AddTo(groups: seq<Group>, f: Finding): seq<Group> {
    var k := Index(groups, f.fp);
    if k < |groups| then groups[k := groups[k].(seen := groups[k].seen + 1)] else groups + [Group(f, 1)]
  }

  lemma AddToCounts(groups: seq<Group>, f: Finding, fp: string)
    requires Distinct(groups)
    ensures Distinct(AddTo(groups, f))
    ensures GroupCount(AddTo(groups, f), fp) == GroupCount(groups, fp) + (if fp == f.fp then 1 else 0)
  {
    var after := AddTo(groups, f);
    assert Distinct(after);
    var k, x, y := Index(groups, f.fp), Index(groups, fp), Index(after, fp);
    assert forall i | 0 <= i < |groups| :: after[i].first == groups[i].first;
    assert after[k].first.fp == f.fp;
    assert x < |groups| ==> y == x;
    assert x == |groups| && fp == f.fp ==> y == |groups| == k;
    assert x == |groups| && fp != f.fp ==> y == |after|;
  }

  /** Position of the first admitted finding of a fingerprint, or the length. */
  function FirstOf(items: seq<Item>, fp: string): (k: nat)
    ensures k <= |items|
  {
    if items == [] then 0
    else
      var n := |items| - 1;
      var k := FirstOf(items[..n], fp);
      if k < n || (items[n].Filable? && items[n].finding.fp == fp) then k else n + 1
  }

  /** It is the first: an admitted finding of the fingerprint stands there, and none before. */
  lemma {:induction false} FirstOfIsFirst(items: seq<Item>, fp: string, x: nat)
    requires x < |items|
    ensures
      var here := items[x].Filable? && items[x].finding.fp == fp;
      (FirstOf(items, fp) == x ==> here) && (here ==> FirstOf(items, fp) <= x)
  {
    var n := |items| - 1;
    if x < n { FirstOfIsFirst(items[..n], fp, x); }
  }

  /** A group's finding is the first admitted one of its fingerprint. */
  predicate Leads(g: Group, items: seq<Item>) {
    var k := FirstOf(items, g.first.fp);
    g.seen > 0 && k < |items| && items[k] == Filable(g.first)
  }

  /** The groups in order of first appearance, one for every fingerprint that appears. */
  ghost predicate InOrder(groups: seq<Group>, items: seq<Item>) {
    && (forall x | 0 <= x < |groups| :: Leads(groups[x], items))
    && (forall x, y | 0 <= x < y < |groups| ::
          FirstOf(items, groups[x].first.fp) < FirstOf(items, groups[y].first.fp))
    && (forall fp | FirstOf(items, fp) < |items| :: Index(groups, fp) < |groups|)
  }

  lemma {:induction false} FirstOfSnoc(items: seq<Item>, x: Item, fp: string)
    ensures FirstOf(items + [x], fp) ==
            if FirstOf(items, fp) < |items| || (x.Filable? && x.finding.fp == fp) then FirstOf(items, fp)
            else |items| + 1
  {
    assert (items + [x])[..|items|] == items;
  }

  lemma {:induction false} LeadsSnoc(g: Group, items: seq<Item>, x: Item)
    requires Leads(g, items)
    ensures FirstOf(items + [x], g.first.fp) == FirstOf(items, g.first.fp)
    ensures Leads(g.(seen := g.seen + 1), items + [x]) && Leads(g, items + [x])
  {
    FirstOfSnoc(items, x, g.first.fp);
  }

  lemma {:induction false} AddToLeads(groups: seq<Group>, items: seq<Item>, f: Finding, x: nat)
    requires InOrder(groups, items) && x < |AddTo(groups, f)|
    ensures Leads(AddTo(groups, f)[x], items + [Filable(f)])
    ensures
      var more := items + [Filable(f)];
      FirstOf(more, AddTo(groups, f)[x].first.fp) ==
        if x < |groups| then FirstOf(items, groups[x].first.fp) else |items|
  {
    FirstOfSnoc(items, Filable(f), f.fp);
    if x < |groups| {
      assert Leads(groups[x], items);
      LeadsSnoc(groups[x], items, Filable(f));
    } else {
      assert Index(groups, f.fp) == |groups|;
    }
  }

  lemma {:induction false} AddToComplete(groups: seq<Group>, items: seq<Item>, f: Finding, fp: string)
    requires InOrder(groups, items) && FirstOf(items + [Filable(f)], fp) <= |items|
    ensures Index(AddTo(groups, f), fp) < |AddTo(groups, f)|
  {
    var after := AddTo(groups, f);
    FirstOfSnoc(items, Filable(f), fp);
    var i := if fp == f.fp then Index(groups, f.fp) else Index(groups, fp);
    assert after[i].first.fp == fp;
  }

  lemma AddToInOrder(groups: seq<Group>, items: seq<Item>, f: Finding)
    requires InOrder(groups, items)
    ensures InOrder(AddTo(groups, f), items + [Filable(f)])
  {
    var after, more := AddTo(groups, f), items + [Filable(f)];
    forall x | 0 <= x < |after|
      ensures Leads(after[x], more)
      ensures FirstOf(more, after[x].first.fp) ==
              if x < |groups| then FirstOf(items, groups[x].first.fp) else |items|
    {
      AddToLeads(groups, items, f, x);
    }
    assert forall x | 0 <= x < |groups| :: Leads(groups[x], items);
    forall fp | FirstOf(more, fp) < |more| ensures Index(after, fp) < |after| { AddToComplete(groups, items, f, fp); }
  }

  lemma SkipInOrder(groups: seq<Group>, items: seq<Item>)
    requires InOrder(groups, items)
    ensures InOrder(groups, items + [Unfilable])
  {
    var more := items + [Unfilable];
    forall fp ensures FirstOf(more, fp) == if FirstOf(items, fp) < |items| then FirstOf(items, fp) else |more| {
      FirstOfSnoc(items, Unfilable, fp);
    }
    forall x | 0 <= x < |groups| ensures Leads(groups[x], more) { assert Leads(groups[x], items); }
  }

  /** The groups of a payload: its admitted findings added one after the other. */
  function Grouped(items: seq<Item>): seq<Group> {
    if items == [] then []
    else
      var groups, x := Grouped(items[..|items| - 1]), items[|items| - 1];
      if x.Filable? then AddTo(groups, x.finding) else groups
  }

  lemma {:induction false} GroupedInOrder(items: seq<Item>)
    ensures InOrder(Grouped(items), items) && Distinct(Grouped(items))
  {
    if items != [] {
      var rest, x := items[..|items| - 1], items[|items| - 1];
      GroupedInOrder(rest);
      assert items == rest + [x];
      match x
      case Unfilable => SkipInOrder(Grouped(rest), rest);
      case Filable(f) =>
        AddToInOrder(Grouped(rest), rest, f);
        AddToCounts(Grouped(rest), f, f.fp);
    }
  }

  lemma {:induction false} GroupedCounts(items: seq<Item>, fp: string)
    ensures GroupCount(Grouped(items), fp) == Occurs(items, fp)
  {
    if items != [] {
      var rest, x := items[..|items| - 1], items[|items| - 1];
      GroupedCounts(rest, fp);
      GroupedInOrder(rest);
      if x.Filable? { AddToCounts(Grouped(rest), x.finding, fp); }
    }
  }

  /**
   The grouping loop: fingerprints come out once each, in order of first appearance and with the finding
   that appeared first, and each count is the number of admitted findings of that fingerprint -- none
   lost, none invented.
   */
  method Aggregate(items: seq<Item>) returns (groups: seq<Group>)
    ensures groups == Grouped(items)
    ensures Distinct(groups) && InOrder(groups, items)
    ensures forall fp :: GroupCount(groups, fp) == Occurs(items, fp)
  {
    groups := [];
    var n := 0;
    while n < |items|
      invariant 0 <= n <= |items|
      invariant groups == Grouped(items[..n])
    {
      assert items[..n + 1][..n] == items[..n];
      if items[n].Filable? { groups := AddTo(groups, items[n].finding); }
      n := n + 1;
    }
    assert items[..|items|] == items;
    GroupedInOrder(items);
    forall fp ensures GroupCount(groups, fp) == Occurs(items, fp) { GroupedCounts(items, fp); }
  }

  // ---------------------------------------------------------------- the filing process

  /** Files groups one after the other until the process dies; envs(k) is the k-th group's surroundings. */
  function FileGroups(w: World, groups: seq<Group>, envs: nat -> Env, k: nat): World
    requires k <= |groups|
    decreases |groups| - k
  {
    if k == |groups| then w
    else
      var w' := Next(w, File(groups[k].first, groups[k].seen, envs(k)));
      if envs(k).death.Lives? then FileGroups(w', groups, envs, k + 1) else w'
  }

  /** Some group, before the process dies, ends in a write failure of unknown status. */
  predicate AnyFatal(w: World, groups: seq<Group>, envs: nat -> Env, k: nat)
    requires k <= |groups|
    decreases |groups| - k
  {
    k < |groups| &&
    (FileOne(w.disk, groups[k].first, groups[k].seen, envs(k)).code == WriteFailure
     || (envs(k).death.Lives?
         && AnyFatal(Next(w, File(groups[k].first, groups[k].seen, envs(k))), groups, envs, k + 1)))
  }

  /** A payload continues the history it starts from: its groups up to the first death. */
  lemma {:induction false} PayloadIsHistory(w: World, past: seq<Event>, groups: seq<Group>, envs: nat -> Env, k: nat)
    returns (events: seq<Event>)
    requires k <= |groups|
    requires forall g | g in groups :: g.seen > 0
    requires forall ev | ev in past && ev.File? :: ev.count > 0
    ensures FileGroups(After(w, past), groups, envs, k) == After(w, events)
    ensures past <= events && forall ev | ev in events && ev.File? :: ev.count > 0
    decreases |groups| - k
  {
    if k == |groups| {
      events := past;
    } else {
      var ev := File(groups[k].first, groups[k].seen, envs(k));
      assert groups[k] in groups;
      var more := past + [ev];
      assert more[..|past|] == past;
      if envs(k).death.Lives? {
        events := PayloadIsHistory(w, more, groups, envs, k + 1);
      } else {
        events := more;
      }
    }
  }

  class Tracker {
    var disk: seq<Row>
    var rows: seq<Row>
    var issues: multiset<string>
    var forgotten: multiset<string>

    constructor ()
      ensures View() == EMPTY && rows == []
    {
      disk, rows, issues, forgotten := [], [], multiset{}, multiset{};
    }

    function View(): World
      reads this
    {
      World(disk, issues, forgotten)
    }

    /** `_comment`: rewrites only the rows in memory. */
    method AddComment(f: Finding, e: Env, issue: int, occ: nat, count: nat) returns (code: Code)
      modifies `rows
      ensures rows == CommentOn(old(rows), f, e, issue, occ, count).rows
      ensures code == CommentOn(old(rows), f, e, issue, occ, count).code
    {
      if e.reply.exitZero {
        rows := rows + [NewRow(Comment, f, e, Some(issue), count, occ, false)];
        return Commented;
      }
      rows := rows + [NewRow(Comment, f, e, Some(issue), count, occ, true)];
      return if e.reply.knownStatus then KnownFailure else WriteFailure;
    }

    /** `_file_one` followed by its caller's save; None means the process died on the way. */
    method FileAndSave(f: Finding, count: nat, e: Env) returns (code: Option<Code>)
      requires rows == disk
      modifies this
      ensures View() == Next(old(View()), File(f, count, e))
      ensures code == if e.death.Lives? then Some(FileOne(old(disk), f, count, e).code) else None
      ensures e.death.Lives? ==> rows == disk
    {
      var result := Append(f, count, e);
      if result.None? { return None; }
      if !e.death.Lives? { return None; }
      disk := rows;
      return result;
    }

    /** The body of `_file_one`: every branch edits `rows`, only the create branch publishes early. */
    method Append(f: Finding, count: nat, e: Env) returns (code: Option<Code>)
      requires rows == disk
      modifies this
      ensures
        var r := FileOne(old(disk), f, count, e);
        var called := r.published.Some? && (e.death.Lives? || e.death.DiesAfterCall?);
        && (e.death.Lives? ==> rows == r.rows && code == Some(r.code))
        && disk == (if r.published.Some? && !e.death.DiesEarly? then r.published.value else old(disk))
        && issues == old(issues) + One(called && e.reply.happened, f.fp)
        && forgotten == old(forgotten) + One(called && e.reply.happened && !e.reply.exitZero && e.death.Lives?, f.fp)
    {
      var occ := Total(rows, f.fp) + count;
      if HasNumbered(rows, f.fp) {
        var c := AddComment(f, e, FirstIssue(rows, f.fp), occ, count);
        return Some(c);
      }
      if HasPending(rows, f.fp) {
        rows := rows + [NewRow(Defer, f, e, None, count, occ, false)];
        return Some(PendingIntent);
      }
      if f.p3 && occ < e.floor {
        rows := rows + [NewRow(Accrue, f, e, None, count, occ, false)];
        return Some(Accrued);
      }
      var found := e.listed;
      if found.None? { found := e.searched; }
      if found.Some? {
        var c := AddComment(f, e, found.value, occ, count);
        return Some(c);
      }
      if CreatesOfRun(rows, e.run) >= e.cap {
        rows := rows + [NewRow(Accrue, f, e, None, count, occ, false)];
        return Some(Capped);
      }
      if e.late.Some? {
        var c := AddComment(f, e, e.late.value, occ, count);
        return Some(c);
      }
      code := CreateIssue(f, count, e, occ);
    }

    /** Publish the intent, create, then supersede the intent by the outcome. */
    method CreateIssue(f: Finding, count: nat, e: Env, occ: nat) returns (code: Option<Code>)
      requires rows == disk
      modifies this
      ensures
        var published := old(rows) + [NewRow(Pending, f, e, None, count, occ, false)];
        var called := e.death.Lives? || e.death.DiesAfterCall?;
        && disk == (if e.death.DiesEarly? then old(disk) else published)
        && issues == old(issues) + One(called && e.reply.happened, f.fp)
        && forgotten == old(forgotten) + One(called && e.reply.happened && !e.reply.exitZero && e.death.Lives?, f.fp)
        && (e.death.Lives? ==>
              && rows == DropPending(published, f.fp)
                         + [NewRow(Create, f, e, if e.reply.exitZero then Some(e.reply.number) else None, count, occ,
                                   !e.reply.exitZero)]
              && code == Some(if e.reply.exitZero then Created
                              else if e.reply.knownStatus then KnownFailure else WriteFailure))
    {
      if e.death.DiesEarly? { return None; }
      rows := rows + [NewRow(Pending, f, e, None, count, occ, false)];
      disk := rows;
      if e.death.DiesAfterPublish? { return None; }
      if e.reply.happened { issues := issues + multiset{f.fp}; }
      if e.death.DiesAfterCall? { return None; }
      if e.reply.happened && !e.reply.exitZero { forgotten := forgotten + multiset{f.fp}; }
      rows := DropPending(rows, f.fp);
      if e.reply.exitZero {
        rows := rows + [NewRow(Create, f, e, Some(e.reply.number), count, occ, false)];
        return Some(Created);
      }
      rows := rows + [NewRow(Create, f, e, None, count, occ, true)];
      return Some(if e.reply.knownStatus then KnownFailure else WriteFailure);
    }

    /** `file_payload` past its consent and parse checks; false when the process died. */
    method FilePayload(items: seq<Item>, envs: nat -> Env, consent: bool)
      returns (lived: bool, fatal: bool, groups: seq<Group>)
      requires rows == disk
      modifies this
      ensures !consent ==> View() == old(View()) && groups == [] && !fatal
      ensures consent ==> groups == Grouped(items) && View() == FileGroups(old(View()), groups, envs, 0)
      ensures lived ==> rows == disk
      ensures lived && consent ==> (fatal <==> AnyFatal(old(View()), groups, envs, 0))
    {
      lived, fatal, groups := true, false, [];
      if !consent { return; }
      groups := Aggregate(items);
      var k := 0;
      while k < |groups|
        invariant 0 <= k <= |groups|
        invariant lived && rows == disk
        invariant FileGroups(View(), groups, envs, k) == FileGroups(old(View()), groups, envs, 0)
        invariant fatal || AnyFatal(View(), groups, envs, k) <==> AnyFatal(old(View()), groups, envs, 0)
      {
        var code := FileAndSave(groups[k].first, groups[k].seen, envs(k));
        if code.None? {
          lived := false;
          return;
        }
        fatal := fatal || code.value == WriteFailure;
        k := k + 1;
      }
    }
  }
}
