/**
 The findings queue: exact-signature dedup, similarity folding, reopening, and adjudication history.
 The signature hash is taken to be injective, so a signature is the triple it hashes.
 */
module FindingsQueue {
  import opened Common

  datatype Severity = Critical | High | Medium | Low | Unranked

  datatype Disposition = Refute | Fix | Waive | Invalid

  datatype Adjudication = Adjudication(disposition: Disposition, reason: string, at: int)

  datatype Sig = Sig(plan: string, file: string, text: string)

  datatype Finding = Finding(sig: Sig, file: string, issue: string, severity: Option<Severity>,
                             run: Option<string>, source: Option<string>, plan: string,
                             current: Option<Adjudication>, history: seq<Adjudication>, aliases: seq<string>)

  datatype Report = Report(file: string, issue: string, severity: Option<Severity>, run: Option<string>,
                           source: Option<string>, plan: Option<string>)

  type Queue = seq<Finding>

  /** Text operations left open: whitespace/case normalisation, difflib's ratio, and blankness. */
  datatype Text = Text(norm: string -> string, ratio: (string, string) -> real, blank: string -> bool)

  const FOLD_THRESHOLD: real := 0.75

  function Rank(s: Option<Severity>): nat {
    if s.None? then 0
    else match s.value case Critical => 4 case High => 3 case Medium => 2 case Low => 1 case Unranked => 0
  }

  /** The ranks in their order; an unknown severity ranks like none. */
  lemma RanksInOrder()
    ensures Rank(None) == Rank(Some(Unranked)) < Rank(Some(Low)) < Rank(Some(Medium))
    ensures Rank(Some(Medium)) < Rank(Some(High)) < Rank(Some(Critical))
  {
  }

  // ---------------------------------------------------------------- plan spellings

  const MARKER: string := ".planning/"

  predicate MarkedAt(m: string, s: string, i: int) {
    0 <= i <= |s| && m <= s[i..]
  }

  /** Last occurrence of `m` at or before `k`, or -1. */
  function RFind(m: string, s: string, k: int): (i: int)
    requires k >= -1
    ensures -1 <= i <= k
    decreases k
  {
    if k < 0 then -1 else if MarkedAt(m, s, k) then k else RFind(m, s, k - 1)
  }

  /** The text from the last marker on, or all of it when there is no marker. */
  function FromLast(m: string, s: string): string {
    var i := RFind(m, s, |s| - 1);
    if i < 0 then s else s[i..]
  }

  function CanonText(s: string): string { FromLast(MARKER, s) }

  function Canon(plan: Option<string>): string {
    if plan.None? then "" else CanonText(plan.value)
  }

  lemma MarkShifts(m: string, root: string, tail: string, j: nat)
    requires j <= |tail|
    ensures MarkedAt(m, tail, j) <==> MarkedAt(m, root + tail, |root| + j)
  {
  }

  /** The search depends only on the part of the text behind the last marker's root. */
  lemma {:induction false} SearchShifts(m: string, root: string, tail: string, k: nat)
    requires k < |tail| && RFind(m, tail, k) >= 0
    ensures RFind(m, root + tail, |root| + k) == |root| + RFind(m, tail, k)
    ensures MarkedAt(m, tail, RFind(m, tail, k))
    decreases k
  {
    MarkShifts(m, root, tail, k);
    if !MarkedAt(m, tail, k) { SearchShifts(m, root, tail, k - 1); }
  }

  lemma {:induction false} SearchFinds(m: string, s: string, i: nat, k: nat)
    requires i <= k && MarkedAt(m, s, i)
    ensures RFind(m, s, k) >= i
    decreases k
  {
    if !MarkedAt(m, s, k) { SearchFinds(m, s, i, k - 1); }
  }

  lemma SliceShifts(root: string, tail: string, i: nat)
    requires i <= |tail|
    ensures (root + tail)[|root| + i..] == tail[i..]
  {
  }

  lemma {:induction false} RootIsDropped(m: string, root: string, tail: string)
    requires tail != [] && RFind(m, tail, |tail| - 1) >= 0
    ensures FromLast(m, root + tail) == FromLast(m, tail)
  {
    var i := RFind(m, tail, |tail| - 1);
    SearchShifts(m, root, tail, |tail| - 1);
    assert RFind(m, root + tail, |root + tail| - 1) == |root| + i;
    SliceShifts(root, tail, i);
  }

  /** A spelling from any root folds to the spelling from the planning directory on. */
  lemma AnyRootFolds(root: string, tail: string)
    requires MARKER <= tail
    ensures CanonText(root + tail) == CanonText(tail)
  {
    SearchFinds(MARKER, tail, 0, |tail| - 1);
    RootIsDropped(MARKER, root, tail);
  }

  lemma {:induction false} FoundMarks(m: string, s: string, k: int)
    requires -1 <= k <= |s| && RFind(m, s, k) >= 0
    ensures MarkedAt(m, s, RFind(m, s, k))
    decreases k
  {
    if !MarkedAt(m, s, k) { FoundMarks(m, s, k - 1); }
  }

  lemma FromLastIdempotent(m: string, s: string)
    requires m != ""
    ensures FromLast(m, FromLast(m, s)) == FromLast(m, s)
  {
    var i := RFind(m, s, |s| - 1);
    if i >= 0 {
      var root, tail := s[..i], s[i..];
      FoundMarks(m, s, |s| - 1);
      assert m <= tail;
      assert MarkedAt(m, tail, 0) by { assert tail[0..] == tail; }
      SearchFinds(m, tail, 0, |tail| - 1);
      RootIsDropped(m, root, tail);
      assert root + tail == s;
    }
  }

  /** The last place where the marker stands. */
  predicate LastMark(s: string, i: int) {
    0 <= i <= |s| && ".planning/" <= s[i..] && forall j | i < j <= |s| :: !MarkedAt(".planning/", s, j)
  }

  /** A plan's canonical text starts at its last ".planning/". */
  lemma CanonAtMark(s: string, i: nat)
    requires LastMark(s, i)
    ensures CanonText(s) == s[i..]
  {
    assert MarkedAt(MARKER, s, i) && i < |s|;
    SearchFinds(MARKER, s, i, |s| - 1);
    FoundMarks(MARKER, s, |s| - 1);
    assert RFind(MARKER, s, |s| - 1) == i;
  }

  /** Without one it is the whole text. */
  lemma CanonUnmarked(s: string)
    requires forall i | 0 <= i <= |s| :: !MarkedAt(".planning/", s, i)
    ensures CanonText(s) == s
  {
    if RFind(MARKER, s, |s| - 1) >= 0 { FoundMarks(MARKER, s, |s| - 1); }
  }

  lemma CanonIdempotent(s: string)
    ensures CanonText(CanonText(s)) == CanonText(s)
  {
    FromLastIdempotent(MARKER, s);
  }

  // ---------------------------------------------------------------- add

  function IndexOf(q: Queue, sig: Sig): (k: nat)
    ensures k <= |q|
    ensures k < |q| ==> q[k].sig == sig
    ensures forall x | 0 <= x < k :: q[x].sig != sig
  {
    if q == [] then 0 else if q[0].sig == sig then 0 else 1 + IndexOf(q[1..], sig)
  }

  predicate Eligible(t: Text, f: Finding, plan: string, r: Report) {
    && CanonText(f.plan) == plan && f.file == r.file
    && Rank(r.severity) <= Rank(f.severity)
    && t.ratio(t.norm(r.issue), t.norm(f.issue)) >= FOLD_THRESHOLD
  }

  function Similarity(t: Text, f: Finding, r: Report): real { t.ratio(t.norm(r.issue), t.norm(f.issue)) }

  /** Index of the record to fold onto; |q| when nothing is eligible. */
  function Best(t: Text, q: Queue, plan: string, r: Report): (k: nat)
    ensures k <= |q|
    ensures k < |q| ==> Eligible(t, q[k], plan, r)
  {
    if q == [] then 0
    else
      var n := |q| - 1;
      var k := Best(t, q[..n], plan, r);
      if Eligible(t, q[n], plan, r) && (k == n || Similarity(t, q[n], r) > Similarity(t, q[k], r)) then n
      else if k == n then |q| else k
  }

  lemma {:induction false} BestSnoc(t: Text, q: Queue, n: nat, plan: string, r: Report)
    requires n < |q|
    ensures
      var k := Best(t, q[..n], plan, r);
      Best(t, q[..n + 1], plan, r) ==
        if Eligible(t, q[n], plan, r) && (k == n || Similarity(t, q[n], r) > Similarity(t, q[k], r)) then n
        else if k == n then n + 1 else k
  {
    assert q[..n + 1][..n] == q[..n];
  }

  /** Best is the first eligible record of highest similarity, and misses only when none is eligible. */
  lemma {:induction false} BestIsFirstMaximum(t: Text, q: Queue, plan: string, r: Report, x: nat)
    requires x < |q| && Eligible(t, q[x], plan, r)
    ensures
      var k := Best(t, q, plan, r);
      && k < |q| && Similarity(t, q[x], r) <= Similarity(t, q[k], r)
      && (x < k ==> Similarity(t, q[x], r) < Similarity(t, q[k], r))
  {
    var n := |q| - 1;
    if x < n { BestIsFirstMaximum(t, q[..n], plan, r, x); }
  }

  function Or<T>(a: Option<T>, b: Option<T>): Option<T> { if a.Some? then a else b }

  /** Unresolve a finding, pushing its adjudication onto the history and refreshing its metadata. */
  function Reopen(f: Finding, r: Report, plan: string): Finding
    requires f.current.Some?
  {
    f.(current := None, history := f.history + [f.current.value],
       severity := Or(r.severity, f.severity), run := Or(r.run, f.run), source := Or(r.source, f.source),
       plan := plan)
  }

  function Fold(f: Finding, r: Report, plan: string): Finding {
    var g := if r.issue != f.issue && r.issue !in f.aliases then f.(aliases := f.aliases + [r.issue]) else f;
    if g.current.Some? then Reopen(g, r, plan) else g
  }

  datatype Added = Added(queue: Queue, sig: Sig, deduped: bool, reopened: bool)

  function SigOf(t: Text, r: Report): Sig { Sig(Canon(r.plan), r.file, t.norm(r.issue)) }

  function Add(t: Text, q: Queue, r: Report): Added {
    var plan, sig := Canon(r.plan), SigOf(t, r);
    var k := IndexOf(q, sig);
    if k < |q| then
      if q[k].current.Some? then Added(q[k := Reopen(q[k], r, plan)], sig, true, true)
      else Added(q, sig, true, false)
    else
      var b := Best(t, q, plan, r);
      if b < |q| then Added(q[b := Fold(q[b], r, plan)], q[b].sig, true, q[b].current.Some?)
      else
        var f := Finding(sig, r.file, r.issue, r.severity, r.run, r.source, plan, None, [], []);
        Added(q + [f], sig, false, false)
  }

  // ---------------------------------------------------------------- resolve and list

  datatype Resolved = Raised | Missed | Accepted(queue: Queue)

  function Adjudicate(f: Finding, a: Adjudication): Finding {
    f.(current := Some(a), history := if f.current.Some? then f.history + [f.current.value] else f.history)
  }

  function Resolve(t: Text, q: Queue, sig: Sig, a: Adjudication): Resolved {
    if a.disposition.Invalid? || t.blank(a.reason) then Raised
    else
      var k := IndexOf(q, sig);
      if k < |q| then Accepted(q[k := Adjudicate(q[k], a)]) else Missed
  }

  /** The given filters of a listing; an absent one accepts everything. */
  datatype Filter = Filter(unresolved: bool, severities: Option<set<Severity>>, source: Option<string>, plan: string)

  predicate Matches(f: Finding, w: Filter) {
    && (w.unresolved ==> f.current.None?)
    && (w.severities.Some? ==> f.severity.Some? && f.severity.value in w.severities.value)
    && (w.source.Some? ==> f.source == w.source)
    && (w.plan != "" ==> CanonText(f.plan) == CanonText(w.plan))
  }

  function List(q: Queue, w: Filter): Queue {
    if q == [] then []
    else
      List(q[..|q| - 1], w) + (if Matches(q[|q| - 1], w) then [q[|q| - 1]] else [])
  }

  /** The list is the queue read at these positions. */
  predicate ReadAt(q: Queue, at: seq<nat>, listed: Queue) {
    && |at| == |listed|
    && (forall i | 0 <= i < |at| :: at[i] < |q| && listed[i] == q[at[i]])
  }

  predicate Increasing(at: seq<nat>) { forall i, j | 0 <= i < j < |at| :: at[i] < at[j] }

  /** Positions of the matching findings, left to right. */
  function Positions(q: Queue, w: Filter): seq<nat> {
    if q == [] then []
    else
      var n := |q| - 1;
      Positions(q[..n], w) + (if Matches(q[n], w) then [n] else [])
  }

  lemma {:induction false} PositionsRise(q: Queue, w: Filter)
    ensures Increasing(Positions(q, w)) && forall i | 0 <= i < |Positions(q, w)| :: Positions(q, w)[i] < |q|
  {
    if q != [] { PositionsRise(q[..|q| - 1], w); }
  }

  lemma {:induction false} PositionsRead(q: Queue, w: Filter)
    ensures ReadAt(q, Positions(q, w), List(q, w))
  {
    if q != [] {
      var rest := q[..|q| - 1];
      PositionsRead(rest, w);
      assert forall x: nat | x < |rest| :: rest[x] == q[x];
    }
  }

  lemma {:induction false} PositionsMatch(q: Queue, w: Filter, x: nat)
    ensures x in Positions(q, w) <==> x < |q| && Matches(q[x], w)
  {
    if q != [] { PositionsMatch(q[..|q| - 1], w, x); }
  }

  /** The list holds the matching findings, every copy of them, in the queue's order, and nothing else. */
  lemma ListHasExactlyTheMatches(q: Queue, w: Filter) returns (at: seq<nat>)
    ensures ReadAt(q, at, List(q, w)) && Increasing(at)
    ensures forall x: nat | x < |q| :: Matches(q[x], w) <==> x in at
  {
    at := Positions(q, w);
    PositionsRise(q, w);
    PositionsRead(q, w);
    forall x: nat ensures x in at <==> x < |q| && Matches(q[x], w) { PositionsMatch(q, w, x); }
  }

  lemma {:induction false} ListedExactly(q: Queue, w: Filter, f: Finding)
    ensures f in List(q, w) <==> f in q && Matches(f, w)
  {
    var at := ListHasExactlyTheMatches(q, w);
    var listed := List(q, w);
    if f in listed {
      var i :| 0 <= i < |listed| && listed[i] == f;
      assert q[at[i]] == f && at[i] in at;
    }
    if f in q && Matches(f, w) {
      var x: nat :| x < |q| && q[x] == f;
      var i :| 0 <= i < |at| && at[i] == x;
      assert listed[i] == f;
    }
  }

  // ---------------------------------------------------------------- histories

  datatype Event = Reported(report: Report) | Adjudicated(sig: Sig, adjudication: Adjudication)

  function Next(t: Text, q: Queue, e: Event): Queue {
    match e
    case Reported(r) => Add(t, q, r).queue
    case Adjudicated(sig, a) => var r := Resolve(t, q, sig, a); if r.Accepted? then r.queue else q
  }

  function After(t: Text, events: seq<Event>): Queue {
    if events == [] then [] else Next(t, After(t, events[..|events| - 1]), events[|events| - 1])
  }

  /** The resolves of one signature that the queue accepted, in order. */
  function AcceptedResolves(t: Text, events: seq<Event>, sig: Sig): seq<Adjudication> {
    if events == [] then []
    else
      var rest, e := events[..|events| - 1], events[|events| - 1];
      AcceptedResolves(t, rest, sig) +
      (if e.Adjudicated? && e.sig == sig && Resolve(t, After(t, rest), sig, e.adjudication).Accepted?
       then [e.adjudication] else [])
  }

  /** Everything a finding still tells about its adjudications. */
  function Adjudications(f: Finding): seq<Adjudication> {
    if f.current.Some? then f.history + [f.current.value] else f.history
  }

  predicate Unique(q: Queue) { forall x, y | 0 <= x < y < |q| :: q[x].sig != q[y].sig }

  predicate Located(f: Finding) { CanonText(f.plan) == f.sig.plan && f.file == f.sig.file }

  lemma UpdateKeeps(q: Queue, k: nat, f: Finding)
    requires Unique(q) && (forall g | g in q :: Located(g))
    requires k < |q| && f.sig == q[k].sig && Located(f)
    ensures Unique(q[k := f]) && forall g | g in q[k := f] :: Located(g)
  {
  }

  lemma ReopenFacts(f: Finding, r: Report, plan: string)
    requires Located(f) && plan == f.sig.plan && CanonText(plan) == plan
    ensures
      var g := Fold(f, r, plan);
      && g.sig == f.sig && Located(g) && Adjudications(g) == Adjudications(f) && g.current.None?
      && (Rank(r.severity) <= Rank(f.severity) ==> Rank(r.severity) <= Rank(g.severity))
    ensures f.current.Some? ==>
      var g := Reopen(f, r, plan);
      g.sig == f.sig && Located(g) && Adjudications(g) == Adjudications(f)
  {
  }

  predicate Absent(q: Queue, sig: Sig) { forall f | f in q :: f.sig != sig }

  /** A report updates one record without touching its adjudications, or appends one that has none. */
  predicate Grown(q: Queue, q': Queue) {
    && Unique(q') && (forall f | f in q' :: Located(f))
    && |q| <= |q'| <= |q| + 1
    && (forall x | 0 <= x < |q| :: q'[x].sig == q[x].sig && Adjudications(q'[x]) == Adjudications(q[x]))
    && (|q'| == |q| + 1 ==> Absent(q, q'[|q|].sig) && Adjudications(q'[|q|]) == [])
  }

  lemma UpdateGrows(q: Queue, k: nat, f: Finding)
    requires Unique(q) && (forall g | g in q :: Located(g))
    requires k < |q| && f.sig == q[k].sig && Located(f) && Adjudications(f) == Adjudications(q[k])
    ensures Grown(q, q[k := f])
  {
    UpdateKeeps(q, k, f);
  }

  lemma AppendGrows(q: Queue, f: Finding)
    requires Unique(q) && forall g | g in q :: Located(g)
    requires Absent(q, f.sig) && Located(f) && Adjudications(f) == []
    ensures Grown(q, q + [f])
  {
    var q' := q + [f];
    assert q'[|q|] == f && forall x | 0 <= x < |q| :: q'[x] == q[x];
    forall g | g in q' ensures Located(g) { assert g in q || g == f; }
    forall x, y | 0 <= x < y < |q'| ensures q'[x].sig != q'[y].sig {
      if y == |q| { assert q[x].sig != f.sig; }
    }
  }

  lemma AddFacts(t: Text, q: Queue, r: Report)
    requires Unique(q) && forall f | f in q :: Located(f)
    ensures Grown(q, Add(t, q, r).queue)
  {
    var plan, k := Canon(r.plan), IndexOf(q, SigOf(t, r));
    if r.plan.Some? { CanonIdempotent(r.plan.value); }
    if k < |q| {
      assert q[k] in q;
      ReopenFacts(q[k], r, plan);
      if q[k].current.Some? { UpdateGrows(q, k, Reopen(q[k], r, plan)); }
    } else {
      var b := Best(t, q, plan, r);
      if b < |q| {
        assert q[b] in q;
        ReopenFacts(q[b], r, plan);
        UpdateGrows(q, b, Fold(q[b], r, plan));
      } else {
        AppendGrows(q, Finding(SigOf(t, r), r.file, r.issue, r.severity, r.run, r.source, plan, None, [], []));
      }
    }
  }

  /** The finding of a signature tells exactly these adjudications; without one there are none. */
  predicate Remembers(q: Queue, sig: Sig, accepted: seq<Adjudication>) {
    && (forall f | f in q && f.sig == sig :: Adjudications(f) == accepted)
    && (Absent(q, sig) ==> accepted == [])
  }

  lemma ReportRemembers(t: Text, q: Queue, r: Report, sig: Sig, accepted: seq<Adjudication>)
    requires Unique(q) && (forall f | f in q :: Located(f)) && Remembers(q, sig, accepted)
    ensures Remembers(Add(t, q, r).queue, sig, accepted)
  {
    AddFacts(t, q, r);
    var q' := Add(t, q, r).queue;
    forall f | f in q' && f.sig == sig ensures Adjudications(f) == accepted {
      var x :| 0 <= x < |q'| && q'[x] == f;
      if x < |q| { assert q[x] in q; }
    }
    if Absent(q', sig) {
      forall f | f in q ensures f.sig != sig {
        var x :| 0 <= x < |q| && q[x] == f;
        assert q'[x] in q';
      }
    }
  }

  lemma ResolveRemembers(q: Queue, k: nat, a: Adjudication, sig: Sig, accepted: seq<Adjudication>)
    requires Unique(q) && (forall f | f in q :: Located(f)) && Remembers(q, sig, accepted)
    requires k < |q|
    ensures
      var q' := q[k := Adjudicate(q[k], a)];
      && Unique(q') && (forall f | f in q' :: Located(f))
      && Remembers(q', sig, if q[k].sig == sig then accepted + [a] else accepted)
  {
    var q' := q[k := Adjudicate(q[k], a)];
    assert q[k] in q && q'[k] in q';
    UpdateKeeps(q, k, q'[k]);
    forall f | f in q' && f.sig == sig
      ensures Adjudications(f) == if q[k].sig == sig then accepted + [a] else accepted
    {
      var x :| 0 <= x < |q'| && q'[x] == f;
      assert q[x] in q;
    }
    if Absent(q', sig) {
      forall f | f in q ensures f.sig != sig {
        var x :| 0 <= x < |q| && q[x] == f;
        assert q'[x] in q';
      }
    }
  }

  /**
   Main result.  No adjudication is ever lost: for every finding in every history, its history followed
   by its current disposition is exactly the ordered list of accepted resolves of its signature; a
   signature without a finding has had none; and signatures stay unique.
   */
  lemma {:induction false} NothingLost(t: Text, events: seq<Event>, sig: Sig)
    ensures Unique(After(t, events))
    ensures forall f | f in After(t, events) :: Located(f)
    ensures Remembers(After(t, events), sig, AcceptedResolves(t, events, sig))
  {
    if events != [] {
      var rest, e := events[..|events| - 1], events[|events| - 1];
      NothingLost(t, rest, sig);
      var q := After(t, rest);
      match e
      case Reported(r) =>
        AddFacts(t, q, r);
        ReportRemembers(t, q, r, sig, AcceptedResolves(t, rest, sig));
      case Adjudicated(s, a) =>
        var k := IndexOf(q, s);
        if Resolve(t, q, s, a).Accepted? {
          ResolveRemembers(q, k, a, sig, AcceptedResolves(t, rest, sig));
        }
    }
  }

  /** The position a report's record has afterwards, and how its severity compares with the report's. */
  lemma {:induction false} AddLands(t: Text, q: Queue, r: Report)
    requires Unique(q) && forall f | f in q :: Located(f)
    ensures
      var a, sk := Add(t, q, r), IndexOf(q, SigOf(t, r));
      var x := if sk < |q| then sk else Best(t, q, Canon(r.plan), r);
      && x < |a.queue| && a.queue[x].sig == a.sig && a.queue[x].current.None? && a.queue[x].sig.plan == Canon(r.plan)
      && (Rank(a.queue[x].severity) < Rank(r.severity) <==>
            sk < |q| && q[sk].current.None? && Rank(q[sk].severity) < Rank(r.severity))
  {
    var sk := IndexOf(q, SigOf(t, r));
    var x := if sk < |q| then sk else Best(t, q, Canon(r.plan), r);
    if x < |q| { assert q[x] in q; }
  }

  /**
   After any history, a report is visible: the record it returns is in the queue, unresolved, and listed
   under every spelling of the report's plan.  Its severity ranks below the report's exactly when the
   report's signature was already on file, unresolved and with a lower rank, which a repeated report
   does not raise; so never on a signature miss.
   */
  lemma {:induction false} ReportIsVisible(t: Text, events: seq<Event>, r: Report, spelling: string)
    requires CanonText(spelling) == Canon(r.plan)
    ensures
      var q, a := After(t, events), Add(t, After(t, events), r);
      var k, sk := IndexOf(a.queue, a.sig), IndexOf(q, SigOf(t, r));
      && k < |a.queue| && a.queue[k].current.None?
      && a.queue[k] in List(a.queue, Filter(true, None, None, spelling))
      && (Rank(a.queue[k].severity) < Rank(r.severity) <==>
            sk < |q| && q[sk].current.None? && Rank(q[sk].severity) < Rank(r.severity))
  {
    NothingLost(t, events, SigOf(t, r));
    var q := After(t, events);
    AddFacts(t, q, r);
    AddLands(t, q, r);
    var a := Add(t, q, r);
    var sk := IndexOf(q, SigOf(t, r));
    var x := if sk < |q| then sk else Best(t, q, Canon(r.plan), r);
    var k := IndexOf(a.queue, a.sig);
    assert k == x;
    assert a.queue[k] in a.queue;
    ListedExactly(a.queue, Filter(true, None, None, spelling), a.queue[k]);
  }

  // ---------------------------------------------------------------- what one report and one resolve do

  /** Near enough to fold onto: same plan under any spelling, same file, not less severe, and similar text. */
  predicate Foldable(t: Text, f: Finding, plan: string, r: Report) {
    && CanonText(f.plan) == plan && f.file == r.file && Rank(r.severity) <= Rank(f.severity)
    && t.ratio(t.norm(r.issue), t.norm(f.issue)) >= 0.75
  }

  /** A repeated report's effect on its record: unresolved, with metadata refreshed only when it was resolved. */
  predicate Refreshed(f: Finding, g: Finding, r: Report, plan: string, aliased: bool) {
    && g.sig == f.sig && g.file == f.file && g.issue == f.issue && g.current.None?
    && g.history == f.history + (if f.current.Some? then [f.current.value] else [])
    && g.aliases == f.aliases + (if aliased && r.issue != f.issue && r.issue !in f.aliases then [r.issue] else [])
    && (if f.current.None? then
          g.severity == f.severity && g.run == f.run && g.source == f.source && g.plan == f.plan
        else
          && g.severity == (if r.severity.Some? then r.severity else f.severity)
          && g.run == (if r.run.Some? then r.run else f.run)
          && g.source == (if r.source.Some? then r.source else f.source)
          && g.plan == plan)
  }

  predicate OnFile(q: Queue, sig: Sig) { exists f | f in q :: f.sig == sig }

  predicate OnlyChanges(q: Queue, q': Queue, k: nat) {
    |q'| == |q| && k < |q| && forall x | 0 <= x < |q| && x != k :: q'[x] == q[x]
  }

  lemma {:induction false} IndexExactly(q: Queue, sig: Sig)
    ensures IndexOf(q, sig) < |q| <==> OnFile(q, sig)
  {
    if f :| f in q && f.sig == sig { var x :| 0 <= x < |q| && q[x] == f; }
  }

  predicate CanFold(t: Text, q: Queue, plan: string, r: Report) { exists f | f in q :: Foldable(t, f, plan, r) }

  /** Record k takes the fold: nothing foldable is more similar, and nothing before it is as similar. */
  predicate TakesFold(t: Text, q: Queue, plan: string, r: Report, k: nat) {
    && k < |q| && Foldable(t, q[k], plan, r)
    && (forall x | 0 <= x < |q| && Foldable(t, q[x], plan, r) :: Similarity(t, q[x], r) <= Similarity(t, q[k], r))
    && (forall x | 0 <= x < k && Foldable(t, q[x], plan, r) :: Similarity(t, q[x], r) < Similarity(t, q[k], r))
  }

  lemma {:induction false} BestTakesFold(t: Text, q: Queue, plan: string, r: Report)
    ensures
      var k := Best(t, q, plan, r);
      (k < |q| <==> CanFold(t, q, plan, r)) && (k < |q| ==> TakesFold(t, q, plan, r, k))
  {
    var k := Best(t, q, plan, r);
    if k < |q| { assert q[k] in q && Foldable(t, q[k], plan, r); }
    forall x: nat | x < |q| && Foldable(t, q[x], plan, r)
      ensures
        && k < |q| && Similarity(t, q[x], r) <= Similarity(t, q[k], r)
        && (x < k ==> Similarity(t, q[x], r) < Similarity(t, q[k], r))
    {
      assert Eligible(t, q[x], plan, r);
      BestIsFirstMaximum(t, q, plan, r, x);
    }
  }

  /**
   Everything one report does.  Its record is the one with its signature, else the first most similar one it
   can fold onto, else a new one; no other record changes.
   */
  lemma ReportExactly(t: Text, q: Queue, r: Report) returns (k: nat)
    ensures
      var a, plan, sig := Add(t, q, r), Canon(r.plan), SigOf(t, r);
      && k < |a.queue| && a.sig == a.queue[k].sig
      && (a.deduped <==> OnFile(q, sig) || CanFold(t, q, plan, r))
      && (a.deduped ==>
            && OnlyChanges(q, a.queue, k) && Refreshed(q[k], a.queue[k], r, plan, !OnFile(q, sig))
            && (a.reopened <==> q[k].current.Some?)
            && (if OnFile(q, sig) then q[k].sig == sig else TakesFold(t, q, plan, r, k)))
      && (!a.deduped ==>
            !a.reopened && k == |q|
            && a.queue == q + [Finding(sig, r.file, r.issue, r.severity, r.run, r.source, plan, None, [], [])])
  {
    IndexExactly(q, SigOf(t, r));
    k := IndexOf(q, SigOf(t, r));
    if k == |q| {
      BestTakesFold(t, q, Canon(r.plan), r);
      k := Best(t, q, Canon(r.plan), r);
    }
  }

  /** The k-th event is a report under this signature that had nothing to fold onto: from then on it is on file. */
  predicate MintsAt(t: Text, events: seq<Event>, k: int, sig: Sig) {
    && 0 <= k < |events| && events[k].Reported? && SigOf(t, events[k].report) == sig
    && !CanFold(t, After(t, events[..k]), Canon(events[k].report.plan), events[k].report)
  }

  lemma MintsEarlier(t: Text, events: seq<Event>, k: int, sig: Sig)
    requires events != []
    ensures MintsAt(t, events[..|events| - 1], k, sig) <==> MintsAt(t, events, k, sig) && k != |events| - 1
  {
    if 0 <= k < |events| - 1 { assert events[..|events| - 1][..k] == events[..k]; }
  }

  lemma SameSignatures(q: Queue, q': Queue, sig: Sig)
    requires |q'| == |q| && forall x | 0 <= x < |q| :: q'[x].sig == q[x].sig
    ensures OnFile(q', sig) <==> OnFile(q, sig)
  {
    if f :| f in q' && f.sig == sig {
      var x :| 0 <= x < |q| && q'[x] == f;
      assert q[x] in q;
    }
    if f :| f in q && f.sig == sig {
      var x :| 0 <= x < |q| && q[x] == f;
      assert q'[x] in q';
    }
  }

  lemma OneMoreSignature(q: Queue, f: Finding, sig: Sig)
    ensures OnFile(q + [f], sig) <==> OnFile(q, sig) || f.sig == sig
  {
    assert f in q + [f];
    if g :| g in q && g.sig == sig { assert g in q + [f]; }
  }

  lemma ReportFiles(t: Text, q: Queue, r: Report, sig: Sig)
    ensures OnFile(Add(t, q, r).queue, sig) <==>
            OnFile(q, sig) || (SigOf(t, r) == sig && !CanFold(t, q, Canon(r.plan), r))
  {
    var k := ReportExactly(t, q, r);
    var a := Add(t, q, r);
    if a.deduped {
      SameSignatures(q, a.queue, sig);
    } else {
      OneMoreSignature(q, a.queue[|q|], sig);
    }
  }

  lemma ResolveFiles(t: Text, q: Queue, sig: Sig, a: Adjudication, other: Sig)
    requires Resolve(t, q, sig, a).Accepted?
    ensures OnFile(Resolve(t, q, sig, a).queue, other) <==> OnFile(q, other)
  {
    SameSignatures(q, Resolve(t, q, sig, a).queue, other);
  }

  /** A signature is on file exactly when some report minted it. */
  lemma {:induction false} FiledExactly(t: Text, events: seq<Event>, sig: Sig)
    ensures OnFile(After(t, events), sig) <==> exists k :: MintsAt(t, events, k, sig)
  {
    if events == [] {
      assert forall k :: !MintsAt(t, events, k, sig);
    } else {
      var n := |events| - 1;
      var rest, e := events[..n], events[n];
      FiledExactly(t, rest, sig);
      if k :| MintsAt(t, rest, k, sig) { MintsEarlier(t, events, k, sig); }
      if k :| MintsAt(t, events, k, sig) { MintsEarlier(t, events, k, sig); }
      match e
      case Reported(r) =>
        ReportFiles(t, After(t, rest), r, sig);
        assert MintsAt(t, events, n, sig) <==> SigOf(t, r) == sig && !CanFold(t, After(t, rest), Canon(r.plan), r);
      case Adjudicated(s, a) =>
        if Resolve(t, After(t, rest), s, a).Accepted? { ResolveFiles(t, After(t, rest), s, a, sig); }
    }
  }

  /**
   Everything one resolve does: refused for an unknown disposition or a blank reason, missed without a report
   that minted the signature, and otherwise accepted: that record is adjudicated and no other one changes.
   */
  lemma ResolveExactly(t: Text, events: seq<Event>, sig: Sig, a: Adjudication) returns (k: nat)
    ensures
      var q := After(t, events);
      var v := Resolve(t, q, sig, a);
      && (v == Raised <==> a.disposition == Invalid || t.blank(a.reason))
      && (v.Accepted? <==> v != Raised && exists x :: MintsAt(t, events, x, sig))
      && (v.Accepted? ==>
            && OnlyChanges(q, v.queue, k) && q[k].sig == sig
            && v.queue[k] == q[k].(current := Some(a), history := v.queue[k].history)
            && v.queue[k].history == q[k].history + (if q[k].current.Some? then [q[k].current.value] else []))
  {
    IndexExactly(After(t, events), sig);
    FiledExactly(t, events, sig);
    k := IndexOf(After(t, events), sig);
  }

  // ---------------------------------------------------------------- the store

  class FindingsStore {
    var findings: Queue
    const t: Text

    constructor (t: Text)
      ensures findings == [] && this.t == t
    {
      findings := [];
      this.t := t;
    }

    /** The candidate loop of the similarity fold. */
    method BestCandidate(plan: string, r: Report) returns (best: nat)
      ensures best == Best(t, findings, plan, r)
    {
      best := |findings|;
      var ratio := 0.0;
      var n := 0;
      while n < |findings|
        invariant 0 <= n <= |findings|
        invariant Best(t, findings[..n], plan, r) == (if best == |findings| then n else best)
        invariant if best == |findings| then ratio == 0.0
                  else best < n && ratio == Similarity(t, findings[best], r) >= FOLD_THRESHOLD
      {
        var c := findings[n];
        BestSnoc(t, findings, n, plan, r);
        if CanonText(c.plan) == plan && c.file == r.file && Rank(r.severity) <= Rank(c.severity) {
          var x := Similarity(t, c, r);
          if x >= FOLD_THRESHOLD && x > ratio { best, ratio := n, x; }
        }
        n := n + 1;
      }
      assert findings[..|findings|] == findings;
    }

    method FindingsAdd(r: Report) returns (sig: Sig, deduped: bool, reopened: bool)
      modifies `findings
      ensures Added(findings, sig, deduped, reopened) == Add(t, old(findings), r)
    {
      var plan := Canon(r.plan);
      sig, deduped, reopened := SigOf(t, r), false, false;
      var k := 0;
      while k < |findings| && findings[k].sig != sig
        invariant 0 <= k <= |findings|
        invariant forall x | 0 <= x < k :: findings[x].sig != sig
      {
        k := k + 1;
      }
      assert k == IndexOf(findings, sig);
      if k < |findings| {
        deduped := true;
        if findings[k].current.Some? {
          findings := findings[k := Reopen(findings[k], r, plan)];
          reopened := true;
        }
        return;
      }
      var b := BestCandidate(plan, r);
      if b < |findings| {
        var best := findings[b];
        if r.issue != best.issue && r.issue !in best.aliases {
          best := best.(aliases := best.aliases + [r.issue]);
        }
        if best.current.Some? {
          best := Reopen(best, r, plan);
          reopened := true;
        }
        sig, deduped := best.sig, true;
        findings := findings[b := best];
        return;
      }
      findings := findings + [Finding(sig, r.file, r.issue, r.severity, r.run, r.source, plan, None, [], [])];
    }

    method FindingsResolve(sig: Sig, a: Adjudication) returns (r: Option<bool>)
      modifies `findings
      ensures
        var v := Resolve(t, old(findings), sig, a);
        && findings == (if v.Accepted? then v.queue else old(findings))
        && r == (if v.Raised? then None else Some(v.Accepted?))
    {
      if a.disposition.Invalid? || t.blank(a.reason) { return None; }
      var k := 0;
      while k < |findings|
        invariant 0 <= k <= |findings|
        invariant findings == old(findings)
        invariant forall x | 0 <= x < k :: findings[x].sig != sig
      {
        if findings[k].sig == sig {
          assert k == IndexOf(findings, sig);
          findings := findings[k := Adjudicate(findings[k], a)];
          return Some(true);
        }
        k := k + 1;
      }
      assert k == IndexOf(findings, sig);
      return Some(false);
    }
  }
}
