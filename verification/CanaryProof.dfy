/**
 Binding a browser-proof bundle to a recorded Canary session and to its scenario source.  What the
 session recorded, what the bundle claims and what the source requires are plain sequences; file and
 screenshot checks enter as a number of other findings.
 */
module CanaryProof {
  import opened Common

  /** A result step; a field is None when it is missing or not a string. */
  datatype Step =
    | NotAnObject
    | Step(scenarioId: Option<string>, scenarioUnderscoreId: Option<string>, id: Option<string>,
           name: Option<string>, status: Option<string>)

  /** A bundled scenario; `others` counts what its remaining checks found. */
  datatype Scenario = Junk | Scenario(id: Option<string>, kind: Option<string>, status: Option<string>, others: nat)

  datatype Source = Source(id: string, kind: string)

  datatype Finding =
    | ScenarioFault | SessionFault | NoSteps | Duplicate(id: string) | StepNotObject | StepFailed | Unbound
    | BoundTwice(id: string) | StatusMismatch(id: string) | NeverBound(id: string)
    | KindMismatch(id: string) | NotCovered(id: string)

  predicate Present(f: Option<string>) { f.Some? && f.value != "" }

  /** The name is the id, or the id followed by a separator (or by a final newline, which `$` allows). */
  predicate NameMatches(id: string, name: string) {
    || name == id
    || (id < name && (name[|id|] in "-_.:" || name[|id|..] == "\n"))
  }

  /** _canary_step_scenario_id: an explicit id decides alone; a name must match exactly one id. */
  ghost function Binds(step: Step, ids: set<string>): Option<string> {
    if step.NotAnObject? then None
    else if Present(step.scenarioId) then Member(step.scenarioId.value, ids)
    else if Present(step.scenarioUnderscoreId) then Member(step.scenarioUnderscoreId.value, ids)
    else if Present(step.id) then Member(step.id.value, ids)
    else if !Present(step.name) then None
    else if id :| id in ids && OnlyMatch(id, step.name.value, ids) then Some(id) else None
  }

  function Member(id: string, ids: set<string>): Option<string> { if id in ids then Some(id) else None }

  predicate OnlyMatch(id: string, name: string, ids: set<string>) {
    NameMatches(id, name) && forall x | x in ids && NameMatches(x, name) :: x == id
  }

  predicate Passes(status: Option<string>) {
    status == Some("pass") || status == Some("passed") || status == Some("ok")
  }

  /** The status a step claims, with the passing spellings folded into one. */
  function Folded(status: Option<string>): Option<string> { if Passes(status) then Some("pass") else status }

  predicate HasId(s: Scenario) { s.Scenario? && s.id.Some? }

  function Ids(scenarios: seq<Scenario>): set<string> { set s | s in scenarios && HasId(s) :: s.id.value }

  /** The scenario a duplicate-free bundle has under an id; the last one wins otherwise. */
  function ById(scenarios: seq<Scenario>, id: string): Scenario
    requires id in Ids(scenarios)
    ensures ById(scenarios, id) in scenarios && HasId(ById(scenarios, id)) && ById(scenarios, id).id.value == id
  {
    var n := |scenarios| - 1;
    if HasId(scenarios[n]) && scenarios[n].id.value == id then scenarios[n]
    else
      assert id in Ids(scenarios[..n]) by {
        var s :| s in scenarios && HasId(s) && s.id.value == id;
        assert scenarios == scenarios[..n] + [scenarios[n]];
      }
      ById(scenarios[..n], id)
  }

  predicate NoDuplicates(scenarios: seq<Scenario>) {
    forall x, y | 0 <= x < y < |scenarios| && HasId(scenarios[x]) && HasId(scenarios[y]) ::
      scenarios[x].id != scenarios[y].id
  }

  // ---------------------------------------------------------------- what a clean cross-check means

  ghost predicate StepFine(scenarios: seq<Scenario>, steps: seq<Step>, i: nat)
    requires i < |steps|
  {
    var ids := Ids(scenarios);
    var b := Binds(steps[i], ids);
    && steps[i].Step? && Passes(steps[i].status)
    && b.Some? && b.value in ids && ById(scenarios, b.value).status == Some("pass")
    && forall j | 0 <= j < i :: Binds(steps[j], ids) != b
  }

  /** Steps and identified scenarios are in one-to-one correspondence, and all of both pass. */
  ghost predicate Bijective(scenarios: seq<Scenario>, steps: seq<Step>) {
    && steps != [] && NoDuplicates(scenarios)
    && (forall i | 0 <= i < |steps| :: StepFine(scenarios, steps, i))
    && (forall id | id in Ids(scenarios) :: BoundBy(scenarios, steps, |steps|, id))
  }

  ghost predicate BoundBy(scenarios: seq<Scenario>, steps: seq<Step>, n: nat, id: string)
    requires n <= |steps|
  {
    exists i | 0 <= i < n :: Binds(steps[i], Ids(scenarios)) == Some(id)
  }

  // ---------------------------------------------------------------- the checks

  method StepScenario(step: Step, ids: set<string>) returns (r: Option<string>)
    ensures r == Binds(step, ids)
    ensures r.Some? ==> r.value in ids
  {
    if step.NotAnObject? { return None; }
    var fields := [step.scenarioId, step.scenarioUnderscoreId, step.id];
    var k := 0;
    while k < 3
      invariant 0 <= k <= 3
      invariant k > 0 ==> !Present(step.scenarioId)
      invariant k > 1 ==> !Present(step.scenarioUnderscoreId)
      invariant k > 2 ==> !Present(step.id)
    {
      if Present(fields[k]) { return Member(fields[k].value, ids); }
      k := k + 1;
    }
    if !Present(step.name) { return None; }
    var matches := set x | x in ids && NameMatches(x, step.name.value);
    if |matches| != 1 {
      forall id | id in ids ensures OnlyMatch(id, step.name.value, ids) ==> matches == {id} {}
      return None;
    }
    var id :| id in matches;
    OneElement(matches, id);
    forall x | x in ids && NameMatches(x, step.name.value) ensures x == id { assert x in matches; }
    assert OnlyMatch(id, step.name.value, ids);
    forall x | x in ids && OnlyMatch(x, step.name.value, ids) ensures x == id { assert x in matches; }
    return Some(id);
  }

  lemma OneElement<T>(s: set<T>, x: T)
    requires |s| == 1 && x in s
    ensures s == {x}
  {
    assert |s - {x}| == 0;
  }

  /** The loop over result steps.  `steps` is None when the session or its results cannot be used. */
  method CrossCheckCanary(scenarios: seq<Scenario>, steps: Option<seq<Step>>) returns (findings: seq<Finding>)
    ensures findings == [] <==> steps.Some? && Bijective(scenarios, steps.value)
  {
    if steps.None? { return [SessionFault]; }
    var all := steps.value;
    if all == [] { return [NoSteps]; }
    findings := Duplicates(scenarios);
    var ids := Ids(scenarios);
    var bound: set<string> := {};
    var n := 0;
    while n < |all|
      invariant 0 <= n <= |all|
      invariant bound <= ids
      invariant forall id :: id in bound <==> BoundBy(scenarios, all, n, id)
      invariant findings == [] <==> NoDuplicates(scenarios) && forall i | 0 <= i < n :: StepFine(scenarios, all, i)
    {
      var step := all[n];
      ghost var before, was := findings, bound;
      if step.NotAnObject? {
        findings := findings + [StepNotObject];
      } else {
        if !Passes(step.status) { findings := findings + [StepFailed]; }
        var b := StepScenario(step, ids);
        if b.None? {
          findings := findings + [Unbound];
        } else if b.value in bound {
          findings := findings + [BoundTwice(b.value)];
        } else {
          bound := bound + {b.value};
          if ById(scenarios, b.value).status != Folded(step.status) {
            findings := findings + [StatusMismatch(b.value)];
          }
        }
      }
      assert findings == [] <==> before == [] && StepFine(scenarios, all, n) by {
        var b := Binds(step, ids);
        if b.Some? { assert b.value in was <==> exists j | 0 <= j < n :: Binds(all[j], ids) == b; }
      }
      n := n + 1;
    }
    var missing := ids - bound;
    ghost var unfinished := missing;
    ghost var sofar := findings;
    assert unfinished == {} <==> forall id | id in ids :: BoundBy(scenarios, all, |all|, id) by {
      if unfinished != {} { var id :| id in unfinished; assert id in ids && id !in bound; }
      forall id | id in ids ensures BoundBy(scenarios, all, |all|, id) || id in unfinished {}
    }
    while missing != {}
      invariant missing <= unfinished
      invariant findings == [] <==> sofar == [] && missing == unfinished
      decreases missing
    {
      var id :| id in missing;
      findings := findings + [NeverBound(id)];
      missing := missing - {id};
    }
  }

  method Duplicates(scenarios: seq<Scenario>) returns (findings: seq<Finding>)
    ensures findings == [] <==> NoDuplicates(scenarios)
  {
    findings := [];
    var n := 0;
    while n < |scenarios|
      invariant 0 <= n <= |scenarios|
      invariant findings == [] <==> NoDuplicates(scenarios[..n])
    {
      assert forall x | 0 <= x < n :: scenarios[..n + 1][x] == scenarios[..n][x];
      var s := scenarios[n];
      if HasId(s) && exists x | 0 <= x < n :: HasId(scenarios[x]) && scenarios[x].id == s.id {
        findings := findings + [Duplicate(s.id.value)];
      }
      n := n + 1;
    }
    assert scenarios[..|scenarios|] == scenarios;
  }

  const DEFAULT_KIND: string := "functional"

  predicate Wanted(kind: string, s: Source) { kind == "all" || kind == s.kind }

  /** Last kind the source gives an id. */
  function SourceKind(source: seq<Source>, id: string): Option<string> {
    if source == [] then None
    else if source[|source| - 1].id == id then Some(source[|source| - 1].kind)
    else SourceKind(source[..|source| - 1], id)
  }

  predicate KindAgrees(s: Scenario, source: seq<Source>) {
    HasId(s) ==>
      var want := SourceKind(source, s.id.value);
      want.Some? && want.value != "" ==> (if s.kind.Some? then s.kind.value else DEFAULT_KIND) == want.value
  }

  /** Every wanted source scenario is bundled, and bundled kinds are the source's. */
  ghost predicate Covered(scenarios: seq<Scenario>, source: seq<Source>, kind: string) {
    && (forall s | s in scenarios :: KindAgrees(s, source))
    && (forall w | w in source && Wanted(kind, w) :: w.id in Ids(scenarios))
  }

  method CheckCoverage(scenarios: seq<Scenario>, source: seq<Source>, kind: string) returns (findings: seq<Finding>)
    ensures findings == [] <==> Covered(scenarios, source, kind)
  {
    findings := [];
    var bundled: set<string> := {};
    var n := 0;
    while n < |scenarios|
      invariant 0 <= n <= |scenarios|
      invariant bundled == Ids(scenarios[..n])
      invariant findings == [] <==> forall x | 0 <= x < n :: KindAgrees(scenarios[x], source)
    {
      var s := scenarios[n];
      assert scenarios[..n + 1] == scenarios[..n] + [s];
      if HasId(s) {
        bundled := bundled + {s.id.value};
        if !KindAgrees(s, source) { findings := findings + [KindMismatch(s.id.value)]; }
      }
      n := n + 1;
    }
    assert scenarios[..|scenarios|] == scenarios;
    ghost var sofar := findings;
    n := 0;
    while n < |source|
      invariant 0 <= n <= |source|
      invariant findings == [] <==>
                sofar == [] && forall x | 0 <= x < n && Wanted(kind, source[x]) :: source[x].id in bundled
    {
      if Wanted(kind, source[n]) && source[n].id !in bundled {
        findings := findings + [NotCovered(source[n].id)];
      }
      n := n + 1;
    }
  }

  /** A scenario without a fault of its own: an object with an id, status pass, and nothing else found. */
  predicate ScenarioFine(s: Scenario) { HasId(s) && s.status == Some("pass") && s.others == 0 }

  /** verify_proof for driver canary; `others` is what the driver cross-check found. */
  method VerifyProof(scenarios: seq<Scenario>, steps: Option<seq<Step>>, others: nat,
                     source: Option<seq<Source>>, kind: string)
    returns (ok: bool, findings: seq<Finding>)
    ensures ok <==> findings == []
    ensures ok <==>
      && scenarios != [] && others == 0
      && (forall s | s in scenarios :: ScenarioFine(s))
      && steps.Some? && Bijective(scenarios, steps.value)
      && (source.Some? ==> Covered(scenarios, source.value, kind))
  {
    if scenarios == [] { return false, [ScenarioFault]; }
    findings := [];
    var n := 0;
    while n < |scenarios|
      invariant 0 <= n <= |scenarios|
      invariant findings == [] <==> forall x | 0 <= x < n :: ScenarioFine(scenarios[x])
    {
      if !ScenarioFine(scenarios[n]) { findings := findings + [ScenarioFault]; }
      n := n + 1;
    }
    var cross := CrossCheckCanary(scenarios, steps);
    findings := findings + cross;
    if others > 0 { findings := findings + [SessionFault]; }
    if source.Some? {
      var coverage := CheckCoverage(scenarios, source.value, kind);
      findings := findings + coverage;
    }
    ok := findings == [];
  }

  // ---------------------------------------------------------------- consequences of a verified proof

  /**
   Main result.  When a proof verifies, every source scenario of the requested kind is bundled once, and
   exactly one recorded step binds to it; that step passes and the bundled scenario passes.
   */
  lemma ExactlyOnePassingStep(scenarios: seq<Scenario>, steps: seq<Step>, source: seq<Source>, kind: string, w: Source)
    returns (i: nat, k: nat)
    requires Bijective(scenarios, steps) && Covered(scenarios, source, kind)
    requires w in source && Wanted(kind, w)
    ensures i < |steps| && k < |scenarios| && HasId(scenarios[k])
    ensures scenarios[k].id == Some(w.id) && scenarios[k].status == Some("pass")
    ensures Binds(steps[i], Ids(scenarios)) == Some(w.id) && Passes(steps[i].status)
    ensures forall x | 0 <= x < |steps| && x != i :: Binds(steps[x], Ids(scenarios)) != Some(w.id)
    ensures forall x | 0 <= x < |scenarios| && x != k && HasId(scenarios[x]) :: scenarios[x].id != Some(w.id)
  {
    assert w.id in Ids(scenarios);
    assert BoundBy(scenarios, steps, |steps|, w.id);
    var j :| 0 <= j < |steps| && Binds(steps[j], Ids(scenarios)) == Some(w.id);
    i := j;
    assert StepFine(scenarios, steps, i);
    var s := ById(scenarios, w.id);
    var m :| 0 <= m < |scenarios| && scenarios[m] == s;
    k := m;
    forall x | 0 <= x < |steps| && x != i ensures Binds(steps[x], Ids(scenarios)) != Some(w.id) {
      assert StepFine(scenarios, steps, x);
    }
  }

  /** With an id on every scenario there are exactly as many steps as scenarios. */
  lemma AsManyStepsAsScenarios(scenarios: seq<Scenario>, steps: seq<Step>)
    requires Bijective(scenarios, steps) && forall s | s in scenarios :: HasId(s)
    ensures |steps| == |scenarios|
  {
    var ids := Ids(scenarios);
    var named := seq(|scenarios|, k requires 0 <= k < |scenarios| =>
      (assert scenarios[k] in scenarios; scenarios[k].id.value));
    var bound := seq(|steps|, i requires 0 <= i < |steps| =>
      (assert StepFine(scenarios, steps, i); Binds(steps[i], ids).value));
    assert forall x, y | 0 <= x < y < |named| :: named[x] != named[y] by {
      forall x, y | 0 <= x < y < |named| ensures named[x] != named[y] {
        assert scenarios[x] in scenarios && scenarios[y] in scenarios;
      }
    }
    assert forall x, y | 0 <= x < y < |bound| :: bound[x] != bound[y] by {
      forall x, y | 0 <= x < y < |bound| ensures bound[x] != bound[y] {
        assert StepFine(scenarios, steps, x) && StepFine(scenarios, steps, y);
      }
    }
    DistinctCount(named);
    DistinctCount(bound);
    assert (set x | x in named) == ids by {
      forall id ensures id in (set x | x in named) <==> id in ids {
        if id in ids {
          var s := ById(scenarios, id);
          var k :| 0 <= k < |scenarios| && scenarios[k] == s;
          assert named[k] == id;
        }
        if id in named { var k :| 0 <= k < |named| && named[k] == id; assert scenarios[k] in scenarios; }
      }
    }
    assert (set x | x in bound) == ids by {
      forall id ensures id in (set x | x in bound) <==> id in ids {
        if id in ids {
          assert BoundBy(scenarios, steps, |steps|, id);
          var i :| 0 <= i < |steps| && Binds(steps[i], ids) == Some(id);
          assert bound[i] == id;
        }
        if id in bound { var i :| 0 <= i < |bound| && bound[i] == id; assert StepFine(scenarios, steps, i); }
      }
    }
  }

  lemma {:induction false} DistinctCount<T>(s: seq<T>)
    requires forall x, y | 0 <= x < y < |s| :: s[x] != s[y]
    ensures |set x | x in s| == |s|
  {
    if s != [] {
      var n := |s| - 1;
      DistinctCount(s[..n]);
      assert s == s[..n] + [s[n]];
      assert (set x | x in s) == (set x | x in s[..n]) + {s[n]};
    }
  }
}
