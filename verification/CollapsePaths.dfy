/** Collapsing a set of paths to the ones that are not beneath another: which snapshots are needed. */
module CollapsePaths {

  type Path = seq<string>

  /** `a` is `b` itself or one of its ancestors. */
  predicate Over(a: Path, b: Path) { |a| <= |b| && b[..|a|] == a }

  predicate Above(a: Path, b: Path) { a != b && Over(a, b) }

  predicate Antichain(s: set<Path>) { forall a, b | a in s && b in s :: !Above(a, b) }

  predicate Covered(s: set<Path>, p: Path) { exists a | a in s :: Over(a, p) }

  predicate Covers(s: set<Path>, all: set<Path>) { forall p | p in all :: Covered(s, p) }

  /** The paths of `all` that have no strict ancestor in `all`. */
  predicate Minimal(p: Path, all: set<Path>) { p in all && forall a | a in all :: !Above(a, p) }

  /** An antichain inside the input that covers it is exactly the set of minimal paths: there is only one. */
  lemma CollapseIsUnique(s: set<Path>, all: set<Path>)
    requires s <= all && Antichain(s) && Covers(s, all)
    ensures forall p :: p in s <==> Minimal(p, all)
  {
  }

  /** The result does not depend on the order of equally long paths, nor on how the set was discovered. */
  lemma TwoCollapsesAgree(s: set<Path>, t: set<Path>, all: set<Path>)
    requires s <= all && Antichain(s) && Covers(s, all)
    requires t <= all && Antichain(t) && Covers(t, all)
    ensures s == t
  {
    CollapseIsUnique(s, all);
    CollapseIsUnique(t, all);
  }

  /** One of the candidate's parents was kept. */
  predicate Protected(candidate: Path, collapsed: set<Path>) {
    exists k | 0 <= k < |candidate| :: candidate[..k] in collapsed
  }

  lemma ProtectedExactly(candidate: Path, collapsed: set<Path>)
    ensures Protected(candidate, collapsed) <==> exists a | a in collapsed :: Above(a, candidate)
  {
  }

  lemma KeepStep(collapsed: set<Path>, done: set<Path>, c: Path)
    requires Antichain(collapsed) && Covers(collapsed, done)
    requires forall a | a in collapsed :: !Above(a, c) && |a| <= |c|
    ensures Antichain(collapsed + {c}) && Covers(collapsed + {c}, done + {c})
  {
  }

  /**
   The loop: paths in order of length, each kept unless one of its parents was kept.  The result is
   the antichain of the input that covers it.
   */
  method Collapse(paths: set<Path>) returns (collapsed: set<Path>)
    ensures collapsed <= paths && Antichain(collapsed) && Covers(collapsed, paths)
  {
    collapsed := {};
    var rest := paths;
    while rest != {}
      invariant rest <= paths && collapsed <= paths - rest
      invariant forall p, q | p in paths - rest && q in rest :: |p| <= |q|
      invariant Antichain(collapsed) && Covers(collapsed, paths - rest)
      decreases rest
    {
      ghost var shortest := Shortest(rest);
      var candidate :| candidate in rest && forall q | q in rest :: |candidate| <= |q|;
      ghost var done := paths - rest;
      rest := rest - {candidate};
      assert paths - rest == done + {candidate};
      ProtectedExactly(candidate, collapsed);
      if !Protected(candidate, collapsed) {
        KeepStep(collapsed, done, candidate);
        collapsed := collapsed + {candidate};
      }
    }
    assert paths - rest == paths;
  }

  lemma {:induction false} Shortest(s: set<Path>) returns (c: Path)
    requires s != {}
    ensures c in s && forall q | q in s :: |c| <= |q|
    decreases |s|
  {
    c :| c in s;
    var rest := s - {c};
    if rest != {} {
      var d := Shortest(rest);
      assert forall q | q in s :: q == c || q in rest;
      if |d| < |c| { c := d; }
    } else {
      assert forall q | q in s :: q == c || q in rest;
    }
  }
}
