/**
 What the production check says about the texts it is given: which spellings of an action name which
 surface, which manifest row speaks for a surface, and which grants count.  The statements are about the
 spelling, the manifest and the history, not about the functions that look them up.
 */
module ProdActions {
  import opened Common
  import opened ProdGate

  const VERBS: set<string> := {"deploy", "flip", "migrate"}

  /** What Python's `s[n:]` gives. */
  predicate IsTail(s: string, n: nat, tail: string) { if n <= |s| then tail == s[n..] else tail == "" }

  /** The canonical spelling, in any case: the surface is the rest of the action as typed. */
  predicate Canonical(u: Rules, action: string, verb: string, surface: string) {
    verb + ":prod-" <= u.fold(action) && IsTail(action, |verb| + 6, surface)
  }

  /** `rest` without its leading underscores. */
  predicate Stripped(rest: string, surface: string) {
    && |surface| <= |rest| && rest[|rest| - |surface|..] == surface
    && (forall i | 0 <= i < |rest| - |surface| :: rest[i] == '_')
    && (surface != "" ==> surface[0] != '_')
  }

  /** The target of an alias spelling: prod, prod_X, production, production-X and production_X, in any case. */
  ghost predicate AliasOf(u: Rules, target: string, surface: string) {
    var f := u.fold(target);
    || (f == "prod" && surface == "")
    || ("prod_" <= f && IsTail(target, 5, surface))
    || (f == "production" && surface == "")
    || (("production-" <= f || "production_" <= f)
        && exists rest :: IsTail(target, 11, rest) && Stripped(rest, surface))
  }

  ghost predicate Alias(u: Rules, action: string, verb: string, surface: string) {
    verb + ":" <= action && AliasOf(u, action[|verb| + 1..], surface)
  }

  /** The action is a production one and names this surface. */
  ghost predicate NamesProd(u: Rules, action: string, surface: string) {
    || (exists verb | verb in VERBS :: Canonical(u, action, verb, surface))
    || ((forall verb | verb in VERBS :: !(verb + ":prod-" <= u.fold(action)))
        && exists verb | verb in VERBS :: Alias(u, action, verb, surface))
  }

  /** The action is a production hotfix and names this surface, the empty one if it names none. */
  predicate NamesHotfix(u: Rules, action: string, surface: string) {
    var f := u.fold(action);
    || (("hotfix:prod-" <= f || "hotfix:prod_" <= f) && IsTail(action, 12, surface))
    || (("hotfix:production-" <= f || "hotfix:production_" <= f) && IsTail(action, 18, surface))
    || ((f == "hotfix:prod" || f == "hotfix:production") && surface == "")
  }

  lemma PrefixAt(p: string, s: string, i: nat)
    requires p <= s && i < |p|
    ensures i < |s| && s[i] == p[i]
  {
  }

  /** No text starts with two different verbs. */
  lemma VerbsApart(s: string)
    ensures !("deploy:" <= s && "flip:" <= s)
    ensures !("deploy:" <= s && "migrate:" <= s)
    ensures !("flip:" <= s && "migrate:" <= s)
  {
    assert "deploy:"[0] == 'd' && "flip:"[0] == 'f' && "migrate:"[0] == 'm';
  }

  lemma StripsNone(s: string, surface: string)
    requires s == "" || s[0] != '_'
    ensures Stripped(s, surface) <==> surface == s
  {
    assert s[0..] == s;
  }

  lemma StripsOne(s: string, surface: string)
    requires s != "" && s[0] == '_'
    ensures Stripped(s, surface) <==> Stripped(s[1..], surface)
  {
    var rest := s[1..];
    assert s[0..] == s;
    assert forall i | 0 <= i < |rest| :: rest[i] == s[i + 1];
    if |surface| <= |rest| { assert s[|s| - |surface|..] == rest[|rest| - |surface|..]; }
    if Stripped(rest, surface) {
      forall i | 0 <= i < |s| - |surface| ensures s[i] == '_' { if i > 0 { assert s[i] == rest[i - 1]; } }
    }
    if Stripped(s, surface) {
      assert |surface| < |s|;
      forall i | 0 <= i < |rest| - |surface| ensures rest[i] == '_' { assert s[i + 1] == '_'; }
    }
  }

  lemma {:induction false} StripsExactly(s: string, surface: string)
    ensures LStripUnderscore(s) == surface <==> Stripped(s, surface)
  {
    if s != "" && s[0] == '_' {
      StripsExactly(s[1..], surface);
      StripsOne(s, surface);
    } else {
      StripsNone(s, surface);
    }
  }

  lemma AliasExactly(u: Rules, target: string, surface: string)
    ensures AliasSurface(u, target) == Some(surface) <==> AliasOf(u, target, surface)
  {
    var f, rest := u.fold(target), Drop(target, 11);
    assert IsTail(target, 11, rest);
    StripsExactly(rest, surface);
    AliasesApart(f);
  }

  /** The alias prefixes exclude one another. */
  lemma AliasesApart(f: string)
    ensures "prod_" <= f ==> f != "prod" && f != "production" && !("production-" <= f) && !("production_" <= f)
    ensures "production-" <= f || "production_" <= f ==> f != "prod" && f != "production"
  {
    if "prod_" <= f { PrefixAt("prod_", f, 4); }
    if "production-" <= f { PrefixAt("production-", f, 4); }
    if "production_" <= f { PrefixAt("production_", f, 4); }
  }

  /** Main result on spellings: which actions are production ones, and for which surface. */
  lemma ProdSurfaceExactly(u: Rules, action: string, surface: string)
    ensures ProdSurface(u, action) == Some(surface) <==> NamesProd(u, action, surface)
  {
    if forall verb | verb in VERBS :: !(verb + ":prod-" <= u.fold(action)) {
      AliasedExactly(u, action, surface);
    } else {
      CanonicalExactly(u, action, surface);
    }
  }

  lemma VerbPrefixes(s: string)
    ensures "deploy" + ":prod-" == "deploy:prod-" && "flip" + ":prod-" == "flip:prod-"
    ensures "migrate" + ":prod-" == "migrate:prod-"
    ensures "deploy" + ":" == "deploy:" && "flip" + ":" == "flip:" && "migrate" + ":" == "migrate:"
    ensures "deploy:prod-" <= s ==> "deploy:" <= s
    ensures "flip:prod-" <= s ==> "flip:" <= s
    ensures "migrate:prod-" <= s ==> "migrate:" <= s
  {
    assert "deploy:prod-"[..7] == "deploy:" && "flip:prod-"[..5] == "flip:" && "migrate:prod-"[..8] == "migrate:";
  }

  lemma CanonicalExactly(u: Rules, action: string, surface: string)
    requires exists verb | verb in VERBS :: verb + ":prod-" <= u.fold(action)
    ensures ProdSurface(u, action) == Some(surface) <==> NamesProd(u, action, surface)
  {
    var f := u.fold(action);
    VerbPrefixes(f);
    VerbsApart(f);
    assert "deploy" in VERBS && "flip" in VERBS && "migrate" in VERBS;
  }

  lemma AliasedExactly(u: Rules, action: string, surface: string)
    requires forall verb | verb in VERBS :: !(verb + ":prod-" <= u.fold(action))
    ensures ProdSurface(u, action) == Some(surface) <==> NamesProd(u, action, surface)
  {
    VerbPrefixes(u.fold(action));
    VerbPrefixes(action);
    VerbsApart(action);
    assert "deploy" in VERBS && "flip" in VERBS && "migrate" in VERBS;
    if "deploy:" <= action { AliasExactly(u, action[7..], surface); }
    if "flip:" <= action { AliasExactly(u, action[5..], surface); }
    if "migrate:" <= action { AliasExactly(u, action[8..], surface); }
  }

  lemma HotfixExactly(u: Rules, action: string, surface: string)
    ensures HotfixSurface(u, action) == Some(surface) <==> NamesHotfix(u, action, surface)
  {
    var f := u.fold(action);
    if "hotfix:prod-" <= f { PrefixAt("hotfix:prod-", f, 11); }
    if "hotfix:prod_" <= f { PrefixAt("hotfix:prod_", f, 11); }
    if "hotfix:production-" <= f { PrefixAt("hotfix:production-", f, 11); }
    if "hotfix:production_" <= f { PrefixAt("hotfix:production_", f, 11); }
  }

  lemma VerbIsNoHotfix(u: Rules, action: string, verb: string)
    requires verb in VERBS && verb + ":prod-" <= u.fold(action)
    ensures forall s :: !NamesHotfix(u, action, s)
  {
    assert verb[0] != 'h' && (verb + ":prod-")[0] == verb[0];
  }

  // ---------------------------------------------------------------- manifest rows

  /** The first row whose folded key is the folded surface. */
  predicate SpeaksFor(u: Rules, m: Manifest, i: int, surface: string) {
    && 0 <= i < |m| && u.foldSurface(m[i].0) == u.foldSurface(surface)
    && forall j | 0 <= j < i :: u.foldSurface(m[j].0) != u.foldSurface(surface)
  }

  /** The first row whose key is the surface, letter by letter. */
  predicate SpelledRow(m: Manifest, i: int, surface: string) {
    0 <= i < |m| && m[i].0 == surface && forall j | 0 <= j < i :: m[j].0 != surface
  }

  lemma {:induction false} FoldedRowExactly(u: Rules, m: Manifest, surface: string, i: int)
    ensures SpeaksFor(u, m, i, surface) ==> FoldedRow(u, m, surface) == Some(m[i].1)
    ensures FoldedRow(u, m, surface).Some? ==> exists k :: SpeaksFor(u, m, k, surface)
  {
    if m != [] {
      FoldedRowExactly(u, m[1..], surface, i - 1);
      if SpeaksFor(u, m, i, surface) && i > 0 {
        assert m[1..][i - 1] == m[i];
        assert u.foldSurface(m[0].0) != u.foldSurface(surface);
        forall j | 0 <= j < i - 1 ensures u.foldSurface(m[1..][j].0) != u.foldSurface(surface) {
          assert m[1..][j] == m[j + 1];
        }
        assert SpeaksFor(u, m[1..], i - 1, surface);
      }
      if u.foldSurface(m[0].0) == u.foldSurface(surface) {
        assert SpeaksFor(u, m, 0, surface);
      } else if k :| SpeaksFor(u, m[1..], k, surface) {
        assert SpeaksFor(u, m, k + 1, surface) by {
          forall j | 0 <= j < k + 1 ensures u.foldSurface(m[j].0) != u.foldSurface(surface) {
            if j > 0 { assert m[j] == m[1..][j - 1]; }
          }
        }
      }
    }
  }

  lemma {:induction false} ExactRowExactly(m: Manifest, surface: string, i: int)
    ensures SpelledRow(m, i, surface) ==> ExactRow(m, surface) == Some(m[i].1)
    ensures ExactRow(m, surface).Some? ==> exists k :: SpelledRow(m, k, surface)
  {
    if m != [] {
      ExactRowExactly(m[1..], surface, i - 1);
      if SpelledRow(m, i, surface) && i > 0 {
        assert m[0].0 != surface;
        forall j | 0 <= j < i - 1 ensures m[1..][j].0 != surface { assert m[1..][j] == m[j + 1]; }
        assert SpelledRow(m[1..], i - 1, surface);
      }
      if m[0].0 == surface {
        assert SpelledRow(m, 0, surface);
      } else if k :| SpelledRow(m[1..], k, surface) {
        assert SpelledRow(m, k + 1, surface) by {
          forall j | 0 <= j < k + 1 ensures m[j].0 != surface { if j > 0 { assert m[j] == m[1..][j - 1]; } }
        }
      }
    }
  }

  /** In hard mode the surface needs a row; a row needs a staging counterpart other than "none". */
  ghost predicate ManifestAllows(u: Rules, q: Query, s: string) {
    q.manifest.Some? ==>
      var m := q.manifest.value;
      && (q.hard ==> exists i :: SpeaksFor(u, m, i, s))
      && (forall i | SpeaksFor(u, m, i, s) ::
            m[i].1.staging.Some? && u.foldSurface(m[i].1.staging.value) != "none")
  }

  /** A rollback command on the exactly spelled row was rehearsed in this run for this artifact. */
  ghost predicate RollbackRehearsed(u: Rules, h: seq<Event>, q: Query, s: string) {
    q.manifest.Some? ==>
      var m := q.manifest.value;
      forall i | SpelledRow(m, i, s) && m[i].1.rollback.Some? && !u.blank(m[i].1.rollback.value) ::
        exists k :: RehearsedAt(u, h, k, DryRun(q.run, s, m[i].1.rollback.value, 0, q.artifact))
  }

  lemma ManifestExactly(u: Rules, q: Query, s: string)
    ensures Registered(u, q.manifest, q.hard, s) && HasStaging(u, q.manifest, s) <==> ManifestAllows(u, q, s)
  {
    if q.manifest.Some? {
      var m := q.manifest.value;
      FoldedRowExactly(u, m, s, 0);
      forall i | SpeaksFor(u, m, i, s) ensures FoldedRow(u, m, s) == Some(m[i].1) { FoldedRowExactly(u, m, s, i); }
      if FoldedRow(u, m, s).Some? { var k :| SpeaksFor(u, m, k, s); }
    }
  }

  lemma RollbackExactly(u: Rules, h: seq<Event>, q: Query, s: string)
    ensures Rehearsed(u, h, q, s) <==> RollbackRehearsed(u, h, q, s)
  {
    if q.manifest.Some? {
      var m := q.manifest.value;
      ExactRowExactly(m, s, 0);
      forall i | SpelledRow(m, i, s) ensures ExactRow(m, s) == Some(m[i].1) { ExactRowExactly(m, s, i); }
      if ExactRow(m, s).Some? { var k :| SpelledRow(m, k, s); }
    }
  }

  // ---------------------------------------------------------------- grants

  /** The k-th event grants this very action to this run, on acceptable terms for all it grants. */
  predicate GrantedAt(u: Rules, h: seq<Event>, k: int, run: string, action: string) {
    && 0 <= k < |h| && h[k].GrantActions? && h[k].run == run && action in h[k].actions
    && 0.0 < h[k].ttl <= 168.0
    && forall a | a in h[k].actions ::
         && u.typed(a)
         && ("consolidate:" <= a ==> h[k].queueMinted && u.estateScope(a) && h[k].ttl <= 8.0)
  }

  /** The latest such grant has not expired. */
  ghost predicate GrantHolds(u: Rules, h: seq<Event>, run: string, action: string, now: real) {
    exists k :: && GrantedAt(u, h, k, run, action) && now < h[k].at + h[k].ttl * 3600.0
                && forall j | k < j :: !GrantedAt(u, h, j, run, action)
  }

  lemma GrantedEarlier(u: Rules, h: seq<Event>, k: int, run: string, action: string)
    requires h != []
    ensures GrantedAt(u, h[..|h| - 1], k, run, action) <==> GrantedAt(u, h, k, run, action) && k < |h| - 1
  {
  }

  lemma {:induction false} GrantExactly(u: Rules, h: seq<Event>, run: string, action: string, now: real)
    ensures (LatestGrant(u, h, run, action).Some? && now < LatestGrant(u, h, run, action).value)
            <==> GrantHolds(u, h, run, action, now)
  {
    if h != [] {
      var n := |h| - 1;
      var rest := h[..n];
      GrantExactly(u, rest, run, action, now);
      forall k ensures GrantedAt(u, rest, k, run, action) <==> GrantedAt(u, h, k, run, action) && k < n {
        GrantedEarlier(u, h, k, run, action);
      }
      if GrantedAt(u, h, n, run, action) {
        assert forall j | n < j :: !GrantedAt(u, h, j, run, action);
      } else {
        SameHolds(u, h, run, action, now);
      }
    }
  }

  lemma SameHolds(u: Rules, h: seq<Event>, run: string, action: string, now: real)
    requires h != [] && !GrantedAt(u, h, |h| - 1, run, action)
    ensures GrantHolds(u, h, run, action, now) <==> GrantHolds(u, h[..|h| - 1], run, action, now)
  {
    var rest := h[..|h| - 1];
    forall k ensures GrantedAt(u, rest, k, run, action) <==> GrantedAt(u, h, k, run, action) {
      GrantedEarlier(u, h, k, run, action);
    }
    if k :| && GrantedAt(u, h, k, run, action) && now < h[k].at + h[k].ttl * 3600.0
            && forall j | k < j :: !GrantedAt(u, h, j, run, action) {
      assert rest[k] == h[k];
    }
    if k :| && GrantedAt(u, rest, k, run, action) && now < rest[k].at + rest[k].ttl * 3600.0
            && forall j | k < j :: !GrantedAt(u, rest, j, run, action) {
      assert rest[k] == h[k];
    }
  }

  // ---------------------------------------------------------------- the whole check

  /** What the history must hold for a production action on this surface. */
  ghost predicate Permitted(u: Rules, h: seq<Event>, q: Query, s: string) {
    && q.artifact != "" && GrantHolds(u, h, q.run, q.action, q.now)
    && (exists k :: Staged(u, h, k, q, s)) && CanaryHistoryOk(u, h, q.artifact)
    && ReviewsClean(u, h, q.run) && MostlyUndegraded(u, h, q.run)
    && ManifestAllows(u, q, s) && RollbackRehearsed(u, h, q, s)
  }

  lemma {:induction false} PermittedExactly(u: Rules, h: seq<Event>, q: Query, s: string)
    ensures Authorised(u, After(u, h), q, s) <==> Permitted(u, h, q, s)
  {
    AuthorisedExactly(u, h, q, s);
    GrantExactly(u, h, q.run, q.action, q.now);
    ManifestExactly(u, q, s);
    RollbackExactly(u, h, q, s);
  }

  /** What the check answers, in terms of the spelling of the action and the history. */
  ghost predicate Verdict(u: Rules, h: seq<Event>, q: Query, bypass: bool, ok: bool) {
    && (forall s | NamesHotfix(u, q.action, s) :: ok <==> s != "" && bypass)
    && ((forall s :: !NamesHotfix(u, q.action, s)) ==>
          && (forall s | NamesProd(u, q.action, s) :: ok <==> Permitted(u, h, q, s))
          && ((forall s :: !NamesProd(u, q.action, s)) ==> (ok <==> GrantHolds(u, h, q.run, q.action, q.now))))
  }

  lemma {:induction false} CheckIsVerdict(u: Rules, h: seq<Event>, q: Query, bypass: bool, ok: bool)
    requires
      var hotfix, s := HotfixSurface(u, q.action), ProdSurface(u, q.action);
      ok == if hotfix.Some? then hotfix.value != "" && bypass
            else if s.None? then CheckGrant(After(u, h), q.run, q.action, q.now)
            else Authorised(u, After(u, h), q, s.value)
    ensures Verdict(u, h, q, bypass, ok)
  {
    forall s ensures HotfixSurface(u, q.action) == Some(s) <==> NamesHotfix(u, q.action, s) {
      HotfixExactly(u, q.action, s);
    }
    forall s ensures ProdSurface(u, q.action) == Some(s) <==> NamesProd(u, q.action, s) {
      ProdSurfaceExactly(u, q.action, s);
    }
    GrantRead(u, h, q);
    GrantExactly(u, h, q.run, q.action, q.now);
    if ProdSurface(u, q.action).Some? { PermittedExactly(u, h, q, ProdSurface(u, q.action).value); }
  }
}
