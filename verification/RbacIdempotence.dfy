/** When a second reconciliation changes nothing. */
module RbacIdempotence {
  import opened Common
  import opened Polaris
  import opened RbacPlan

  // ----- roles settle after one run -----

  lemma {:induction false} PrincipalsAreKnown(s: Server, saved: Credentials, defs: seq<PrincipalDef>,
                                              issue: nat -> Pair)
    ensures AfterPrincipals(s, saved, defs, issue).principals.Keys <= s.principals.Keys + Names(defs)
  {
    if defs != [] {
      var n := |defs| - 1;
      PrincipalsAreKnown(s, saved, defs[..n], issue);
      assert defs[n].name in Names(defs);
      forall x | x in Names(defs[..n])
        ensures x in Names(defs)
      {
        var i :| 0 <= i < n && defs[..n][i].name == x;
        assert defs[i].name == x;
      }
    }
  }

  lemma NothingGone(c: Config, s: Server)
    requires GonePrincipals(c, s) == {} && GonePrincipalRoles(c, s) == {} && GoneCatalogRoles(c, s) == {}
    ensures Purged(c, s) == s
  {
    assert s.principals - {} == s.principals;
    assert s.principalRoles - {} == s.principalRoles;
    assert s.catalogRoles - {} == s.catalogRoles;
    forall p | p in s.principals
      ensures s.principals[p].(roles := s.principals[p].roles - {}) == s.principals[p]
    {
      assert s.principals[p].roles - {} == s.principals[p].roles;
    }
    forall r | r in s.principalRoles
      ensures s.principalRoles[r] - {} == s.principalRoles[r]
    {
    }
    assert DeletePrincipals(s, {}) == s;
    assert DeletePrincipalRoles(s, {}) == s;
    assert DeleteCatalogRoles(s, {}) == s;
  }

  lemma PurgedIsClean(c: Config, s: Server)
    ensures c.purgePrincipals ==> Purged(c, s).principals.Keys <= SYSTEM_PRINCIPALS + Names(c.principals)
    ensures c.purgeRoles ==> Purged(c, s).principalRoles.Keys <= SYSTEM_PRINCIPAL_ROLES + c.principalRoles.Keys
    ensures c.purgeRoles ==> Purged(c, s).catalogRoles.Keys <= SYSTEM_CATALOG_ROLES + c.catalogRoles.Keys
  {
  }

  lemma CatalogRolesSettle(c: Config, s: Server, t: Server)
    requires forall n :: n in c.catalogRoles ==>
               n in t.catalogRoles && t.catalogRoles[n] == GrantsAfter(c.prune, GrantsOf(s, n), c.catalogRoles[n])
    ensures WithCatalogRoles(c, t, c.catalogRoles.Keys) == t
  {
    forall n | n in c.catalogRoles
      ensures GrantsAfter(c.prune, t.catalogRoles[n], c.catalogRoles[n]) == t.catalogRoles[n]
    {
      GrantsAreStable(c.prune, GrantsOf(s, n), c.catalogRoles[n]);
    }
    assert WithCatalogRoles(c, t, c.catalogRoles.Keys).catalogRoles == t.catalogRoles;
  }

  lemma PrincipalRolesSettle(c: Config, s: Server, t: Server)
    requires s.catalogRoles.Keys == t.catalogRoles.Keys
    requires forall n :: n in c.principalRoles ==>
               n in t.principalRoles && t.principalRoles[n] == c.principalRoles[n] * (BoundTo(s, n) + s.catalogRoles.Keys)
    ensures WithPrincipalRoles(c, t, c.principalRoles.Keys) == t
  {
    forall n | n in c.principalRoles
      ensures c.principalRoles[n] * (BoundTo(t, n) + t.catalogRoles.Keys) == t.principalRoles[n]
    {
    }
    assert WithPrincipalRoles(c, t, c.principalRoles.Keys).principalRoles == t.principalRoles;
  }

  /** After one run, purging, granting and binding have nothing left to do. */
  lemma RolesSettle(c: Config, s: Server, saved: Credentials, issue: nat -> Pair)
    ensures var once := Reconciled(c, s, saved, issue);
            RolesDone(c, once) == once
  {
    var s1 := Purged(c, s);
    var s2 := WithCatalogRoles(c, s1, c.catalogRoles.Keys);
    var s3 := WithPrincipalRoles(c, s2, c.principalRoles.Keys);
    var once := Reconciled(c, s, saved, issue);
    RolesStay(s3, saved, c.principals, issue);
    PrincipalsAreKnown(s3, saved, c.principals, issue);
    PurgedIsClean(c, s);
    NothingGone(c, once);
    CatalogRolesSettle(c, s1, once);
    PrincipalRolesSettle(c, s2, once);
  }

  // ----- credentials -----

  predicate Both(d: PrincipalDef) {
    d.idVar != "" && d.secretVar != ""
  }

  predicate Uses(d: PrincipalDef, variable: string) {
    variable != "" && (d.idVar == variable || d.secretVar == variable)
  }

  /** No variable is used twice, be it by two principals or by one for both of its values. */
  ghost predicate DistinctVariables(defs: seq<PrincipalDef>) {
    (forall i :: 0 <= i < |defs| && Both(defs[i]) ==> defs[i].idVar != defs[i].secretVar) &&
    (forall i, j, v: string :: 0 <= i < j < |defs| && Uses(defs[i], v) ==> !Uses(defs[j], v))
  }

  ghost predicate Proper(issue: nat -> Pair) {
    forall n: nat :: issue(n).id != "" && issue(n).secret != ""
  }

  /** A saved pair that works belongs to the principal it is saved for. */
  predicate Owns(s: Server, saved: Credentials, d: PrincipalDef) {
    forall p :: p in s.principals && HasSaved(saved, d, s.principals[p].pair) ==>
      d.name in s.principals && s.principals[d.name].pair == s.principals[p].pair
  }

  /** New credentials repeat no saved ones. */
  ghost predicate FreshPairs(saved: Credentials, defs: seq<PrincipalDef>, issue: nat -> Pair, from: nat) {
    forall i, n: nat :: 0 <= i < |defs| && n >= from && SavedPair(saved, defs[i]).Some? ==>
      issue(n) != SavedPair(saved, defs[i]).value
  }

  /** What a caller can check of a server before a run. */
  ghost predicate Orderly(s: Server, saved: Credentials, defs: seq<PrincipalDef>, issue: nat -> Pair) {
    Distinct(defs) && DistinctVariables(defs) && Proper(issue) && FreshPairs(saved, defs, issue, s.issued) &&
    forall i :: 0 <= i < |defs| ==> Owns(s, saved, defs[i])
  }

  /** A pair held at some turn was held before the run or issued during it. */
  lemma {:induction false} PairsComeFrom(s: Server, saved: Credentials, defs: seq<PrincipalDef>, issue: nat -> Pair,
                                         p: string)
    requires p in AfterPrincipals(s, saved, defs, issue).principals
    ensures var pair := AfterPrincipals(s, saved, defs, issue).principals[p].pair;
            (p in s.principals && s.principals[p].pair == pair) || exists n: nat :: n >= s.issued && issue(n) == pair
  {
    if defs != [] {
      var n := |defs| - 1;
      var before := AfterPrincipals(s, saved, defs[..n], issue);
      RolesStay(s, saved, defs[..n], issue);
      var after := OnePrincipal(before, saved, defs[n], issue);
      if p in before.principals && after.principals[p].pair == before.principals[p].pair {
        PairsComeFrom(s, saved, defs[..n], issue, p);
      } else {
        assert after.principals[p].pair == issue(before.issued);
      }
    }
  }

  lemma OwnsAtTurn(s: Server, saved: Credentials, defs: seq<PrincipalDef>, issue: nat -> Pair, i: nat)
    requires Orderly(s, saved, defs, issue) && i < |defs|
    ensures Owns(Turn(s, saved, defs, issue, i), saved, defs[i])
  {
    var d := defs[i];
    var turn := Turn(s, saved, defs, issue, i);
    if Reuses(turn, saved, d) {
      var pair := SavedPair(saved, d).value;
      var p :| p in turn.principals && turn.principals[p].pair == pair;
      PairsComeFrom(s, saved, defs[..i], issue, p);
      assert p in s.principals && s.principals[p].pair == pair;
      assert HasSaved(saved, d, s.principals[p].pair);
      forall k | 0 <= k < i
        ensures defs[..i][k].name != d.name
      {
      }
      OthersStay(s, saved, defs[..i], issue, d.name);
    }
  }

  /** The pair a principal has after its turn. */
  function PairAt(s: Server, saved: Credentials, defs: seq<PrincipalDef>, issue: nat -> Pair, i: nat): Pair
    requires i < |defs|
  {
    var turn := Turn(s, saved, defs, issue, i);
    if Reuses(turn, saved, defs[i]) then SavedPair(saved, defs[i]).value else issue(turn.issued)
  }

  lemma HoldsItsPair(s: Server, saved: Credentials, defs: seq<PrincipalDef>, issue: nat -> Pair, i: nat)
    requires Orderly(s, saved, defs, issue) && i < |defs|
    ensures var after := AfterPrincipals(s, saved, defs, issue);
            defs[i].name in after.principals &&
            after.principals[defs[i].name].pair == PairAt(s, saved, defs, issue, i)
  {
    OwnsAtTurn(s, saved, defs, issue, i);
    LaterTurnsKeep(s, saved, defs, issue, i);
  }

  /** Both values of a pair are in the output. */
  predicate Holds(out: Credentials, d: PrincipalDef, pair: Pair) {
    d.idVar in out && d.secretVar in out && out[d.idVar] == pair.id && out[d.secretVar] == pair.secret
  }

  lemma OtherExportsKeep(s: Server, saved: Credentials, out: Credentials, other: PrincipalDef, issue: nat -> Pair,
                         d: PrincipalDef, pair: Pair)
    requires Both(d) && Holds(out, d, pair) && !Uses(other, d.idVar) && !Uses(other, d.secretVar)
    ensures Holds(Exported(s, saved, out, other, issue), d, pair)
  {
  }

  lemma OwnExport(s: Server, saved: Credentials, out: Credentials, d: PrincipalDef, issue: nat -> Pair)
    requires Both(d) && d.idVar != d.secretVar && Proper(issue)
    ensures var pair := if Reuses(s, saved, d) then SavedPair(saved, d).value else issue(s.issued);
            pair.id != "" && pair.secret != "" && Holds(Exported(s, saved, out, d, issue), d, pair)
  {
  }

  lemma {:induction false} ExportsItsPair(s: Server, saved: Credentials, defs: seq<PrincipalDef>, issue: nat -> Pair,
                                          i: nat)
    requires i < |defs| && Both(defs[i]) && Proper(issue) && DistinctVariables(defs)
    ensures var pair := PairAt(s, saved, defs, issue, i);
            pair.id != "" && pair.secret != "" && Holds(AfterExports(s, saved, defs, issue), defs[i], pair)
  {
    var n := |defs| - 1;
    if i < n {
      PrefixIsDistinct(defs, n);
      ExportsItsPair(s, saved, defs[..n], issue, i);
      SamePairAt(s, saved, defs, issue, i, n);
      LaterDoesNotUse(defs, i, n);
      OtherExportsKeep(AfterPrincipals(s, saved, defs[..n], issue), saved, AfterExports(s, saved, defs[..n], issue),
                       defs[n], issue, defs[i], PairAt(s, saved, defs, issue, i));
    } else {
      OwnExport(AfterPrincipals(s, saved, defs[..n], issue), saved, AfterExports(s, saved, defs[..n], issue), defs[n],
                issue);
    }
  }

  lemma SamePairAt(s: Server, saved: Credentials, defs: seq<PrincipalDef>, issue: nat -> Pair, i: nat, n: nat)
    requires i < n <= |defs|
    ensures PairAt(s, saved, defs[..n], issue, i) == PairAt(s, saved, defs, issue, i)
  {
    assert defs[..n][..i] == defs[..i];
  }

  lemma PrefixIsDistinct(defs: seq<PrincipalDef>, n: nat)
    requires DistinctVariables(defs) && n <= |defs|
    ensures DistinctVariables(defs[..n])
  {
    assert forall k :: 0 <= k < n ==> defs[..n][k] == defs[k];
  }

  lemma LaterDoesNotUse(defs: seq<PrincipalDef>, i: nat, j: nat)
    requires DistinctVariables(defs) && i < j < |defs| && Both(defs[i])
    ensures !Uses(defs[j], defs[i].idVar) && !Uses(defs[j], defs[i].secretVar)
  {
    assert Uses(defs[i], defs[i].idVar) && Uses(defs[i], defs[i].secretVar);
  }

  /** The state file after a run holds every principal's own, working pair. */
  lemma FilePairWorks(s: Server, saved: Credentials, defs: seq<PrincipalDef>, issue: nat -> Pair, file: Credentials,
                      i: nat)
    requires Orderly(s, saved, defs, issue) && i < |defs| && Both(defs[i])
    requires var out := AfterExports(s, saved, defs, issue);
             forall k :: k in ManagedKeys(defs) && k in out ==> k in file && file[k] == out[k]
    ensures Reuses(AfterPrincipals(s, saved, defs, issue), file, defs[i])
    ensures SavedPair(file, defs[i]) == Some(PairAt(s, saved, defs, issue, i))
  {
    ExportsItsPair(s, saved, defs, issue, i);
    HoldsItsPair(s, saved, defs, issue, i);
    assert defs[i].idVar in ManagedKeys(defs) && defs[i].secretVar in ManagedKeys(defs);
    assert AfterPrincipals(s, saved, defs, issue).principals[defs[i].name].pair == PairAt(s, saved, defs, issue, i);
  }

  lemma ExportAdds(s: Server, saved: Credentials, out: Credentials, d: PrincipalDef, issue: nat -> Pair, k: string)
    requires Proper(issue) && (k in out || Uses(d, k))
    ensures k in Exported(s, saved, out, d, issue)
  {
  }

  lemma {:induction false} ExportsVariable(s: Server, saved: Credentials, defs: seq<PrincipalDef>,
                                           issue: nat -> Pair, i: nat, k: string)
    requires Proper(issue) && i < |defs| && Uses(defs[i], k)
    ensures k in AfterExports(s, saved, defs, issue)
  {
    var n := |defs| - 1;
    if i < n {
      ExportsVariable(s, saved, defs[..n], issue, i, k);
    }
    ExportAdds(AfterPrincipals(s, saved, defs[..n], issue), saved, AfterExports(s, saved, defs[..n], issue), defs[n],
               issue, k);
  }

  /** No managed variable is missing when the state file is written, so its check never fails. */
  lemma ExportsAreComplete(s: Server, saved: Credentials, defs: seq<PrincipalDef>, issue: nat -> Pair, k: string)
    requires Proper(issue) && k in ManagedKeys(defs)
    ensures k in AfterExports(s, saved, defs, issue)
  {
    var i :| 0 <= i < |defs| && Uses(defs[i], k);
    ExportsVariable(s, saved, defs, issue, i, k);
  }

  // ----- the second run -----

  predicate Assigned(s: Server, d: PrincipalDef) {
    d.name in s.principals ==>
      s.principals[d.name].roles <= d.roles && d.roles * s.principalRoles.Keys <= s.principals[d.name].roles
  }

  lemma AssignedAfter(s: Server, saved: Credentials, defs: seq<PrincipalDef>, issue: nat -> Pair, i: nat)
    requires Distinct(defs) && i < |defs|
    ensures Assigned(AfterPrincipals(s, saved, defs, issue), defs[i])
  {
    LaterTurnsKeep(s, saved, defs, issue, i);
    RolesStay(s, saved, defs, issue);
    RolesStay(s, saved, defs[..i], issue);
  }

  lemma SettledPrincipal(s: Server, file: Credentials, d: PrincipalDef, issue: nat -> Pair)
    requires Reuses(s, file, d) && Assigned(s, d)
    ensures OnePrincipal(s, file, d, issue) == s
  {
    if d.name in s.principals {
      var roles := s.principals[d.name].roles;
      assert d.roles * (roles + s.principalRoles.Keys) == roles;
      assert s.principals[d.name := s.principals[d.name].(roles := roles)] == s.principals;
    }
  }

  lemma {:induction false} AllSettled(s: Server, file: Credentials, defs: seq<PrincipalDef>, issue: nat -> Pair)
    requires forall i :: 0 <= i < |defs| ==> Reuses(s, file, defs[i]) && Assigned(s, defs[i])
    ensures AfterPrincipals(s, file, defs, issue) == s
  {
    if defs != [] {
      var n := |defs| - 1;
      AllSettled(s, file, defs[..n], issue);
      SettledPrincipal(s, file, defs[n], issue);
    }
  }

  lemma {:induction false} ExportsSettle(s: Server, file: Credentials, defs: seq<PrincipalDef>, issue: nat -> Pair)
    requires forall i :: 0 <= i < |defs| ==> Reuses(s, file, defs[i]) && Assigned(s, defs[i])
    ensures AfterExports(s, file, defs, issue) == file
  {
    if defs != [] {
      var n := |defs| - 1;
      ExportsSettle(s, file, defs[..n], issue);
      AllSettled(s, file, defs[..n], issue);
    }
  }

  /** A principal without both variables cannot be recognised: it gets new credentials in every run. */
  lemma {:induction false} RotatesWithoutVariables(s: Server, file: Credentials, defs: seq<PrincipalDef>,
                                                   issue: nat -> Pair, i: nat)
    requires i < |defs| && !Both(defs[i])
    ensures AfterPrincipals(s, file, defs, issue).issued > s.issued
  {
    var n := |defs| - 1;
    if i < n {
      RotatesWithoutVariables(s, file, defs[..n], issue, i);
    } else {
      RolesStay(s, file, defs[..n], issue);
    }
  }

  lemma SettlesWithVariables(c: Config, s: Server, saved: Credentials, issue: nat -> Pair)
    requires Orderly(RolesDone(c, s), saved, c.principals, issue)
    requires forall i :: 0 <= i < |c.principals| ==> Both(c.principals[i])
    ensures var once := Reconciled(c, s, saved, issue);
            var file := SavedFile(c, s, saved, issue);
            AfterPrincipals(once, file, c.principals, issue) == once &&
            AfterExports(once, file, c.principals, issue) == file
  {
    var once := Reconciled(c, s, saved, issue);
    var file := SavedFile(c, s, saved, issue);
    forall i | 0 <= i < |c.principals|
      ensures Reuses(once, file, c.principals[i]) && Assigned(once, c.principals[i])
    {
      FilePairWorks(RolesDone(c, s), saved, c.principals, issue, file, i);
      AssignedAfter(RolesDone(c, s), saved, c.principals, issue, i);
    }
    AllSettled(once, file, c.principals, issue);
    ExportsSettle(once, file, c.principals, issue);
  }

  lemma SameFile(c: Config, s: Server, saved: Credentials, issue: nat -> Pair)
    ensures var file := SavedFile(c, s, saved, issue);
            (map k | k in ManagedKeys(c.principals) && k in file :: file[k]) == file
  {
  }

  /** Idempotence: a second run leaves every role, grant, binding and credential alone if and only if every managed
      principal exports both its variables. */
  lemma SecondRunChangesNothingIff(c: Config, s: Server, saved: Credentials, issue: nat -> Pair)
    requires Orderly(RolesDone(c, s), saved, c.principals, issue)
    ensures var once := Reconciled(c, s, saved, issue);
            var file := SavedFile(c, s, saved, issue);
            (Reconciled(c, once, file, issue) == once <==>
               forall i :: 0 <= i < |c.principals| ==> Both(c.principals[i])) &&
            (Reconciled(c, once, file, issue) == once ==> SavedFile(c, once, file, issue) == file)
  {
    var once := Reconciled(c, s, saved, issue);
    var file := SavedFile(c, s, saved, issue);
    RolesSettle(c, s, saved, issue);
    SameFile(c, s, saved, issue);
    if i :| 0 <= i < |c.principals| && !Both(c.principals[i]) {
      RotatesWithoutVariables(once, file, c.principals, issue, i);
    } else {
      SettlesWithVariables(c, s, saved, issue);
    }
  }

  /** An orderly run leaves every managed principal in place with exactly the pair its export holds. */
  lemma OrderlyRunConverges(c: Config, s: Server, saved: Credentials, issue: nat -> Pair, i: nat)
    requires Orderly(RolesDone(c, s), saved, c.principals, issue) && i < |c.principals|
    ensures var d := c.principals[i];
            var once := Reconciled(c, s, saved, issue);
            var file := SavedFile(c, s, saved, issue);
            d.name in once.principals && Assigned(once, d) &&
            (Both(d) ==> SavedPair(file, d) == Some(once.principals[d.name].pair))
  {
    var d := c.principals[i];
    var file := SavedFile(c, s, saved, issue);
    HoldsItsPair(RolesDone(c, s), saved, c.principals, issue, i);
    AssignedAfter(RolesDone(c, s), saved, c.principals, issue, i);
    if Both(d) {
      FilePairWorks(RolesDone(c, s), saved, c.principals, issue, file, i);
    }
  }

  // ----- convergence of a whole run -----

  /** Every role that the configuration binds or assigns is also declared there. */
  predicate Declared(c: Config) {
    (forall r :: r in c.principalRoles ==> c.principalRoles[r] <= c.catalogRoles.Keys) &&
    (forall i :: 0 <= i < |c.principals| ==> c.principals[i].roles <= c.principalRoles.Keys)
  }

  predicate GrantsConverged(c: Config, s: Server, role: string)
    requires role in c.catalogRoles
  {
    role in s.catalogRoles && Targets(c.catalogRoles[role]) <= Privileges(s.catalogRoles[role]) &&
    (c.prune ==>
       forall g :: g in s.catalogRoles[role] && Prunable(g) ==> g.privilege in Targets(c.catalogRoles[role]))
  }

  /** A top-level privilege granted on the catalog. */
  predicate Prunable(g: Grant) {
    g.kind == CATALOG && g.privilege in TOP_LEVEL_PRIVILEGES && g.privilege != ""
  }

  lemma GrantsConverge(c: Config, s: Server, saved: Credentials, issue: nat -> Pair, role: string)
    requires role in c.catalogRoles
    ensures GrantsConverged(c, Reconciled(c, s, saved, issue), role)
  {
    var existing, configured := GrantsOf(Purged(c, s), role), c.catalogRoles[role];
    RolesStay(RolesDone(c, s), saved, c.principals, issue);
    WholeCatalogRoles(c, Purged(c, s), role);
    forall p | p in Targets(configured)
      ensures p in Privileges(GrantsAfter(c.prune, existing, configured))
    {
      var i :| 0 <= i < |configured| && configured[i].privilege != "" && configured[i].privilege == p;
      TargetIsHeld(c.prune, existing, configured, i);
    }
    forall g | c.prune && g in GrantsAfter(c.prune, existing, configured) && Prunable(g)
      ensures g.privilege in Targets(configured)
    {
      PrunedGrantsAreConfigured(existing, configured, g);
    }
  }

  lemma HeldRolesExist(c: Config, s: Server, name: string)
    requires Sound(s)
    ensures RolesHeld(RolesDone(c, s), name) <= RolesDone(c, s).principalRoles.Keys
  {
    PurgeKeepsSound(c, s);
  }

  /** Convergence: with declared references and an orderly server, one run leaves every managed principal and
      principal role with exactly its configured roles, and every managed catalog role with the configured privileges
      (and, when pruning, no other top-level one on the catalog). */
  lemma OneRunConverges(c: Config, s: Server, saved: Credentials, issue: nat -> Pair)
    requires Sound(s) && Declared(c) && Orderly(RolesDone(c, s), saved, c.principals, issue)
    ensures var once := Reconciled(c, s, saved, issue);
            (forall r :: r in c.catalogRoles ==> GrantsConverged(c, once, r)) &&
            (forall r :: r in c.principalRoles ==> BoundTo(once, r) == c.principalRoles[r]) &&
            (forall i :: 0 <= i < |c.principals| ==>
               c.principals[i].name in once.principals &&
               once.principals[c.principals[i].name].roles == c.principals[i].roles)
  {
    var done, once := RolesDone(c, s), Reconciled(c, s, saved, issue);
    RolesStay(done, saved, c.principals, issue);
    forall r | r in c.catalogRoles
      ensures GrantsConverged(c, once, r)
    {
      GrantsConverge(c, s, saved, issue, r);
    }
    forall r | r in c.principalRoles
      ensures BoundTo(once, r) == c.principalRoles[r]
    {
      BindingsConvergeIff(c, s, r);
      assert c.principalRoles[r] <= done.catalogRoles.Keys;
    }
    forall i | 0 <= i < |c.principals|
      ensures c.principals[i].name in once.principals
      ensures once.principals[c.principals[i].name].roles == c.principals[i].roles
    {
      OrderlyRunConverges(c, s, saved, issue, i);
      HeldRolesExist(c, s, c.principals[i].name);
      PrincipalConvergesIff(done, saved, c.principals, issue, i);
      assert c.principals[i].roles <= done.principalRoles.Keys;
    }
  }

  /** Without ownership it can fail: a principal renamed in the configuration, whose saved pair is the old name's,
      is taken for valid and never created. */
  lemma RenamedPrincipalIsMissing(s: Server, saved: Credentials, d: PrincipalDef, issue: nat -> Pair, former: string)
    requires former in s.principals && former != d.name && d.name !in s.principals
    requires SavedPair(saved, d) == Some(s.principals[former].pair)
    ensures d.name !in AfterPrincipals(s, saved, [d], issue).principals
  {
    assert s.principals[former].pair == SavedPair(saved, d).value;
    assert [d][..0] == [];
    assert AfterPrincipals(s, saved, [d], issue) == OnePrincipal(s, saved, d, issue);
  }
}
