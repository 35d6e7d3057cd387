/** What one reconciliation makes of the server, as a function of the configuration, and what that means:
    convergence, framing, and when a second reconciliation changes nothing. */
module RbacPlan {
  import opened Common
  import opened Polaris

  const TOP_LEVEL_PRIVILEGES: set<string> := {
    "CATALOG_MANAGE_ACCESS", "CATALOG_MANAGE_CONTENT", "CATALOG_MANAGE_METADATA", "CATALOG_READ_PROPERTIES",
    "CATALOG_WRITE_PROPERTIES", "NAMESPACE_CREATE", "NAMESPACE_DROP", "NAMESPACE_LIST", "NAMESPACE_READ_PROPERTIES",
    "NAMESPACE_WRITE_PROPERTIES", "NAMESPACE_FULL_METADATA", "TABLE_CREATE", "TABLE_DROP", "TABLE_LIST",
    "TABLE_READ_PROPERTIES", "TABLE_READ_DATA", "TABLE_WRITE_DATA", "TABLE_WRITE_PROPERTIES", "TABLE_FULL_METADATA",
    "VIEW_CREATE", "VIEW_DROP", "VIEW_LIST", "VIEW_READ_PROPERTIES", "VIEW_WRITE_PROPERTIES", "VIEW_FULL_METADATA"
  }

  const CATALOG := "catalog"
  const SYSTEM_CATALOG_ROLES: set<string> := {"catalog_admin"}
  const SYSTEM_PRINCIPAL_ROLES: set<string> := {"service_admin"}
  const SYSTEM_PRINCIPALS: set<string> := {"root"}

  /** A principal and the variables its credentials are saved under; an empty name means none is configured. */
  datatype PrincipalDef = PrincipalDef(name: string, idVar: string, secretVar: string, roles: set<string>)

  /** The expanded configuration: the grants of a catalog role in order, without entries lacking a privilege. */
  datatype Config = Config(purgePrincipals: bool, purgeRoles: bool, prune: bool,
                           catalogRoles: map<string, seq<Grant>>, principalRoles: map<string, set<string>>,
                           principals: seq<PrincipalDef>)

  // ----- purge -----

  function Names(defs: seq<PrincipalDef>): set<string> {
    set i | 0 <= i < |defs| :: defs[i].name
  }

  /** What a purge deletes: everything but the managed and the system entities, if it is asked for. */
  function Gone(purge: bool, existing: set<string>, system: set<string>, managed: set<string>): set<string> {
    if purge then existing - system - managed else {}
  }

  function GonePrincipals(c: Config, s: Server): set<string> {
    Gone(c.purgePrincipals, s.principals.Keys, SYSTEM_PRINCIPALS, Names(c.principals))
  }

  function GonePrincipalRoles(c: Config, s: Server): set<string> {
    Gone(c.purgeRoles, s.principalRoles.Keys, SYSTEM_PRINCIPAL_ROLES, c.principalRoles.Keys)
  }

  function GoneCatalogRoles(c: Config, s: Server): set<string> {
    Gone(c.purgeRoles, s.catalogRoles.Keys, SYSTEM_CATALOG_ROLES, c.catalogRoles.Keys)
  }

  function Purged(c: Config, s: Server): Server {
    var s1 := DeletePrincipals(s, GonePrincipals(c, s));
    var s2 := DeletePrincipalRoles(s1, GonePrincipalRoles(c, s1));
    DeleteCatalogRoles(s2, GoneCatalogRoles(c, s2))
  }

  // ----- catalog roles -----

  function Privileges(grants: set<Grant>): set<string> {
    set g | g in grants && g.privilege != "" :: g.privilege
  }

  function Targets(configured: seq<Grant>): set<string> {
    set i | 0 <= i < |configured| && configured[i].privilege != "" :: configured[i].privilege
  }

  /** A configured grant is added if the role has no grant of that privilege yet, of whatever kind. */
  function Added(existing: set<Grant>, configured: seq<Grant>): set<Grant> {
    set i | 0 <= i < |configured| && configured[i].privilege != "" && configured[i].privilege !in Privileges(existing)
      :: configured[i]
  }

  /** Pruning revokes catalog-wide grants of top-level privileges that are not configured. */
  function Revoked(existing: set<Grant>, configured: seq<Grant>): set<Grant> {
    set p | p in Privileges(existing) * TOP_LEVEL_PRIVILEGES - Targets(configured) :: Grant(CATALOG, p)
  }

  function GrantsAfter(prune: bool, existing: set<Grant>, configured: seq<Grant>): set<Grant> {
    existing + Added(existing, configured) - if prune then Revoked(existing, configured) else {}
  }

  function GrantsOf(s: Server, role: string): set<Grant> {
    if role in s.catalogRoles then s.catalogRoles[role] else {}
  }

  function WithCatalogRoles(c: Config, s: Server, names: set<string>): Server
    requires names <= c.catalogRoles.Keys
  {
    s.(catalogRoles := map n | n in s.catalogRoles.Keys + names ::
         if n in names then GrantsAfter(c.prune, GrantsOf(s, n), c.catalogRoles[n]) else s.catalogRoles[n])
  }

  // ----- principal roles -----

  function BoundTo(s: Server, role: string): set<string> {
    if role in s.principalRoles then s.principalRoles[role] else {}
  }

  function WithPrincipalRoles(c: Config, s: Server, names: set<string>): Server
    requires names <= c.principalRoles.Keys
  {
    s.(principalRoles := map n | n in s.principalRoles.Keys + names ::
         if n in names then c.principalRoles[n] * (BoundTo(s, n) + s.catalogRoles.Keys) else s.principalRoles[n])
  }

  // ----- principals -----

  type Credentials = map<string, string>

  /** The saved pair, if both variables are configured and both values are there. */
  function SavedPair(saved: Credentials, d: PrincipalDef): Option<Pair> {
    if d.idVar != "" && d.secretVar != "" && d.idVar in saved && d.secretVar in saved &&
       saved[d.idVar] != "" && saved[d.secretVar] != ""
    then Some(Pair(saved[d.idVar], saved[d.secretVar]))
    else None
  }

  predicate Reuses(s: Server, saved: Credentials, d: PrincipalDef) {
    var pair := SavedPair(saved, d);
    pair.Some? && Authenticates(s, pair.value)
  }

  /** Both variables of the principal are configured, and the saved file has this pair under them. */
  predicate HasSaved(saved: Credentials, d: PrincipalDef, pair: Pair) {
    d.idVar != "" && d.secretVar != "" && d.idVar in saved && d.secretVar in saved &&
    saved[d.idVar] == pair.id && saved[d.secretVar] == pair.secret && pair.id != "" && pair.secret != ""
  }

  /** Some principal of the server holds the saved pair, so that a token can be obtained with it. */
  predicate Works(s: Server, saved: Credentials, d: PrincipalDef) {
    exists p :: p in s.principals && HasSaved(saved, d, s.principals[p].pair)
  }

  lemma ReusesIffWorks(s: Server, saved: Credentials, d: PrincipalDef)
    ensures Reuses(s, saved, d) <==> Works(s, saved, d)
    ensures Reuses(s, saved, d) ==> HasSaved(saved, d, SavedPair(saved, d).value)
    ensures forall pair :: HasSaved(saved, d, pair) ==> SavedPair(saved, d) == Some(pair)
  {
    if Reuses(s, saved, d) {
      var p :| p in s.principals && s.principals[p].pair == SavedPair(saved, d).value;
      assert HasSaved(saved, d, s.principals[p].pair);
    }
  }

  function WithCredentials(s: Server, saved: Credentials, d: PrincipalDef, issue: nat -> Pair): Server {
    if Reuses(s, saved, d) then s else Renew(s, d.name, issue)
  }

  function Put(out: Credentials, variable: string, value: string): Credentials {
    if variable != "" && value != "" then out[variable := value] else out
  }

  function Exported(s: Server, saved: Credentials, out: Credentials, d: PrincipalDef, issue: nat -> Pair): Credentials {
    var pair := if Reuses(s, saved, d) then SavedPair(saved, d).value else issue(s.issued);
    Put(Put(out, d.idVar, pair.id), d.secretVar, pair.secret)
  }

  /** An existing principal ends up with the configured roles that exist. */
  function WithAssignments(s: Server, d: PrincipalDef): Server {
    if d.name in s.principals then
      WithRoles(s, d.name, d.roles * (s.principals[d.name].roles + s.principalRoles.Keys))
    else s
  }

  function OnePrincipal(s: Server, saved: Credentials, d: PrincipalDef, issue: nat -> Pair): Server {
    WithAssignments(WithCredentials(s, saved, d, issue), d)
  }

  function AfterPrincipals(s: Server, saved: Credentials, defs: seq<PrincipalDef>, issue: nat -> Pair): Server {
    if defs == [] then s
    else
      var n := |defs| - 1;
      OnePrincipal(AfterPrincipals(s, saved, defs[..n], issue), saved, defs[n], issue)
  }

  function AfterExports(s: Server, saved: Credentials, defs: seq<PrincipalDef>, issue: nat -> Pair): Credentials {
    if defs == [] then saved
    else
      var n := |defs| - 1;
      Exported(AfterPrincipals(s, saved, defs[..n], issue), saved, AfterExports(s, saved, defs[..n], issue), defs[n],
               issue)
  }

  function ManagedKeys(defs: seq<PrincipalDef>): set<string> {
    (set i | 0 <= i < |defs| && defs[i].idVar != "" :: defs[i].idVar) +
    (set i | 0 <= i < |defs| && defs[i].secretVar != "" :: defs[i].secretVar)
  }

  // ----- a whole reconciliation -----

  function RolesDone(c: Config, s: Server): Server {
    var s1 := Purged(c, s);
    var s2 := WithCatalogRoles(c, s1, c.catalogRoles.Keys);
    WithPrincipalRoles(c, s2, c.principalRoles.Keys)
  }

  function Reconciled(c: Config, s: Server, saved: Credentials, issue: nat -> Pair): Server {
    AfterPrincipals(RolesDone(c, s), saved, c.principals, issue)
  }

  /** The state file afterwards: the managed variables only. */
  function SavedFile(c: Config, s: Server, saved: Credentials, issue: nat -> Pair): Credentials {
    var out := AfterExports(RolesDone(c, s), saved, c.principals, issue);
    map k | k in ManagedKeys(c.principals) && k in out :: out[k]
  }

  // ----- grants: convergence -----

  /** A configured grant is there afterwards exactly if it was there before or its privilege was not granted with
      another kind. */
  lemma ConfiguredGrantIsHeldIff(prune: bool, existing: set<Grant>, configured: seq<Grant>, i: nat)
    requires i < |configured| && configured[i].privilege != ""
    ensures configured[i] in GrantsAfter(prune, existing, configured) <==>
              configured[i] in existing || configured[i].privilege !in Privileges(existing)
  {
    var g := configured[i];
    assert g.privilege in Targets(configured);
    assert g !in Revoked(existing, configured);
    if g in Added(existing, configured) {
      assert g.privilege !in Privileges(existing);
    }
    if g.privilege !in Privileges(existing) {
      assert configured[i] in Added(existing, configured);
    }
  }

  /** Nothing else is granted, and without pruning nothing is revoked. */
  lemma OnlyConfiguredGrantsAreAdded(prune: bool, existing: set<Grant>, configured: seq<Grant>, g: Grant)
    ensures g in GrantsAfter(prune, existing, configured) && g !in existing ==> g in configured
    ensures g in existing && g !in GrantsAfter(prune, existing, configured) ==>
              prune && g.kind == CATALOG && g.privilege in TOP_LEVEL_PRIVILEGES && g.privilege !in Targets(configured)
  {
  }

  /** After pruning, the top-level privileges granted on the catalog are configured ones. */
  lemma PrunedGrantsAreConfigured(existing: set<Grant>, configured: seq<Grant>, g: Grant)
    requires g in GrantsAfter(true, existing, configured)
    requires g.kind == CATALOG && g.privilege in TOP_LEVEL_PRIVILEGES && g.privilege != ""
    ensures g.privilege in Targets(configured)
  {
    UnconfiguredIsRevoked(existing, configured, g);
    OnlyConfiguredGrantsAreAdded(true, existing, configured, g);
  }

  lemma UnconfiguredIsRevoked(existing: set<Grant>, configured: seq<Grant>, g: Grant)
    requires g.kind == CATALOG && g.privilege in TOP_LEVEL_PRIVILEGES && g.privilege != ""
    ensures g in existing && g.privilege !in Targets(configured) ==> g in Revoked(existing, configured)
  {
    assert g == Grant(CATALOG, g.privilege);
    assert g in existing ==> g.privilege in Privileges(existing);
  }

  lemma GrantsAreStable(prune: bool, existing: set<Grant>, configured: seq<Grant>)
    ensures var once := GrantsAfter(prune, existing, configured);
            GrantsAfter(prune, once, configured) == once
  {
    var once := GrantsAfter(prune, existing, configured);
    forall i | 0 <= i < |configured| && configured[i].privilege != ""
      ensures configured[i].privilege in Privileges(once)
    {
      TargetIsHeld(prune, existing, configured, i);
    }
    assert Added(once, configured) == {};
    forall g | g in Revoked(once, configured)
      ensures prune ==> g !in once
    {
      if prune && g in once {
        PrunedGrantsAreConfigured(existing, configured, g);
      }
    }
  }

  lemma TargetIsHeld(prune: bool, existing: set<Grant>, configured: seq<Grant>, i: nat)
    requires i < |configured| && configured[i].privilege != ""
    ensures configured[i].privilege in Privileges(GrantsAfter(prune, existing, configured))
  {
    var p := configured[i].privilege;
    var once := GrantsAfter(prune, existing, configured);
    assert p in Targets(configured);
    if p in Privileges(existing) {
      var g :| g in existing && g.privilege == p;
      assert g !in Revoked(existing, configured);
      assert g in once;
    } else {
      ConfiguredGrantIsHeldIff(prune, existing, configured, i);
      assert configured[i] in once;
    }
  }

  // ----- roles: convergence and framing -----

  lemma WholeCatalogRoles(c: Config, s: Server, n: string)
    ensures var after := WithCatalogRoles(c, s, c.catalogRoles.Keys).catalogRoles;
            (n in after <==> n in s.catalogRoles || n in c.catalogRoles) &&
            (n in c.catalogRoles ==> after[n] == GrantsAfter(c.prune, GrantsOf(s, n), c.catalogRoles[n])) &&
            (n in s.catalogRoles && n !in c.catalogRoles ==> after[n] == s.catalogRoles[n])
  {
  }

  /** Roles are only held while they exist, as the server guarantees. */
  ghost predicate Sound(s: Server) {
    (forall r :: r in s.principalRoles ==> s.principalRoles[r] <= s.catalogRoles.Keys) &&
    (forall p :: p in s.principals ==> s.principals[p].roles <= s.principalRoles.Keys)
  }

  /** A managed principal role holds exactly its configured catalog roles if and only if these exist. */
  lemma BindingsConvergeIff(c: Config, s: Server, role: string)
    requires Sound(s) && role in c.principalRoles
    ensures var after := RolesDone(c, s);
            role in after.principalRoles &&
            after.principalRoles[role] == c.principalRoles[role] * after.catalogRoles.Keys &&
            (after.principalRoles[role] == c.principalRoles[role] <==>
               c.principalRoles[role] <= after.catalogRoles.Keys)
  {
    PurgeKeepsSound(c, s);
  }

  lemma PurgeKeepsSound(c: Config, s: Server)
    requires Sound(s)
    ensures Sound(Purged(c, s))
  {
  }

  lemma GrantsAfterAre(prune: bool, existing: set<Grant>, configured: seq<Grant>, g: Grant)
    ensures g in GrantsAfter(prune, existing, configured) <==>
              (g in existing ||
               (g in configured && g.privilege != "" && forall h :: h in existing ==> h.privilege != g.privilege)) &&
              !(prune && g.kind == "catalog" && g.privilege != "" && g.privilege in TOP_LEVEL_PRIVILEGES &&
                forall h :: h in configured ==> h.privilege != g.privilege)
  {
    assert g.privilege in Privileges(existing) <==> g.privilege != "" && exists h :: h in existing && h.privilege == g.privilege;
    TargetsAre(configured, g.privilege);
    assert g in Added(existing, configured) <==>
      g in configured && g.privilege != "" && g.privilege !in Privileges(existing);
  }

  lemma TargetsAre(configured: seq<Grant>, privilege: string)
    ensures privilege in Targets(configured) <==> privilege != "" && exists h :: h in configured && h.privilege == privilege
  {
    if h :| h in configured && h.privilege == privilege {
      var i :| 0 <= i < |configured| && configured[i] == h;
    }
  }

  /** What a managed catalog role is granted after a whole reconciliation: what it was granted before, and each
      configured grant whose privilege it had not, less the top-level privileges on the catalog that are no longer
      configured when pruning. */
  lemma ManagedRoleGrantsAre(c: Config, s: Server, saved: Credentials, issue: nat -> Pair, role: string, g: Grant)
    requires role in c.catalogRoles
    ensures var after, configured := Reconciled(c, s, saved, issue), c.catalogRoles[role];
            var before := if role in s.catalogRoles then s.catalogRoles[role] else {};
            role in after.catalogRoles &&
            (g in after.catalogRoles[role] <==>
               (g in before ||
                (g in configured && g.privilege != "" && forall h :: h in before ==> h.privilege != g.privilege)) &&
               !(c.prune && g.kind == "catalog" && g.privilege != "" && g.privilege in TOP_LEVEL_PRIVILEGES &&
                 forall h :: h in configured ==> h.privilege != g.privilege))
  {
    ReconciledRoles(c, s, saved, issue);
    WholeCatalogRoles(c, Purged(c, s), role);
    GrantsAfterAre(c.prune, GrantsOf(Purged(c, s), role), c.catalogRoles[role], g);
  }

  /** The roles a reconciliation leaves are those that were there before the principals' turns. */
  lemma ReconciledRoles(c: Config, s: Server, saved: Credentials, issue: nat -> Pair)
    ensures Reconciled(c, s, saved, issue).catalogRoles == RolesDone(c, s).catalogRoles
    ensures Reconciled(c, s, saved, issue).principalRoles == RolesDone(c, s).principalRoles
  {
    RolesStay(RolesDone(c, s), saved, c.principals, issue);
  }

  /** Without purging, a whole reconciliation leaves roles the configuration does not name as they are. */
  lemma UnmanagedRolesStay(c: Config, s: Server, saved: Credentials, issue: nat -> Pair, role: string)
    requires !c.purgeRoles
    ensures var after := Reconciled(c, s, saved, issue);
            (role in s.catalogRoles && role !in c.catalogRoles ==>
               role in after.catalogRoles && after.catalogRoles[role] == s.catalogRoles[role]) &&
            (role in s.principalRoles && role !in c.principalRoles ==>
               role in after.principalRoles && after.principalRoles[role] == s.principalRoles[role])
  {
    ReconciledRoles(c, s, saved, issue);
    WholeCatalogRoles(c, Purged(c, s), role);
  }

  /** With purging, a whole reconciliation leaves the managed and the system roles, and no others; an
      unmanaged system role keeps its grants, and its bindings to the catalog roles that remain. */
  lemma PurgeKeepsExactly(c: Config, s: Server, saved: Credentials, issue: nat -> Pair, role: string)
    requires c.purgeRoles
    ensures var after := Reconciled(c, s, saved, issue);
            (role in after.catalogRoles <==>
               role in c.catalogRoles || (role in s.catalogRoles && role in SYSTEM_CATALOG_ROLES)) &&
            (role in after.principalRoles <==>
               role in c.principalRoles || (role in s.principalRoles && role in SYSTEM_PRINCIPAL_ROLES))
    ensures var after := Reconciled(c, s, saved, issue);
            (role in after.catalogRoles && role !in c.catalogRoles ==> after.catalogRoles[role] == s.catalogRoles[role]) &&
            (role in after.principalRoles && role !in c.principalRoles ==>
               after.principalRoles[role] == s.principalRoles[role] - GoneCatalogRoles(c, s))
  {
    ReconciledRoles(c, s, saved, issue);
    WholeCatalogRoles(c, Purged(c, s), role);
  }

  /** A principal the configuration does not name is there after a whole reconciliation exactly if it was
      there before and is not purged; it keeps its pair, and its roles but for those purged. */
  lemma UnmanagedPrincipalsStayIff(c: Config, s: Server, saved: Credentials, issue: nat -> Pair, name: string)
    requires name !in Names(c.principals)
    ensures var after := Reconciled(c, s, saved, issue);
            (name in after.principals <==> name in s.principals && (c.purgePrincipals ==> name in SYSTEM_PRINCIPALS)) &&
            (name in after.principals ==>
               after.principals[name].pair == s.principals[name].pair &&
               after.principals[name].roles == s.principals[name].roles - GonePrincipalRoles(c, s))
  {
    OthersStay(RolesDone(c, s), saved, c.principals, issue, name);
  }

  /** Without any purge it stays exactly as it was. */
  lemma UnpurgedPrincipalsStay(c: Config, s: Server, saved: Credentials, issue: nat -> Pair, name: string)
    requires !c.purgePrincipals && !c.purgeRoles && name !in Names(c.principals)
    ensures SameAt(Reconciled(c, s, saved, issue), s, name)
  {
    UnmanagedPrincipalsStayIff(c, s, saved, issue, name);
  }

  // ----- principals: convergence -----

  predicate Distinct(defs: seq<PrincipalDef>) {
    forall i, j :: 0 <= i < j < |defs| ==> defs[i].name != defs[j].name
  }

  lemma {:induction false} OthersStay(s: Server, saved: Credentials, defs: seq<PrincipalDef>, issue: nat -> Pair,
                                      name: string)
    requires name !in Names(defs)
    ensures SameAt(AfterPrincipals(s, saved, defs, issue), s, name)
  {
    if defs != [] {
      var n := |defs| - 1;
      assert defs[n].name in Names(defs);
      forall i | 0 <= i < n
        ensures defs[..n][i].name in Names(defs)
      {
        assert defs[i].name in Names(defs);
      }
      OthersStay(s, saved, defs[..n], issue, name);
      OneKeepsOthers(AfterPrincipals(s, saved, defs[..n], issue), saved, defs[n], issue, name);
    }
  }

  lemma {:induction false} RolesStay(s: Server, saved: Credentials, defs: seq<PrincipalDef>, issue: nat -> Pair)
    ensures AfterPrincipals(s, saved, defs, issue).catalogRoles == s.catalogRoles
    ensures AfterPrincipals(s, saved, defs, issue).principalRoles == s.principalRoles
    ensures AfterPrincipals(s, saved, defs, issue).issued >= s.issued
  {
    if defs != [] {
      RolesStay(s, saved, defs[..|defs| - 1], issue);
    }
  }

  /** The server when it is the `i`-th principal's turn. */
  function Turn(s: Server, saved: Credentials, defs: seq<PrincipalDef>, issue: nat -> Pair, i: nat): Server
    requires i <= |defs|
  {
    AfterPrincipals(s, saved, defs[..i], issue)
  }

  lemma {:induction false} LaterTurnsKeepSame(s: Server, saved: Credentials, defs: seq<PrincipalDef>, issue: nat -> Pair,
                                              i: nat, same: Server)
    requires Distinct(defs) && i < |defs| && SameAt(Turn(s, saved, defs, issue, i + 1), same, defs[i].name)
    ensures SameAt(AfterPrincipals(s, saved, defs, issue), same, defs[i].name)
  {
    var n := |defs| - 1;
    if i < n {
      assert defs[..n][..i + 1] == defs[..i + 1];
      LaterTurnsKeepSame(s, saved, defs[..n], issue, i, same);
      var before := AfterPrincipals(s, saved, defs[..n], issue);
      OneKeepsSame(before, saved, defs[n], issue, defs[i].name, same);
      assert AfterPrincipals(s, saved, defs, issue) == OnePrincipal(before, saved, defs[n], issue);
    } else {
      assert defs[..i + 1] == defs;
    }
  }

  /** What a principal's own turn makes of it is what it is at the end. */
  lemma LaterTurnsKeep(s: Server, saved: Credentials, defs: seq<PrincipalDef>, issue: nat -> Pair, i: nat)
    requires Distinct(defs) && i < |defs|
    ensures SameAt(AfterPrincipals(s, saved, defs, issue),
                   OnePrincipal(Turn(s, saved, defs, issue, i), saved, defs[i], issue), defs[i].name)
  {
    assert defs[..i + 1][..i] == defs[..i];
    LaterTurnsKeepSame(s, saved, defs, issue, i, OnePrincipal(Turn(s, saved, defs, issue, i), saved, defs[i], issue));
  }

  predicate SameAt(a: Server, b: Server, name: string) {
    (name in a.principals <==> name in b.principals) &&
    (name in a.principals ==> a.principals[name] == b.principals[name])
  }

  lemma OneKeepsSame(s: Server, saved: Credentials, d: PrincipalDef, issue: nat -> Pair, name: string, same: Server)
    requires name != d.name && SameAt(s, same, name)
    ensures SameAt(OnePrincipal(s, saved, d, issue), same, name)
  {
    OneKeepsOthers(s, saved, d, issue, name);
  }

  lemma OneKeepsOthers(s: Server, saved: Credentials, d: PrincipalDef, issue: nat -> Pair, name: string)
    requires name != d.name
    ensures SameAt(OnePrincipal(s, saved, d, issue), s, name)
  {
  }

  function RolesHeld(s: Server, principal: string): set<string> {
    if principal in s.principals then s.principals[principal].roles else {}
  }

  /** A managed principal exists afterwards exactly if it existed at its turn or no principal held its saved pair,
      and then it holds those of its configured roles that exist. */
  lemma PrincipalConvergesIff(s: Server, saved: Credentials, defs: seq<PrincipalDef>, issue: nat -> Pair, i: nat)
    requires Distinct(defs) && i < |defs|
    ensures var d := defs[i];
            var turn := Turn(s, saved, defs, issue, i);
            var after := AfterPrincipals(s, saved, defs, issue);
            (d.name in after.principals <==> d.name in s.principals || !Works(turn, saved, d)) &&
            (d.name in after.principals && RolesHeld(s, d.name) <= s.principalRoles.Keys ==>
               after.principals[d.name].roles == d.roles * s.principalRoles.Keys &&
               (after.principals[d.name].roles == d.roles <==> d.roles <= s.principalRoles.Keys))
  {
    var d := defs[i];
    ReusesIffWorks(Turn(s, saved, defs, issue, i), saved, d);
    LaterTurnsKeep(s, saved, defs, issue, i);
    RolesStay(s, saved, defs[..i], issue);
    forall k | 0 <= k < i
      ensures defs[..i][k].name != d.name
    {
    }
    OthersStay(s, saved, defs[..i], issue, d.name);
  }
}
