/** The reconciler: it asks the server what is there, and sends the requests that are missing. */
module Rbac {
  import opened Common
  import opened Polaris
  import opened RbacPlan

  class Reconciler {
    const config: Config
    const issue: nat -> Pair
    var server: Server
    var saved: Credentials
    var output: Credentials
    var file: Credentials

    constructor (config: Config, issue: nat -> Pair, server: Server, file: Credentials)
      ensures this.config == config && this.issue == issue && this.server == server && this.file == file
      ensures saved == file && output == file
    {
      this.config, this.issue, this.server, this.file := config, issue, server, file;
      saved, output := file, file;
    }

    // ----- purge -----

    method PurgePrincipals()
      modifies this`server
      ensures server == DeletePrincipals(old(server), GonePrincipals(config, old(server)))
    {
      if config.purgePrincipals {
        var managed := Names(config.principals);
        var listed := server.principals.Keys;
        var left := listed;
        ghost var gone: set<string> := {};
        assert server.principals - {} == server.principals;
        while left != {}
          invariant left <= listed && gone == listed - left - SYSTEM_PRINCIPALS - managed
          invariant server == DeletePrincipals(old(server), gone)
        {
          var name :| name in left;
          left := left - {name};
          if name !in SYSTEM_PRINCIPALS && name !in managed {
            server := DeletePrincipals(server, {name});
            DeletedTogether(old(server).principals, gone, {name});
            gone := gone + {name};
          }
        }
        assert gone == GonePrincipals(config, old(server));
      } else {
        assert server.principals - {} == server.principals;
      }
    }

    method PurgePrincipalRoles()
      modifies this`server
      ensures server == DeletePrincipalRoles(old(server), GonePrincipalRoles(config, old(server)))
    {
      NoRolesDeleted(server);
      if config.purgeRoles {
        var listed := server.principalRoles.Keys;
        var left := listed;
        ghost var gone: set<string> := {};
        while left != {}
          invariant left <= listed && gone == listed - left - SYSTEM_PRINCIPAL_ROLES - config.principalRoles.Keys
          invariant server == DeletePrincipalRoles(old(server), gone)
        {
          var name :| name in left;
          left := left - {name};
          if name !in SYSTEM_PRINCIPAL_ROLES && name !in config.principalRoles {
            server := DeletePrincipalRoles(server, {name});
            PrincipalRolesDeletedTogether(old(server), gone, {name});
            gone := gone + {name};
          }
        }
        assert gone == GonePrincipalRoles(config, old(server));
      }
    }

    method PurgeCatalogRoles()
      modifies this`server
      ensures server == DeleteCatalogRoles(old(server), GoneCatalogRoles(config, old(server)))
    {
      NoRolesDeleted(server);
      if config.purgeRoles {
        var listed := server.catalogRoles.Keys;
        var left := listed;
        ghost var gone: set<string> := {};
        while left != {}
          invariant left <= listed && gone == listed - left - SYSTEM_CATALOG_ROLES - config.catalogRoles.Keys
          invariant server == DeleteCatalogRoles(old(server), gone)
        {
          var name :| name in left;
          left := left - {name};
          if name !in SYSTEM_CATALOG_ROLES && name !in config.catalogRoles {
            server := DeleteCatalogRoles(server, {name});
            CatalogRolesDeletedTogether(old(server), gone, {name});
            gone := gone + {name};
          }
        }
        assert gone == GoneCatalogRoles(config, old(server));
      }
    }

    method PurgeUnmanagedEntities()
      modifies this`server
      ensures server == Purged(config, old(server))
    {
      PurgePrincipals();
      PurgePrincipalRoles();
      PurgeCatalogRoles();
    }

    // ----- catalog roles -----

    method ReconcileCatalogRole(role: string, configured: seq<Grant>)
      modifies this`server
      ensures server == WithGrants(old(server), role, GrantsAfter(config.prune, GrantsOf(old(server), role), configured))
    {
      if role !in server.catalogRoles {
        server := CreateCatalogRole(server, role);
      }
      ghost var before := old(server);
      var held := server.catalogRoles[role];
      var existing := Privileges(held);
      SameGrants(before, role);
      ghost var now := held;
      for i := 0 to |configured|
        invariant server == WithGrants(before, role, now) && now == held + Added(held, configured[..i])
      {
        AddedNext(held, configured, i);
        if configured[i].privilege != "" && configured[i].privilege !in existing {
          GrantNext(before, role, now, configured[i]);
          now := now + {configured[i]};
          server := AddGrant(server, role, configured[i]);
        }
      }
      assert configured[..|configured|] == configured;
      if config.prune {
        var surplus := existing * TOP_LEVEL_PRIVILEGES - Targets(configured);
        var left := surplus;
        ghost var granted := now;
        while left != {}
          invariant left <= surplus
          invariant server == WithGrants(before, role, now) && now == granted - CatalogGrants(surplus - left)
        {
          var privilege :| privilege in left;
          CatalogGrantsNext(surplus - left, privilege);
          assert surplus - (left - {privilege}) == (surplus - left) + {privilege};
          left := left - {privilege};
          RevokeNext(before, role, now, Grant(CATALOG, privilege));
          now := now - {Grant(CATALOG, privilege)};
          server := RevokeGrant(server, role, Grant(CATALOG, privilege));
        }
        assert surplus - left == surplus;
        assert CatalogGrants(surplus) == Revoked(held, configured);
      }
      assert now == GrantsAfter(config.prune, held, configured);
    }

    method ReconcileCatalogRoles()
      modifies this`server
      ensures server == WithCatalogRoles(config, old(server), config.catalogRoles.Keys)
    {
      var left := config.catalogRoles.Keys;
      assert WithCatalogRoles(config, server, {}).catalogRoles == server.catalogRoles;
      while left != {}
        invariant left <= config.catalogRoles.Keys
        invariant server == WithCatalogRoles(config, old(server), config.catalogRoles.Keys - left)
      {
        var role :| role in left;
        OneMoreCatalogRole(config, old(server), config.catalogRoles.Keys - left, role);
        assert config.catalogRoles.Keys - (left - {role}) == (config.catalogRoles.Keys - left) + {role};
        left := left - {role};
        ReconcileCatalogRole(role, config.catalogRoles[role]);
      }
      assert config.catalogRoles.Keys - {} == config.catalogRoles.Keys;
    }

    // ----- principal roles -----

    method ReconcilePrincipalRole(role: string, configured: set<string>)
      modifies this`server
      ensures server == WithBindings(old(server), role, configured * (BoundTo(old(server), role) + old(server).catalogRoles.Keys))
    {
      if role !in server.principalRoles {
        server := CreatePrincipalRole(server, role);
      }
      ghost var before := old(server);
      var current := server.principalRoles[role];
      SameBindings(before, role);
      ghost var now := current;
      var missing := configured - current;
      var left := missing;
      while left != {}
        invariant left <= missing
        invariant server == WithBindings(before, role, now)
        invariant now == current + (missing - left) * before.catalogRoles.Keys
      {
        var catalogRole :| catalogRole in left;
        left := left - {catalogRole};
        BindNext(before, role, now, catalogRole);
        now := now + {catalogRole} * before.catalogRoles.Keys;
        server := Bind(server, role, catalogRole);
      }
      var surplus := current - configured;
      left := surplus;
      ghost var bound := now;
      while left != {}
        invariant left <= surplus
        invariant server == WithBindings(before, role, now) && now == bound - (surplus - left)
      {
        var catalogRole :| catalogRole in left;
        left := left - {catalogRole};
        UnbindNext(before, role, now, catalogRole);
        now := now - {catalogRole};
        server := Unbind(server, role, catalogRole);
      }
      assert now == configured * (BoundTo(before, role) + before.catalogRoles.Keys);
    }

    method ReconcilePrincipalRoles()
      modifies this`server
      ensures server == WithPrincipalRoles(config, old(server), config.principalRoles.Keys)
    {
      var left := config.principalRoles.Keys;
      assert WithPrincipalRoles(config, server, {}).principalRoles == server.principalRoles;
      while left != {}
        invariant left <= config.principalRoles.Keys
        invariant server == WithPrincipalRoles(config, old(server), config.principalRoles.Keys - left)
      {
        var role :| role in left;
        OneMorePrincipalRole(config, old(server), config.principalRoles.Keys - left, role);
        assert config.principalRoles.Keys - (left - {role}) == (config.principalRoles.Keys - left) + {role};
        left := left - {role};
        ReconcilePrincipalRole(role, config.principalRoles[role]);
      }
      assert config.principalRoles.Keys - {} == config.principalRoles.Keys;
    }

    // ----- principals -----

    method ReconcileCredentials(d: PrincipalDef)
      modifies this`server, this`output
      ensures server == WithCredentials(old(server), saved, d, issue)
      ensures output == Exported(old(server), saved, old(output), d, issue)
    {
      var pair := SavedPair(saved, d);
      var clientId, clientSecret := "", "";
      if pair.Some? && Authenticates(server, pair.value) {
        clientId, clientSecret := pair.value.id, pair.value.secret;
      } else {
        // A missing principal is created, an existing one is reset; both answer with new credentials.
        var renewed := issue(server.issued);
        clientId, clientSecret := renewed.id, renewed.secret;
        server := Renew(server, d.name, issue);
      }
      if d.idVar != "" && clientId != "" {
        output := output[d.idVar := clientId];
      }
      if d.secretVar != "" && clientSecret != "" {
        output := output[d.secretVar := clientSecret];
      }
    }

    method ReconcileAssignments(d: PrincipalDef)
      modifies this`server
      ensures server == WithAssignments(old(server), d)
    {
      // The listing of a principal that does not exist is empty, and every request about it is ignored.
      var current := if d.name in server.principals then server.principals[d.name].roles else {};
      ghost var before := old(server);
      SameRoles(before, d.name);
      ghost var now := current;
      var missing := d.roles - current;
      var left := missing;
      while left != {}
        invariant left <= missing
        invariant server == Holding(before, d.name, now)
        invariant now == current + (missing - left) * before.principalRoles.Keys
      {
        var role :| role in left;
        left := left - {role};
        AssignNext(before, d.name, now, role);
        now := now + {role} * before.principalRoles.Keys;
        server := Assign(server, d.name, role);
      }
      var surplus := current - d.roles;
      left := surplus;
      ghost var held := now;
      while left != {}
        invariant left <= surplus
        invariant server == Holding(before, d.name, now) && now == held - (surplus - left)
      {
        var role :| role in left;
        left := left - {role};
        UnassignNext(before, d.name, now, role);
        now := now - {role};
        server := Unassign(server, d.name, role);
      }
      assert now == d.roles * (current + before.principalRoles.Keys);
    }

    method ReconcilePrincipals()
      requires output == saved
      modifies this`server, this`output
      ensures server == AfterPrincipals(old(server), saved, config.principals, issue)
      ensures output == AfterExports(old(server), saved, config.principals, issue)
    {
      for i := 0 to |config.principals|
        invariant server == AfterPrincipals(old(server), saved, config.principals[..i], issue)
        invariant output == AfterExports(old(server), saved, config.principals[..i], issue)
      {
        assert config.principals[..i + 1][..i] == config.principals[..i];
        ReconcileCredentials(config.principals[i]);
        ReconcileAssignments(config.principals[i]);
      }
      assert config.principals[..|config.principals|] == config.principals;
    }

    /** The state file keeps the managed variables and no others. */
    method WriteCredentialState()
      modifies this`file
      ensures file == map k | k in ManagedKeys(config.principals) && k in output :: output[k]
    {
      file := map k | k in ManagedKeys(config.principals) && k in output :: output[k];
    }

    /** `reconcile`, without catalog properties and namespaces. */
    method Reconcile()
      requires output == saved
      modifies this
      ensures server == Reconciled(config, old(server), old(saved), issue)
      ensures file == SavedFile(config, old(server), old(saved), issue)
    {
      PurgeUnmanagedEntities();
      ReconcileCatalogRoles();
      ReconcilePrincipalRoles();
      ReconcilePrincipals();
      WriteCredentialState();
    }
  }

  // ----- the server between two requests -----

  lemma DeletedTogether(m: map<string, Principal>, a: set<string>, b: set<string>)
    ensures m - a - b == m - (a + b)
  {
  }

  lemma NoRolesDeleted(s: Server)
    ensures DeletePrincipalRoles(s, {}) == s && DeleteCatalogRoles(s, {}) == s
  {
    forall p | p in s.principals
      ensures s.principals[p].(roles := s.principals[p].roles - {}) == s.principals[p]
    {
      assert s.principals[p].roles - {} == s.principals[p].roles;
    }
    assert (map p | p in s.principals :: s.principals[p].(roles := s.principals[p].roles - {})) == s.principals;
    forall r | r in s.principalRoles
      ensures s.principalRoles[r] - {} == s.principalRoles[r]
    {
    }
    assert (map r | r in s.principalRoles :: s.principalRoles[r] - {}) == s.principalRoles;
    assert s.principalRoles - {} == s.principalRoles && s.catalogRoles - {} == s.catalogRoles;
  }

  lemma PrincipalRolesDeletedTogether(s: Server, a: set<string>, b: set<string>)
    ensures DeletePrincipalRoles(DeletePrincipalRoles(s, a), b) == DeletePrincipalRoles(s, a + b)
  {
    forall p | p in s.principals
      ensures s.principals[p].roles - a - b == s.principals[p].roles - (a + b)
    {
    }
    assert DeletePrincipalRoles(DeletePrincipalRoles(s, a), b).principals == DeletePrincipalRoles(s, a + b).principals;
    assert s.principalRoles - a - b == s.principalRoles - (a + b);
  }

  lemma CatalogRolesDeletedTogether(s: Server, a: set<string>, b: set<string>)
    ensures DeleteCatalogRoles(DeleteCatalogRoles(s, a), b) == DeleteCatalogRoles(s, a + b)
  {
    forall r | r in s.principalRoles
      ensures s.principalRoles[r] - a - b == s.principalRoles[r] - (a + b)
    {
    }
    assert DeleteCatalogRoles(DeleteCatalogRoles(s, a), b).principalRoles == DeleteCatalogRoles(s, a + b).principalRoles;
    assert s.catalogRoles - a - b == s.catalogRoles - (a + b);
  }

  function WithGrants(s: Server, role: string, grants: set<Grant>): Server {
    s.(catalogRoles := s.catalogRoles[role := grants])
  }

  function WithBindings(s: Server, role: string, bound: set<string>): Server {
    s.(principalRoles := s.principalRoles[role := bound])
  }

  /** The principal, if it exists, has these roles. */
  function Holding(s: Server, principal: string, roles: set<string>): Server {
    if principal in s.principals then WithRoles(s, principal, roles) else s
  }

  lemma UpdatedTwice<V>(m: map<string, V>, k: string, a: V, b: V)
    ensures m[k := a][k := b] == m[k := b]
    ensures k in m ==> m[k := m[k]] == m
  {
  }

  lemma SameGrants(s: Server, role: string)
    ensures CreateCatalogRole(s, role) == WithGrants(s, role, GrantsOf(s, role))
  {
    UpdatedTwice(s.catalogRoles, role, GrantsOf(s, role), {});
  }

  lemma GrantNext(s: Server, role: string, now: set<Grant>, g: Grant)
    ensures AddGrant(WithGrants(s, role, now), role, g) == WithGrants(s, role, now + {g})
  {
    UpdatedTwice(s.catalogRoles, role, now, now + {g});
  }

  lemma RevokeNext(s: Server, role: string, now: set<Grant>, g: Grant)
    ensures RevokeGrant(WithGrants(s, role, now), role, g) == WithGrants(s, role, now - {g})
  {
    UpdatedTwice(s.catalogRoles, role, now, now - {g});
  }

  lemma SameBindings(s: Server, role: string)
    ensures CreatePrincipalRole(s, role) == WithBindings(s, role, BoundTo(s, role))
  {
    UpdatedTwice(s.principalRoles, role, BoundTo(s, role), {});
  }

  lemma BindNext(s: Server, role: string, now: set<string>, catalogRole: string)
    ensures Bind(WithBindings(s, role, now), role, catalogRole) ==
              WithBindings(s, role, now + {catalogRole} * s.catalogRoles.Keys)
  {
    UpdatedTwice(s.principalRoles, role, now, now + {catalogRole});
    if catalogRole in s.catalogRoles {
      assert {catalogRole} * s.catalogRoles.Keys == {catalogRole};
    } else {
      assert now + {catalogRole} * s.catalogRoles.Keys == now;
    }
  }

  lemma UnbindNext(s: Server, role: string, now: set<string>, catalogRole: string)
    ensures Unbind(WithBindings(s, role, now), role, catalogRole) == WithBindings(s, role, now - {catalogRole})
  {
    UpdatedTwice(s.principalRoles, role, now, now - {catalogRole});
  }

  lemma SameRoles(s: Server, principal: string)
    ensures principal in s.principals ==> Holding(s, principal, s.principals[principal].roles) == s
  {
    if principal in s.principals {
      UpdatedTwice(s.principals, principal, s.principals[principal], s.principals[principal]);
    }
  }

  lemma AssignNext(s: Server, principal: string, now: set<string>, role: string)
    ensures Assign(Holding(s, principal, now), principal, role) ==
              Holding(s, principal, now + {role} * s.principalRoles.Keys)
  {
    if principal in s.principals {
      var p := s.principals[principal];
      UpdatedTwice(s.principals, principal, p.(roles := now), p.(roles := now + {role}));
      if role in s.principalRoles {
        assert {role} * s.principalRoles.Keys == {role};
      } else {
        assert now + {role} * s.principalRoles.Keys == now;
      }
    }
  }

  lemma UnassignNext(s: Server, principal: string, now: set<string>, role: string)
    ensures Unassign(Holding(s, principal, now), principal, role) == Holding(s, principal, now - {role})
  {
    if principal in s.principals {
      var p := s.principals[principal];
      UpdatedTwice(s.principals, principal, p.(roles := now), p.(roles := now - {role}));
    }
  }

  lemma AddedNext(held: set<Grant>, configured: seq<Grant>, i: nat)
    requires i < |configured|
    ensures Added(held, configured[..i + 1]) ==
              Added(held, configured[..i]) +
              if configured[i].privilege != "" && configured[i].privilege !in Privileges(held) then {configured[i]} else {}
  {
    var a, b := configured[..i], configured[..i + 1];
    forall g | g in Added(held, a)
      ensures g in Added(held, b)
    {
      var k :| 0 <= k < i && a[k] == g;
      assert b[k] == g;
    }
    assert b[i] == configured[i];
    forall k | 0 <= k < i
      ensures b[k] == a[k]
    {
    }
  }

  function CatalogGrants(privileges: set<string>): set<Grant> {
    set p | p in privileges :: Grant(CATALOG, p)
  }

  lemma CatalogGrantsNext(privileges: set<string>, p: string)
    ensures CatalogGrants(privileges + {p}) == CatalogGrants(privileges) + {Grant(CATALOG, p)}
  {
  }

  lemma OneMoreCatalogRole(c: Config, s: Server, names: set<string>, role: string)
    requires names <= c.catalogRoles.Keys && role in c.catalogRoles && role !in names
    ensures var before := WithCatalogRoles(c, s, names);
            WithCatalogRoles(c, s, names + {role}) ==
              WithGrants(before, role, GrantsAfter(c.prune, GrantsOf(before, role), c.catalogRoles[role]))
  {
    var before := WithCatalogRoles(c, s, names);
    OneMoreEntry(before.catalogRoles, WithCatalogRoles(c, s, names + {role}).catalogRoles, role);
  }

  lemma OneMoreEntry<V>(m: map<string, V>, n: map<string, V>, k: string)
    requires n.Keys == m.Keys + {k} && forall x :: x in m && x != k ==> n[x] == m[x]
    ensures n == m[k := n[k]]
  {
  }

  lemma OneMorePrincipalRole(c: Config, s: Server, names: set<string>, role: string)
    requires names <= c.principalRoles.Keys && role in c.principalRoles && role !in names
    ensures var before := WithPrincipalRoles(c, s, names);
            WithPrincipalRoles(c, s, names + {role}) ==
              WithBindings(before, role, c.principalRoles[role] * (BoundTo(before, role) + before.catalogRoles.Keys))
  {
    var before := WithPrincipalRoles(c, s, names);
    assert BoundTo(before, role) == BoundTo(s, role);
    assert WithPrincipalRoles(c, s, names + {role}).principalRoles ==
      before.principalRoles[role := c.principalRoles[role] * (BoundTo(before, role) + before.catalogRoles.Keys)];
  }
}
