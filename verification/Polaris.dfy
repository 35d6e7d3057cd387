/** The access-control state of one Polaris catalog and the requests that change it. A request about something
    that is missing, or that already exists, changes nothing: its 404 or 409 is ignored. */
module Polaris {
  datatype Grant = Grant(kind: string, privilege: string)

  /** A client identifier with its secret. */
  datatype Pair = Pair(id: string, secret: string)

  datatype Principal = Principal(pair: Pair, roles: set<string>)

  /** Catalog roles hold grants, principal roles hold catalog roles, principals hold principal roles; `issued`
      counts the credentials handed out. */
  datatype Server = Server(catalogRoles: map<string, set<Grant>>, principalRoles: map<string, set<string>>,
                           principals: map<string, Principal>, issued: nat)

  // ----- catalog roles -----

  function CreateCatalogRole(s: Server, name: string): Server {
    if name in s.catalogRoles then s else s.(catalogRoles := s.catalogRoles[name := {}])
  }

  function AddGrant(s: Server, role: string, grant: Grant): Server {
    if role in s.catalogRoles then s.(catalogRoles := s.catalogRoles[role := s.catalogRoles[role] + {grant}]) else s
  }

  function RevokeGrant(s: Server, role: string, grant: Grant): Server {
    if role in s.catalogRoles then s.(catalogRoles := s.catalogRoles[role := s.catalogRoles[role] - {grant}]) else s
  }

  /** Deleting roles takes them from everyone who held them. */
  function DeleteCatalogRoles(s: Server, gone: set<string>): Server {
    s.(catalogRoles := s.catalogRoles - gone,
       principalRoles := map r | r in s.principalRoles :: s.principalRoles[r] - gone)
  }

  // ----- principal roles -----

  function CreatePrincipalRole(s: Server, name: string): Server {
    if name in s.principalRoles then s else s.(principalRoles := s.principalRoles[name := {}])
  }

  function Bind(s: Server, role: string, catalogRole: string): Server {
    if role in s.principalRoles && catalogRole in s.catalogRoles then
      s.(principalRoles := s.principalRoles[role := s.principalRoles[role] + {catalogRole}])
    else s
  }

  function Unbind(s: Server, role: string, catalogRole: string): Server {
    if role in s.principalRoles then
      s.(principalRoles := s.principalRoles[role := s.principalRoles[role] - {catalogRole}])
    else s
  }

  function DeletePrincipalRoles(s: Server, gone: set<string>): Server {
    s.(principalRoles := s.principalRoles - gone,
       principals := map p | p in s.principals :: s.principals[p].(roles := s.principals[p].roles - gone))
  }

  // ----- principals -----

  predicate Authenticates(s: Server, pair: Pair) {
    exists p :: p in s.principals && s.principals[p].pair == pair
  }

  /** A new or a reset principal gets the next credentials. */
  function Renew(s: Server, name: string, issue: nat -> Pair): Server {
    var roles := if name in s.principals then s.principals[name].roles else {};
    s.(principals := s.principals[name := Principal(issue(s.issued), roles)], issued := s.issued + 1)
  }

  function Assign(s: Server, principal: string, role: string): Server {
    if principal in s.principals && role in s.principalRoles then
      WithRoles(s, principal, s.principals[principal].roles + {role})
    else s
  }

  function Unassign(s: Server, principal: string, role: string): Server {
    if principal in s.principals then WithRoles(s, principal, s.principals[principal].roles - {role}) else s
  }

  function WithRoles(s: Server, principal: string, roles: set<string>): Server
    requires principal in s.principals
  {
    s.(principals := s.principals[principal := s.principals[principal].(roles := roles)])
  }

  function DeletePrincipals(s: Server, gone: set<string>): Server {
    s.(principals := s.principals - gone)
  }
}
