/** Which credentials a reconciliation leaves: a principal whose saved pair nobody holds any more gets a new one,
    every other one keeps the pair it has, and the state file says so. */
module RbacCredentials {
  import opened Common
  import opened Polaris
  import opened RbacPlan
  import opened RbacIdempotence

  /** The file has the pair's values under those of the principal's variables that are configured. */
  predicate FileHas(file: Credentials, d: PrincipalDef, pair: Pair) {
    (d.idVar != "" ==> d.idVar in file && file[d.idVar] == pair.id) &&
    (d.secretVar != "" ==> d.secretVar in file && file[d.secretVar] == pair.secret)
  }

  lemma OwnExportHas(s: Server, saved: Credentials, out: Credentials, d: PrincipalDef, issue: nat -> Pair)
    requires (Both(d) ==> d.idVar != d.secretVar) && Proper(issue)
    ensures FileHas(Exported(s, saved, out, d, issue), d, if Reuses(s, saved, d) then SavedPair(saved, d).value else issue(s.issued))
  {
  }

  lemma OtherExportKeepsHas(s: Server, saved: Credentials, out: Credentials, other: PrincipalDef, issue: nat -> Pair,
                            d: PrincipalDef, pair: Pair)
    requires FileHas(out, d, pair) && !Uses(other, d.idVar) && !Uses(other, d.secretVar)
    ensures FileHas(Exported(s, saved, out, other, issue), d, pair)
  {
  }

  lemma LaterUsesNeither(defs: seq<PrincipalDef>, i: nat, j: nat)
    requires DistinctVariables(defs) && i < j < |defs|
    ensures !Uses(defs[j], defs[i].idVar) && !Uses(defs[j], defs[i].secretVar)
  {
    assert defs[i].idVar != "" ==> Uses(defs[i], defs[i].idVar);
    assert defs[i].secretVar != "" ==> Uses(defs[i], defs[i].secretVar);
  }

  lemma {:induction false} ExportsHave(s: Server, saved: Credentials, defs: seq<PrincipalDef>, issue: nat -> Pair, i: nat)
    requires i < |defs| && Proper(issue) && DistinctVariables(defs)
    ensures FileHas(AfterExports(s, saved, defs, issue), defs[i], PairAt(s, saved, defs, issue, i))
  {
    var n := |defs| - 1;
    if i < n {
      PrefixIsDistinct(defs, n);
      ExportsHave(s, saved, defs[..n], issue, i);
      SamePairAt(s, saved, defs, issue, i, n);
      LaterUsesNeither(defs, i, n);
      LastExportKeepsHas(s, saved, defs, issue, defs[i], PairAt(s, saved, defs, issue, i));
    } else {
      LastExportHas(s, saved, defs, issue);
    }
  }

  lemma LastExportKeepsHas(s: Server, saved: Credentials, defs: seq<PrincipalDef>, issue: nat -> Pair, d: PrincipalDef, pair: Pair)
    requires defs != [] && FileHas(AfterExports(s, saved, defs[..|defs| - 1], issue), d, pair)
    requires !Uses(defs[|defs| - 1], d.idVar) && !Uses(defs[|defs| - 1], d.secretVar)
    ensures FileHas(AfterExports(s, saved, defs, issue), d, pair)
  {
    var n := |defs| - 1;
    OtherExportKeepsHas(AfterPrincipals(s, saved, defs[..n], issue), saved, AfterExports(s, saved, defs[..n], issue), defs[n],
                        issue, d, pair);
  }

  lemma LastExportHas(s: Server, saved: Credentials, defs: seq<PrincipalDef>, issue: nat -> Pair)
    requires defs != [] && Proper(issue) && DistinctVariables(defs)
    ensures FileHas(AfterExports(s, saved, defs, issue), defs[|defs| - 1], PairAt(s, saved, defs, issue, |defs| - 1))
  {
    var n := |defs| - 1;
    OwnExportHas(AfterPrincipals(s, saved, defs[..n], issue), saved, AfterExports(s, saved, defs[..n], issue), defs[n], issue);
  }

  lemma FileHasPair(c: Config, s: Server, saved: Credentials, issue: nat -> Pair, i: nat)
    requires i < |c.principals| && Proper(issue) && DistinctVariables(c.principals)
    ensures FileHas(SavedFile(c, s, saved, issue), c.principals[i], PairAt(RolesDone(c, s), saved, c.principals, issue, i))
  {
    ExportsHave(RolesDone(c, s), saved, c.principals, issue, i);
    var d := c.principals[i];
    assert d.idVar != "" ==> d.idVar in ManagedKeys(c.principals);
    assert d.secretVar != "" ==> d.secretVar in ManagedKeys(c.principals);
  }

  lemma NextTurn(s: Server, saved: Credentials, defs: seq<PrincipalDef>, issue: nat -> Pair, i: nat)
    requires i < |defs|
    ensures Turn(s, saved, defs, issue, i + 1) == OnePrincipal(Turn(s, saved, defs, issue, i), saved, defs[i], issue)
  {
    assert defs[..i + 1][..i] == defs[..i];
  }

  lemma IssuedGrows(s: Server, saved: Credentials, defs: seq<PrincipalDef>, issue: nat -> Pair, i: nat)
    requires i <= |defs|
    ensures s.issued <= Turn(s, saved, defs, issue, i).issued <= AfterPrincipals(s, saved, defs, issue).issued
  {
    RolesStay(s, saved, defs[..i], issue);
    LaterTurnsIssue(s, saved, defs, issue, i);
  }

  lemma {:induction false} LaterTurnsIssue(s: Server, saved: Credentials, defs: seq<PrincipalDef>, issue: nat -> Pair, i: nat)
    requires i <= |defs|
    ensures Turn(s, saved, defs, issue, i).issued <= AfterPrincipals(s, saved, defs, issue).issued
  {
    var n := |defs| - 1;
    if i <= n {
      assert defs[..n][..i] == defs[..i];
      LaterTurnsIssue(s, saved, defs[..n], issue, i);
    } else {
      assert defs[..i] == defs;
    }
  }

  /** What one turn does to the pairs of the server. */
  predicate PairsKept(before: Server, after: Server) {
    after.issued == before.issued && after.principals.Keys == before.principals.Keys &&
    forall p :: p in before.principals ==> after.principals[p].pair == before.principals[p].pair
  }

  lemma WorkingTurnKeepsPairs(s: Server, saved: Credentials, d: PrincipalDef, issue: nat -> Pair)
    requires Works(s, saved, d)
    ensures PairsKept(s, OnePrincipal(s, saved, d, issue))
  {
    ReusesIffWorks(s, saved, d);
  }

  lemma DeadTurnIssues(s: Server, saved: Credentials, d: PrincipalDef, issue: nat -> Pair)
    requires !Works(s, saved, d)
    ensures var after := OnePrincipal(s, saved, d, issue);
            after.issued == s.issued + 1 && d.name in after.principals && after.principals[d.name].pair == issue(s.issued) &&
            forall p :: p in s.principals && p != d.name ==> p in after.principals && after.principals[p] == s.principals[p]
  {
    ReusesIffWorks(s, saved, d);
  }

  /** A principal whose saved pair nobody on the server holds at its turn exists afterwards with a pair issued in this
      run, and the state file has that pair. */
  lemma DeadPairIsRenewed(c: Config, s: Server, saved: Credentials, issue: nat -> Pair, i: nat)
    requires Distinct(c.principals) && DistinctVariables(c.principals) && Proper(issue) && i < |c.principals|
    requires var turn := Turn(RolesDone(c, s), saved, c.principals, issue, i);
             forall p :: p in turn.principals ==> !HasSaved(saved, c.principals[i], turn.principals[p].pair)
    ensures var d, after := c.principals[i], Reconciled(c, s, saved, issue);
            d.name in after.principals &&
            (exists n: nat :: s.issued <= n < after.issued && after.principals[d.name].pair == issue(n)) &&
            FileHas(SavedFile(c, s, saved, issue), d, after.principals[d.name].pair)
  {
    var done := RolesDone(c, s);
    var d, turn := c.principals[i], Turn(done, saved, c.principals, issue, i);
    ReusesIffWorks(turn, saved, d);
    DeadTurnIssues(turn, saved, d, issue);
    NextTurn(done, saved, c.principals, issue, i);
    LaterTurnsKeep(done, saved, c.principals, issue, i);
    IssuedGrows(done, saved, c.principals, issue, i);
    IssuedGrows(done, saved, c.principals, issue, i + 1);
    FileHasPair(c, s, saved, issue, i);
    assert done.issued == s.issued;
    assert s.issued <= turn.issued < Reconciled(c, s, saved, issue).issued;
  }

  /** If some principal holds the saved pair at that turn, the turn issues nothing and changes nobody's pair, and the
      state file keeps the saved one. */
  lemma WorkingPairIsKept(c: Config, s: Server, saved: Credentials, issue: nat -> Pair, i: nat, p: string)
    requires DistinctVariables(c.principals) && Proper(issue) && i < |c.principals|
    requires var turn := Turn(RolesDone(c, s), saved, c.principals, issue, i);
             p in turn.principals && HasSaved(saved, c.principals[i], turn.principals[p].pair)
    ensures var turn := Turn(RolesDone(c, s), saved, c.principals, issue, i);
            PairsKept(turn, Turn(RolesDone(c, s), saved, c.principals, issue, i + 1)) &&
            FileHas(SavedFile(c, s, saved, issue), c.principals[i], turn.principals[p].pair)
  {
    var done := RolesDone(c, s);
    var d, turn := c.principals[i], Turn(done, saved, c.principals, issue, i);
    assert Works(turn, saved, d);
    ReusesIffWorks(turn, saved, d);
    WorkingTurnKeepsPairs(turn, saved, d, issue);
    NextTurn(done, saved, c.principals, issue, i);
    FileHasPair(c, s, saved, issue, i);
  }

  /** The state file holds the variables of the managed principals, each of them, and no others. */
  lemma FileHoldsTheirVariables(c: Config, s: Server, saved: Credentials, issue: nat -> Pair, variable: string)
    requires Proper(issue)
    ensures variable in SavedFile(c, s, saved, issue) <==>
              variable != "" &&
              exists i :: 0 <= i < |c.principals| && (c.principals[i].idVar == variable || c.principals[i].secretVar == variable)
  {
    if variable in ManagedKeys(c.principals) {
      ExportsAreComplete(RolesDone(c, s), saved, c.principals, issue, variable);
    }
  }

  // ----- a server that was rebuilt -----

  /** The server lost its principals but the state file was kept: every managed principal is created again, with
      nothing reused from the file. */
  lemma RebuiltServerIsRefilled(c: Config, s: Server, saved: Credentials, issue: nat -> Pair, d: PrincipalDef)
    requires s.principals == map[] && c.principals == [d] && Proper(issue) && (Both(d) ==> d.idVar != d.secretVar)
    ensures var after := Reconciled(c, s, saved, issue);
            d.name in after.principals && after.principals[d.name].pair == issue(s.issued) &&
            FileHas(SavedFile(c, s, saved, issue), d, issue(s.issued))
  {
    var done := RolesDone(c, s);
    assert Turn(done, saved, c.principals, issue, 0) == done;
    assert done.principals == map[] && done.issued == s.issued;
    DeadTurnIssues(done, saved, d, issue);
    NextTurn(done, saved, c.principals, issue, 0);
    assert c.principals[..1] == c.principals;
    ReusesIffWorks(done, saved, d);
    FileHasPair(c, s, saved, issue, 0);
  }
}
