/** A concrete run of the organisation: what the theorems speak of does happen. */
module OrgExamples {
  import opened Prelude
  import opened OrgModel
  import opened OrgGuards
  import opened OrgTransactions
  import opened OrgInvariants
  import opened OrgRuns

  const SIGN_UP := [RegisterUser(1, "ann@example.org", 0), SignupCompany(1, 2, 3, "Ann's", 5)]
  const DISSOLVE := Dissolve(1, 2, [], [1], 9)

  lemma Extends(run: seq<Action>, a: Action)
    requires Feasible(START, run) && TimelyRun(START, run) && Possible(Run(START, run).db, a) && Timely(Run(START, run).db, a)
    ensures Feasible(START, run + [a]) && TimelyRun(START, run + [a]) && Run(START, run + [a]) == Step(Run(START, run), a)
  {
    assert (run + [a])[..|run|] == run;
  }

  const REGISTERED := EMPTY_DB.(users := map[1 := User(0, "ann@example.org", None)], issued := {1})

  const FOUNDED := Db(
    map[1 := User(0, "ann@example.org", Some(2))], map[2 := Company("Ann's", ACTIVE)], map[(1, 2) := Membership(3, OWNER, 5)],
    map[], [CompanyCreated(1, 2, "Ann's")], {1, 2, 3}, [])

  const CLOSED := Db(
    map[], map[2 := Company("Ann's", DELETED)], map[], map[],
    [CompanyCreated(1, 2, "Ann's"), MembershipRemoved(1, 2, 1, OWNER, true), AccountDeleted(1), CompanyDeleted(1, 2, "Ann's")],
    {1, 2, 3}, [])

  lemma Registering()
    ensures Step(START, SIGN_UP[0]) == World(REGISTERED, [])
  {
  }

  lemma Founding()
    ensures Step(World(REGISTERED, []), SIGN_UP[1]) == World(FOUNDED, [])
  {
    assert ActiveCompaniesOf(REGISTERED, 1) == {};
    var founded := CreateCompanyWithOwner(REGISTERED, 1, 2, 3, "Ann's", 5);
    assert founded.Done? && founded.db == FOUNDED;
  }

  /** A user signs up and founds a company: it is ACTIVE, the founder is its OWNER, and it is current. */
  lemma SigningUp()
    ensures Feasible(START, SIGN_UP) && TimelyRun(START, SIGN_UP) && Run(START, SIGN_UP) == World(FOUNDED, [])
  {
    Extends([], SIGN_UP[0]);
    assert [] + [SIGN_UP[0]] == [SIGN_UP[0]];
    Registering();
    Extends([SIGN_UP[0]], SIGN_UP[1]);
    assert [SIGN_UP[0]] + [SIGN_UP[1]] == SIGN_UP;
    Founding();
  }

  lemma Emptying()
    ensures Possible(FOUNDED, DISSOLVE)
    ensures Emptied(FOUNDED, 1, 2, [], [1], 9) ==
            FOUNDED.(users := map[1 := User(0, "ann@example.org", None)], members := map[],
                     audit := FOUNDED.audit + [MembershipRemoved(1, 2, 1, OWNER, true)])
  {
    assert (1, 2) in FOUNDED.members;
    assert MembersOf(FOUNDED.members, 2) == {1} && PendingOf(FOUNDED, 2) == {} && Elements([1]) == {1};
    assert Elements<InvitationId>([]) == {};
    var left := WithoutCompany(FOUNDED.members, 2);
    assert left == map[];
  }

  lemma Orphaning(emptied: Db)
    requires emptied == FOUNDED.(users := map[1 := User(0, "ann@example.org", None)], members := map[],
                                 audit := FOUNDED.audit + [MembershipRemoved(1, 2, 1, OWNER, true)])
    ensures DeleteOrphans(emptied, [1]) == Done(emptied.(users := map[], audit := emptied.audit + [AccountDeleted(1)], hooks := [1]), [1])
  {
    var gone := emptied.(users := map[], audit := emptied.audit + [AccountDeleted(1)], hooks := [1]);
    assert ActiveCompaniesOf(emptied, 1) == {};
    assert emptied.users - {1} == map[] && WithoutUser(emptied.members, 1) == map[] && WithoutInviter(emptied.invitations, 1) == map[];
    assert DeleteUser(emptied, 1) == Done(emptied.(users := map[]), ());
    assert emptied.hooks + [1] == [1];
    assert DeleteAccountIfOrphaned(emptied, 1) == Done(gone, Deleted);
    var us: seq<UserId> := [1];
    assert us[..|us| - 1] == [];
    assert DeleteOrphans(emptied, us[..|us| - 1]) == Done(emptied, []);
    var none: seq<UserId> := [];
    assert none + [1] == us;
  }

  lemma JustOne()
    ensures Ascending(Elements([1])) == [1]
  {
    assert Elements([1]) == {1} && IsLeast(1, {1});
    AscendingStep(1, {1});
    assert {1} - {1} == {};
  }

  /** Dissolving the company takes the founder's account with it: nothing is left but the closed company. */
  lemma Dissolving()
    ensures Feasible(START, SIGN_UP + [DISSOLVE]) && TimelyRun(START, SIGN_UP + [DISSOLVE])
    ensures Run(START, SIGN_UP + [DISSOLVE]) == World(CLOSED, [1])
  {
    SigningUp();
    Emptying();
    Extends(SIGN_UP, DISSOLVE);
    Closing();
  }

  lemma ClosedTables(swept: Db)
    requires swept == FOUNDED.(users := map[], members := map[], hooks := [1],
                               audit := FOUNDED.audit + [MembershipRemoved(1, 2, 1, OWNER, true)] + [AccountDeleted(1)])
    ensures Append(SoftDeleteCompany(swept, 2), [CompanyDeleted(1, 2, "Ann's")]) == CLOSED.(hooks := [1])
  {
  }

  lemma ClosedBody()
    requires Possible(FOUNDED, DISSOLVE)
    ensures DeleteCompany(FOUNDED, 1, 2, [], [1], 9) == Done(CLOSED.(hooks := [1]), [1])
  {
    Emptying();
    var emptied := Emptied(FOUNDED, 1, 2, [], [1], 9);
    Orphaning(emptied);
    JustOne();
    ClosedTables(DeleteOrphans(emptied, [1]).db);
  }

  lemma Closing()
    requires Possible(FOUNDED, DISSOLVE)
    ensures Step(World(FOUNDED, []), DISSOLVE) == World(CLOSED, [1])
  {
    ClosedBody();
  }

  // ----- an invitation whose guard passed too early -----

  const ADD := AddCompany(1, 5, 6, "Ann's other", 7)
  const GRANT := InviteGrant(1, 2, "bob@example.org", MEMBER)
  const LATE := Invite(GRANT, 8, 10)

  const TWO := Db(
    map[1 := User(0, "ann@example.org", Some(5))], map[2 := Company("Ann's", ACTIVE), 5 := Company("Ann's other", ACTIVE)],
    map[(1, 2) := Membership(3, OWNER, 5), (1, 5) := Membership(6, OWNER, 7)], map[],
    [CompanyCreated(1, 2, "Ann's"), CompanyCreated(1, 5, "Ann's other")], {1, 2, 3, 5, 6}, [])

  const ONE_LEFT := TWO.(
    companies := map[2 := Company("Ann's", DELETED), 5 := Company("Ann's other", ACTIVE)],
    members := map[(1, 5) := Membership(6, OWNER, 7)],
    audit := TWO.audit + [MembershipRemoved(1, 2, 1, OWNER, true)] + [CompanyDeleted(1, 2, "Ann's")])

  lemma Continues(run: seq<Action>, a: Action)
    requires Feasible(START, run) && Possible(Run(START, run).db, a)
    ensures Feasible(START, run + [a]) && Run(START, run + [a]) == Step(Run(START, run), a)
  {
    assert (run + [a])[..|run|] == run;
  }

  lemma Adding()
    ensures Step(World(FOUNDED, []), ADD) == World(TWO, [])
  {
    var added := CreateCompanyWithOwner(FOUNDED, 1, 5, 6, "Ann's other", 7);
    assert added.Done? && added.db == TWO;
  }

  lemma LeavingOne()
    ensures Possible(TWO, DISSOLVE)
    ensures Emptied(TWO, 1, 2, [], [1], 9) ==
            TWO.(members := map[(1, 5) := Membership(6, OWNER, 7)], audit := TWO.audit + [MembershipRemoved(1, 2, 1, OWNER, true)])
  {
    assert (1, 2) in TWO.members && (1, 5) in TWO.members;
    assert MembersOf(TWO.members, 2) == {1} && PendingOf(TWO, 2) == {} && Elements([1]) == {1};
    assert Elements<InvitationId>([]) == {};
    assert WithoutCompany(TWO.members, 2) == map[(1, 5) := Membership(6, OWNER, 7)];
  }

  lemma KeepsAccount(emptied: Db)
    requires emptied == TWO.(members := map[(1, 5) := Membership(6, OWNER, 7)], audit := TWO.audit + [MembershipRemoved(1, 2, 1, OWNER, true)])
    ensures DeleteOrphans(emptied, [1]) == Done(emptied, [])
  {
    assert (1, 5) in emptied.members && IsActive(emptied, 5);
    ActiveMeaning(emptied, 1, 5);
    var us: seq<UserId> := [1];
    assert us[..|us| - 1] == [];
    assert DeleteOrphans(emptied, us[..|us| - 1]) == Done(emptied, []);
  }

  lemma DissolvingOne()
    requires Possible(TWO, DISSOLVE)
    ensures DeleteCompany(TWO, 1, 2, [], [1], 9) == Done(ONE_LEFT, [])
  {
    LeavingOne();
    KeepsAccount(Emptied(TWO, 1, 2, [], [1], 9));
    JustOne();
  }

  lemma DissolvingOneStep()
    requires Possible(TWO, DISSOLVE)
    ensures Step(World(TWO, []), DISSOLVE) == World(ONE_LEFT, [])
  {
    DissolvingOne();
  }

  lemma GuardPasses()
    ensures RequireInvite(TWO, 1, 2, GRANT.email, GRANT.role) == Granted(GRANT)
  {
  }

  lemma InvitingLate()
    ensures Possible(ONE_LEFT, LATE)
    ensures var db := Step(World(ONE_LEFT, []), LATE).db;
            2 in db.companies && db.companies[2].status.DELETED? && PendingOf(db, 2) != {}
  {
    var after := InviteToCompany(ONE_LEFT, GRANT, 8, 10);
    assert after.Done? && 8 in PendingOf(after.db, 2);
  }

  lemma AfterAdding()
    ensures Feasible(START, SIGN_UP + [ADD]) && Run(START, SIGN_UP + [ADD]) == World(TWO, [])
  {
    SigningUp();
    Continues(SIGN_UP, ADD);
    Adding();
  }

  lemma AfterLeaving()
    ensures Feasible(START, SIGN_UP + [ADD] + [DISSOLVE]) && Run(START, SIGN_UP + [ADD] + [DISSOLVE]) == World(ONE_LEFT, [])
  {
    AfterAdding();
    LeavingOne();
    Continues(SIGN_UP + [ADD], DISSOLVE);
    DissolvingOneStep();
  }

  /**
   * The guard passes while the company is ACTIVE; the company is dissolved; the invitation goes in. It
   * stays pending for a DELETED company.
   */
  lemma GuardedTooEarly()
    ensures Feasible(START, SIGN_UP + [ADD])
    ensures RequireInvite(Run(START, SIGN_UP + [ADD]).db, 1, 2, GRANT.email, GRANT.role) == Granted(GRANT)
    ensures var run := SIGN_UP + [ADD] + [DISSOLVE] + [LATE];
            && Feasible(START, run)
            && var db := Run(START, run).db;
               2 in db.companies && db.companies[2].status.DELETED? && PendingOf(db, 2) != {}
  {
    AfterAdding();
    GuardPasses();
    AfterLeaving();
    InvitingLate();
    Continues(SIGN_UP + [ADD] + [DISSOLVE], LATE);
  }
}
