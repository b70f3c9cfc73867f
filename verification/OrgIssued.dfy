/**
 * Runs whose grants were all issued by the guards: an accept grant by a guard that read some earlier state,
 * an invitation's by a guard whose company is still ACTIVE. What the runs of OrgRuns promise holds for them.
 */
module OrgIssued {
  import opened Prelude
  import opened OrgModel
  import opened OrgGuards
  import opened OrgTransactions
  import opened OrgInvariants
  import opened OrgRuns
  import opened OrgProgress

  /** A run in two parts. */
  lemma {:induction false} RunInParts(w: World, run: seq<Action>, j: nat)
    requires Feasible(w, run) && j <= |run|
    ensures Feasible(w, run[..j]) && Feasible(Run(w, run[..j]), run[j..])
    ensures Run(w, run) == Run(Run(w, run[..j]), run[j..])
    decreases |run|
  {
    if j == |run| {
      assert run[..j] == run && run[j..] == [];
    } else {
      var n := |run| - 1;
      RunInParts(w, run[..n], j);
      assert run[..n][..j] == run[..j] && run[..n][j..] == run[j..][..n - j];
      assert run[j..][..|run[j..]| - 1] == run[..n][j..] && run[j..][|run[j..]| - 1] == run[n];
    }
  }

  /** The guard let this acceptance proceed in the state the first `j` actions had led to. */
  ghost predicate LetProceed(run: seq<Action>, j: nat, g: AcceptGrant, email: string, now: Time)
    requires Feasible(START, run) && j <= |run|
  {
    RunInParts(START, run, j);
    RequireInvitationAccept(Run(START, run[..j]).db, g.actor, email, g.id, now) == Granted(Proceed(g))
  }

  /** Its grant was issued: for an acceptance at any earlier time, for an invitation to a company still ACTIVE. */
  ghost predicate Issued(run: seq<Action>, a: Action)
    requires Feasible(START, run)
  {
    match a
    case Accept(g, _, _, _) => exists j: nat, email, now :: j <= |run| && LetProceed(run, j, g, email, now)
    case Invite(g, _, _) => IsActive(Run(START, run).db, g.company)
    case _ => true
  }

  ghost predicate IssuedRun(run: seq<Action>)
    requires Feasible(START, run)
    decreases |run|
  {
    run != [] ==> IssuedRun(run[..|run| - 1]) && Issued(run[..|run| - 1], run[|run| - 1])
  }

  lemma IssuedIsTimely(run: seq<Action>, a: Action)
    requires Feasible(START, run) && Issued(run, a)
    ensures Timely(Run(START, run).db, a)
  {
    if a.Accept? {
      var g := a.accept;
      var j: nat, email, now :| j <= |run| && LetProceed(run, j, g, email, now);
      RunInParts(START, run, j);
      StartTidy();
      RunSound(START, run[..j]);
      AcceptGrantStaysLinked(Run(START, run[..j]), run[j..], g.actor, email, g.id, now, g);
    }
  }

  /** However old the accept grants, the run is one that OrgRuns and OrgProgress speak of. */
  lemma {:induction false} IssuedRunIsTimely(run: seq<Action>)
    requires Feasible(START, run) && IssuedRun(run)
    ensures TimelyRun(START, run)
    decreases |run|
  {
    if run != [] {
      IssuedRunIsTimely(run[..|run| - 1]);
      IssuedIsTimely(run[..|run| - 1], run[|run| - 1]);
    }
  }

  /** So its state is sound and tidy: owners kept, closed companies empty, current companies exact, joiners in a company. */
  lemma IssuedRunIsTidy(run: seq<Action>)
    requires Feasible(START, run) && IssuedRun(run)
    ensures Sound(Run(START, run).db) && Tidy(Run(START, run).db)
  {
    IssuedRunIsTimely(run);
    StartTidy();
    RunTidy(START, run);
  }
}
