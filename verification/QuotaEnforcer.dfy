/** The quota reconciler as it runs: the counts of every owner read once, then one owner after the other. */
module QuotaEnforcer {
  import opened Prelude
  import opened QuotaLaws

  type UserId = nat

  datatype Account = Account(plan: Option<string>, checks: seq<Owned>)

  datatype OwnerRow = OwnerRow(user: UserId, plan: Option<string>, activeChecks: nat, pausedByQuota: nat)

  datatype Totals = Totals(paused: nat, resumed: nat, accounts: nat)

  type Accounts = map<UserId, Account>

  /** One row per account that owns a check, with what it is using. */
  ghost predicate IsCount(accounts: Accounts, rows: seq<OwnerRow>) {
    && (forall i, j :: 0 <= i < j < |rows| ==> rows[i].user != rows[j].user)
    && (forall u <- accounts :: accounts[u].checks != [] ==> exists i :: 0 <= i < |rows| && rows[i].user == u)
    && (forall row <- rows :: row.user in accounts && row == RowFor(accounts, row.user))
  }

  function RowFor(accounts: Accounts, u: UserId): OwnerRow
    requires u in accounts
  {
    var active := Active(accounts[u].checks);
    OwnerRow(u, accounts[u].plan, active, |accounts[u].checks| - active)
  }

  function Stops(row: OwnerRow, limit: Option<nat>): nat {
    if limit.Some? && row.activeChecks > limit.value then row.activeChecks - limit.value else 0
  }

  /** What is given back: everything without a ceiling, and otherwise what fits of what quota paused. */
  function Resumes(row: OwnerRow, limit: Option<nat>): nat {
    if limit.None? then row.pausedByQuota
    else if row.activeChecks >= limit.value then 0
    else Min(limit.value - row.activeChecks, row.pausedByQuota)
  }

  function Plus(t: Totals, stopped: nat, revived: nat): Totals {
    Totals(t.paused + stopped, t.resumed + revived, t.accounts + if stopped + revived > 0 then 1 else 0)
  }

  class QuotaEnforcerService {
    const enabled: bool
    const plans: map<string, Option<nat>>
    var accounts: Accounts

    constructor (enabled: bool, plans: map<string, Option<nat>>, accounts: Accounts)
      ensures this.enabled == enabled && this.plans == plans && this.accounts == accounts
    {
      this.enabled, this.plans, this.accounts := enabled, plans, accounts;
    }

    method OwnersWithChecks() returns (rows: seq<OwnerRow>)
      ensures IsCount(accounts, rows)
    {
      var owners := List(set u | u in accounts && accounts[u].checks != []);
      rows := [];
      for i := 0 to |owners|
        invariant |rows| == i
        invariant forall j :: 0 <= j < i ==> owners[j] in accounts && rows[j] == RowFor(accounts, owners[j])
      {
        assert owners[i] in Elements(owners);
        rows := rows + [RowFor(accounts, owners[i])];
      }
      forall u <- accounts | accounts[u].checks != []
        ensures exists i :: 0 <= i < |rows| && rows[i].user == u
      {
        assert u in Elements(owners);
        var i :| 0 <= i < |owners| && owners[i] == u;
        assert rows[i].user == u;
      }
    }

    method PauseExcess(user: UserId, count: nat) returns (stopped: nat)
      requires user in accounts
      modifies this
      ensures var before := old(accounts)[user];
              && accounts == old(accounts)[user := before.(checks := PauseNewest(before.checks, count))]
              && stopped == Min(count, Active(before.checks))
    {
      var before := accounts[user];
      stopped := Min(count, Active(before.checks));
      accounts := accounts[user := before.(checks := PauseNewest(before.checks, count))];
    }

    method Resume(user: UserId, room: int) returns (revived: nat)
      requires user in accounts
      modifies this
      ensures var before := old(accounts)[user];
              && accounts == old(accounts)[user := before.(checks := ResumeOldest(before.checks, Max(0, room)))]
              && revived == Min(Max(0, room), |before.checks| - Active(before.checks))
    {
      var before := accounts[user];
      NothingToResume(before.checks, 0);
      if room <= 0 {
        assert accounts == accounts[user := before.(checks := ResumeOldest(before.checks, 0))];
        return 0;
      }
      revived := Min(room, |before.checks| - Active(before.checks));
      accounts := accounts[user := before.(checks := ResumeOldest(before.checks, room))];
    }

    /** An owner's turn, on the counts that were read before the first one. */
    method ReconcileOwner(owner: OwnerRow) returns (stopped: nat, revived: nat)
      requires owner.user in accounts && owner == RowFor(accounts, owner.user)
      modifies this
      ensures var before := old(accounts)[owner.user];
              var limit := LimitFor(enabled, owner.plan, plans);
              && accounts == old(accounts)[owner.user := before.(checks := Reconciled(before.checks, limit))]
              && stopped == Stops(owner, limit) && revived == Resumes(owner, limit)
      ensures enabled ==> MeetsPlan(old(accounts)[owner.user].checks, accounts[owner.user].checks, owner.plan, plans)
      ensures var before, after := old(accounts)[owner.user].checks, accounts[owner.user].checks;
              stopped == |NewlyStopped(before, after)| && revived == |NewlyRevived(before, after)|
    {
      TurnDoes(accounts, owner.user, enabled, plans);
      stopped, revived := 0, 0;
      var checks := accounts[owner.user].checks;
      var limit := LimitFor(enabled, owner.plan, plans);
      if limit.None? {
        // More room than there is anything to give back.
        revived := Resume(owner.user, |checks|);
        return;
      }
      if owner.activeChecks > limit.value {
        stopped := PauseExcess(owner.user, owner.activeChecks - limit.value);
      } else if owner.pausedByQuota > 0 {
        revived := Resume(owner.user, limit.value - owner.activeChecks);
      } else {
        assert Reconciled(checks, limit) == checks;
        assert accounts == accounts[owner.user := accounts[owner.user].(checks := checks)];
      }
    }

    /**
     * One pass. Every account ends where its plan puts it, nothing but what quota may touch has changed, and the totals
     * say how many checks of how many accounts that took.
     */
    method Reconcile() returns (totals: Totals)
      modifies this
      ensures !enabled ==> accounts == old(accounts) && totals == Totals(0, 0, 0)
      ensures enabled ==> Passed(old(accounts), accounts, plans)
      ensures enabled ==> AllMeetTheirPlans(old(accounts), accounts, plans)
      ensures totals == Tally(old(accounts), accounts)
    {
      totals := Totals(0, 0, 0);
      NothingTallied(accounts);
      if !enabled {
        return;
      }
      var owners := OwnersWithChecks();
      ghost var before := accounts;
      for i := 0 to |owners|
        invariant Partly(before, accounts, owners, i, plans)
        invariant totals == Tally(before, accounts)
      {
        var owner := owners[i];
        NotYet(before, accounts, owners, i, plans);
        ghost var sofar := accounts;
        var stopped, revived := ReconcileOwner(owner);
        OneMore(before, sofar, owners, i, plans);
        PassCounts(before[owner.user].checks, LimitFor(true, owner.plan, plans));
        OneMoreTallied(before, sofar, owner.user, accounts[owner.user]);
        totals := Plus(totals, stopped, revived);
      }
      AllDone(before, accounts, owners, plans);
      PassedMeetPlans(before, accounts, plans);
    }
  }

  /** What a turn comes to, in the columns of the rows. */
  lemma TurnDoes(accounts: Accounts, u: UserId, enabled: bool, plans: map<string, Option<nat>>)
    requires u in accounts
    ensures var s, limit := accounts[u].checks, LimitFor(enabled, accounts[u].plan, plans);
            var t := Reconciled(s, limit);
            && (enabled ==> MeetsPlan(s, t, accounts[u].plan, plans))
            && Stops(RowFor(accounts, u), limit) == |NewlyStopped(s, t)|
            && Resumes(RowFor(accounts, u), limit) == |NewlyRevived(s, t)|
  {
    PassMeetsItsPlan(accounts[u].checks, accounts[u].plan, plans);
    PassCounts(accounts[u].checks, LimitFor(enabled, accounts[u].plan, plans));
  }

  // ---- The totals ------------------------------------------------------------------------------------------------

  ghost function StoppedIn(before: Accounts, after: Accounts): set<(UserId, nat)> {
    set u, i: nat | u in before && u in after && i < |before[u].checks| && i < |after[u].checks|
                    && !before[u].checks[i].quotaPaused && after[u].checks[i].quotaPaused :: (u, i)
  }

  ghost function RevivedIn(before: Accounts, after: Accounts): set<(UserId, nat)> {
    set u, i: nat | u in before && u in after && i < |before[u].checks| && i < |after[u].checks|
                    && before[u].checks[i].quotaPaused && !after[u].checks[i].quotaPaused :: (u, i)
  }

  /** How many checks quota paused and gave back between two states, and in how many accounts. */
  ghost function Tally(before: Accounts, after: Accounts): Totals {
    Totals(|StoppedIn(before, after)|, |RevivedIn(before, after)|,
           |Touched(before, after)|)
  }

  ghost function Touched(before: Accounts, after: Accounts): set<UserId> {
    set u | u in before && u in after && after[u] != before[u]
  }

  lemma NothingTallied(accounts: Accounts)
    ensures Tally(accounts, accounts) == Totals(0, 0, 0)
  {
    assert StoppedIn(accounts, accounts) == {} && RevivedIn(accounts, accounts) == {};
    assert Touched(accounts, accounts) == {};
  }

  ghost function Of(u: UserId, s: set<nat>): set<(UserId, nat)> {
    set i | i in s :: (u, i)
  }

  lemma {:induction false} OfCard(u: UserId, s: set<nat>)
    ensures |Of(u, s)| == |s|
  {
    if s == {} {
      assert Of(u, s) == {};
    } else {
      var x :| x in s;
      OfCard(u, s - {x});
      assert Of(u, s) == Of(u, s - {x}) + {(u, x)};
    }
  }

  lemma OneMoreStopped(before: Accounts, sofar: Accounts, u: UserId, a: Account)
    requires u in before && u in sofar && sofar[u] == before[u]
    ensures |StoppedIn(before, sofar[u := a])| == |StoppedIn(before, sofar)| + |NewlyStopped(before[u].checks, a.checks)|
  {
    var one := Of(u, NewlyStopped(before[u].checks, a.checks));
    OfCard(u, NewlyStopped(before[u].checks, a.checks));
    assert StoppedIn(before, sofar[u := a]) == StoppedIn(before, sofar) + one;
    CardUnion(StoppedIn(before, sofar), one);
  }

  lemma OneMoreRevived(before: Accounts, sofar: Accounts, u: UserId, a: Account)
    requires u in before && u in sofar && sofar[u] == before[u]
    ensures |RevivedIn(before, sofar[u := a])| == |RevivedIn(before, sofar)| + |NewlyRevived(before[u].checks, a.checks)|
  {
    var one := Of(u, NewlyRevived(before[u].checks, a.checks));
    OfCard(u, NewlyRevived(before[u].checks, a.checks));
    assert RevivedIn(before, sofar[u := a]) == RevivedIn(before, sofar) + one;
    CardUnion(RevivedIn(before, sofar), one);
  }

  lemma OneMoreTallied(before: Accounts, sofar: Accounts, u: UserId, a: Account)
    requires u in before && u in sofar && sofar[u] == before[u] && a.plan == before[u].plan
    requires a.checks == before[u].checks
        <==> NewlyStopped(before[u].checks, a.checks) == {} && NewlyRevived(before[u].checks, a.checks) == {}
    ensures Tally(before, sofar[u := a])
         == Plus(Tally(before, sofar), |NewlyStopped(before[u].checks, a.checks)|, |NewlyRevived(before[u].checks, a.checks)|)
  {
    OneMoreStopped(before, sofar, u, a);
    OneMoreRevived(before, sofar, u, a);
    OneMoreTouched(before, sofar, u, a);
    var stopped, revived := NewlyStopped(before[u].checks, a.checks), NewlyRevived(before[u].checks, a.checks);
    assert a == before[u] <==> a.checks == before[u].checks;
    assert |stopped| + |revived| > 0 <==> stopped != {} || revived != {};
  }

  lemma OneMoreTouched(before: Accounts, sofar: Accounts, u: UserId, a: Account)
    requires u in before && u in sofar && sofar[u] == before[u]
    ensures |Touched(before, sofar[u := a])| == |Touched(before, sofar)| + if a != before[u] then 1 else 0
  {
    assert u !in Touched(before, sofar);
    assert Touched(before, sofar[u := a]) == Touched(before, sofar) + if a != before[u] then {u} else {};
  }

  ghost predicate AllMeetTheirPlans(before: Accounts, after: Accounts, plans: map<string, Option<nat>>) {
    && after.Keys == before.Keys
    && forall u <- before ::
         after[u].plan == before[u].plan && MeetsPlan(before[u].checks, after[u].checks, before[u].plan, plans)
  }

  lemma PassedMeetPlans(before: Accounts, after: Accounts, plans: map<string, Option<nat>>)
    requires Passed(before, after, plans)
    ensures AllMeetTheirPlans(before, after, plans)
  {
    forall u <- before
      ensures MeetsPlan(before[u].checks, after[u].checks, before[u].plan, plans)
    {
      PassMeetsItsPlan(before[u].checks, before[u].plan, plans);
    }
  }

  /** Every account is where its plan puts it. */
  ghost predicate Passed(before: Accounts, after: Accounts, plans: map<string, Option<nat>>) {
    after.Keys == before.Keys && forall u <- before :: after[u] == AfterPass(before[u], plans)
  }

  function AfterPass(a: Account, plans: map<string, Option<nat>>): Account {
    a.(checks := Reconciled(a.checks, LimitFor(true, a.plan, plans)))
  }

  /** The first `n` owners had their turn. */
  ghost predicate Partly(before: Accounts, after: Accounts, owners: seq<OwnerRow>, n: nat,
          plans: map<string, Option<nat>>)
    requires n <= |owners|
  {
    && after.Keys == before.Keys
    && forall u <- before :: after[u] == if Among(owners, n, u) then AfterPass(before[u], plans) else before[u]
  }

  ghost predicate Among(owners: seq<OwnerRow>, n: nat, u: UserId)
    requires n <= |owners|
  {
    exists j :: 0 <= j < n && owners[j].user == u
  }

  lemma NotYet(before: Accounts, after: Accounts, owners: seq<OwnerRow>, n: nat, plans: map<string, Option<nat>>)
    requires n < |owners| && IsCount(before, owners) && Partly(before, after, owners, n, plans)
    ensures owners[n].user in after && after[owners[n].user] == before[owners[n].user]
    ensures owners[n] == RowFor(after, owners[n].user)
  {
    assert owners[n] in owners;
    assert !Among(owners, n, owners[n].user);
  }

  lemma OneMore(before: Accounts, sofar: Accounts, owners: seq<OwnerRow>, n: nat, plans: map<string, Option<nat>>)
    requires n < |owners| && IsCount(before, owners) && Partly(before, sofar, owners, n, plans)
    requires owners[n].user in before
    ensures Partly(before, sofar[owners[n].user := AfterPass(before[owners[n].user], plans)], owners, n + 1, plans)
  {
    forall u <- before
      ensures Among(owners, n + 1, u) <==> Among(owners, n, u) || u == owners[n].user
    {
      if u == owners[n].user {
        assert owners[n].user == u;
      }
    }
  }

  lemma AllDone(before: Accounts, after: Accounts, owners: seq<OwnerRow>, plans: map<string, Option<nat>>)
    requires IsCount(before, owners) && Partly(before, after, owners, |owners|, plans)
    ensures Passed(before, after, plans)
  {
    forall u <- before
      ensures after[u] == AfterPass(before[u], plans)
    {
      if before[u].checks != [] {
        assert Among(owners, |owners|, u);
      } else {
        assert Reconciled([], LimitFor(true, before[u].plan, plans)) == [];
      }
    }
  }

  /** A second pass, undisturbed, changes nothing. */
  lemma PassingTwice(before: Accounts, once: Accounts, twice: Accounts, plans: map<string, Option<nat>>)
    requires Passed(before, once, plans) && Passed(once, twice, plans)
    ensures twice == once
  {
    forall u <- once
      ensures twice[u] == once[u]
    {
      assert u in before;
      SecondPassChangesNothing(before[u].checks, LimitFor(true, before[u].plan, plans));
    }
  }
}
