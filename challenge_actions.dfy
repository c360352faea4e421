/**
 * The competitor-facing server actions: start an instance of a challenge for the caller's team
 * (reusing the team's live lease if there is one), submit a flag, and stop the instance.
 * Each action first decides what to do from the tables alone (the Plan functions), then does it.
 */
module ChallengeActions {
  import opened Base
  import opened Store
  import JsText

  const Unauthorized := "Unauthorized"
  const ChallengeIdRequired := "Challenge ID required"
  const NoTeamToStart := "You must be in a team to start challenges"
  const NotInstanced := "Challenge not found or invalid"
  const StartFailed := "Failed to start environment. Contact admin."
  const MissingIdOrFlag := "Missing challenge ID or flag"
  const NoTeamFound := "No team found"
  const ChallengeNotFound := "Challenge not found"
  const AlreadySolved := "Already solved by your team"
  const IncorrectFlag := "Incorrect Flag"
  const FlagCorrect := "Flag Correct! Points awarded."
  const NoTeam := "No team"
  const NoActiveContainer := "No active container"

  /** Where the team reaches its instance. */
  const Host := "localhost"

  datatype Launch = Launch(host: string, port: int, expiresAt: int)

  // ------------------------------------------------------------- start

  /** A challenge can be started when it names an image (null and "" both count as none). */
  predicate IsInstanced(c: Challenge) {
    c.imageName.Some? && c.imageName.value != ""
  }

  /** The port the instance exposes: the challenge's internal port, or 80 when it is unset or 0. */
  function ExposedPort(c: Challenge): (port: int)
    ensures port != 0
    ensures c.internalPort.Some? && c.internalPort.value != 0 ==> port == c.internalPort.value
    ensures c.internalPort.None? || c.internalPort.value == 0 ==> port == 80
  {
    if c.internalPort.Some? && c.internalPort.value != 0 then c.internalPort.value else 80
  }

  datatype StartPlan =
    | RefuseStart(message: string)
    | Reuse(lease: Lease)
    | Allocate(teamId: Id, challengeId: Id, image: string, port: int)

  /** What startChallenge decides from the tables at `now`. */
  function PlanStart(
    session: Option<Session>, challengeId: Option<Id>,
    users: map<Id, User>, teams: map<Id, Team>, challenges: map<Id, Challenge>, leases: seq<Lease>, now: int
  ): (plan: StartPlan)
    ensures plan.Reuse? ==>
      && session.Some? && challengeId.Some?
      && TeamOf(users, teams, session.value.userId) == Some(plan.lease.teamId)
      && plan.lease in leases && IsActiveFor(plan.lease, plan.lease.teamId, challengeId.value, now)
    ensures plan.Allocate? ==>
      && session.Some? && challengeId == Some(plan.challengeId)
      && TeamOf(users, teams, session.value.userId) == Some(plan.teamId)
      && plan.challengeId in challenges && challenges[plan.challengeId].imageName == Some(plan.image)
      && plan.image != "" && plan.port == ExposedPort(challenges[plan.challengeId])
      && forall i | 0 <= i < |leases| :: !IsActiveFor(leases[i], plan.teamId, plan.challengeId, now)
    ensures plan.RefuseStart? <==>
      || session.None? || challengeId.None? || TeamOf(users, teams, session.value.userId).None?
      || challengeId.value !in challenges || !IsInstanced(challenges[challengeId.value])
    ensures !plan.RefuseStart? ==>
      var found := FindActive(leases, TeamOf(users, teams, session.value.userId).value, challengeId.value, now);
      && (found.Some? ==> plan == Reuse(leases[found.value]))
      && (found.None? ==> plan.Allocate?)
  {
    if session.None? then RefuseStart(Unauthorized)
    else if challengeId.None? then RefuseStart(ChallengeIdRequired)
    else match TeamOf(users, teams, session.value.userId)
      case None => RefuseStart(NoTeamToStart)
      case Some(teamId) =>
        var cid := challengeId.value;
        if cid !in challenges || !IsInstanced(challenges[cid]) then RefuseStart(NotInstanced)
        else match FindActive(leases, teamId, cid, now)
          case Some(i) => Reuse(leases[i])
          case None => Allocate(teamId, cid, challenges[cid].imageName.value, ExposedPort(challenges[cid]))
  }

  /** A challenge that is missing or names no image is refused, whatever else holds. */
  lemma NotInstancedRefused(
    session: Session, cid: Id,
    users: map<Id, User>, teams: map<Id, Team>, challenges: map<Id, Challenge>, leases: seq<Lease>, now: int)
    requires TeamOf(users, teams, session.userId).Some?
    requires cid !in challenges || !IsInstanced(challenges[cid])
    ensures PlanStart(Some(session), Some(cid), users, teams, challenges, leases, now) == RefuseStart(NotInstanced)
  {
  }

  /** The lease that startChallenge records when the runtime answers with an instance. */
  function NewLease(id: Id, plan: StartPlan, handle: string, hostPort: int, now: int): (lease: Lease)
    requires plan.Allocate?
    ensures lease.teamId == plan.teamId && lease.challengeId == plan.challengeId
    ensures lease.expiresAt == now + LeaseMillis && lease.expiresAt > now
  {
    Lease(id, handle, hostPort, plan.teamId, plan.challengeId, now, now + LeaseMillis)
  }

  /**
   * Reuse versus allocate, sequentially: right after a lease is allocated for the pair, starting
   * again before it expires reuses that very lease, so it answers with the same port and expiry.
   */
  lemma {:induction false} StartAgainReuses(
    session: Session, cid: Id,
    users: map<Id, User>, teams: map<Id, Team>, challenges: map<Id, Challenge>, leases: seq<Lease>,
    now: int, later: int, id: Id, handle: string, hostPort: int)
    requires PlanStart(Some(session), Some(cid), users, teams, challenges, leases, now).Allocate?
    requires now <= later < now + LeaseMillis
    ensures
      var plan := PlanStart(Some(session), Some(cid), users, teams, challenges, leases, now);
      var lease := NewLease(id, plan, handle, hostPort, now);
      PlanStart(Some(session), Some(cid), users, teams, challenges, leases + [lease], later) == Reuse(lease)
  {
    var plan := PlanStart(Some(session), Some(cid), users, teams, challenges, leases, now);
    var lease := NewLease(id, plan, handle, hostPort, now);
    FindActiveAfterAllocation(leases, lease, now, later);
  }

  /** The appended lease is the first active one of its pair at any time before it expires. */
  lemma {:induction false} FindActiveAfterAllocation(leases: seq<Lease>, lease: Lease, now: int, later: int)
    requires forall i | 0 <= i < |leases| :: !IsActiveFor(leases[i], lease.teamId, lease.challengeId, now)
    requires now <= later < lease.expiresAt
    ensures FindActive(leases + [lease], lease.teamId, lease.challengeId, later) == Some(|leases|)
  {
    var all := leases + [lease];
    assert forall i | 0 <= i < |leases| :: all[i] == leases[i];
    assert all[|leases|] == lease;
  }

  /** Allocating only when the pair has no active lease keeps active leases unique, now and later. */
  lemma AllocationKeepsLeasesUnique(leases: seq<Lease>, lease: Lease, now: int, later: int)
    requires ActiveLeaseUnique(leases, now)
    requires forall i | 0 <= i < |leases| :: !IsActiveFor(leases[i], lease.teamId, lease.challengeId, now)
    requires now <= later
    ensures ActiveLeaseUnique(leases + [lease], later)
  {
    forall a, b | a in leases + [lease] && b in leases + [lease] && a.teamId == b.teamId
                  && a.challengeId == b.challengeId && a.expiresAt > later && b.expiresAt > later
      ensures a == b
    {
      if a != lease {
        var i :| 0 <= i < |leases| && leases[i] == a;
        assert !IsActiveFor(leases[i], lease.teamId, lease.challengeId, now);
      }
      if b != lease {
        var j :| 0 <= j < |leases| && leases[j] == b;
        assert !IsActiveFor(leases[j], lease.teamId, lease.challengeId, now);
      }
    }
  }

  /**
   * startChallenge. Refusals and the reuse path change nothing and do not call the runtime; the
   * allocation path calls it once and records a one-hour lease only if it answered with an instance.
   */
  method StartChallenge(p: Platform, session: Option<Session>, challengeId: Option<Id>, now: int, runtime: Allocation)
    returns (r: Reply<Launch>)
    requires p.Valid()
    modifies p`leases, p`nextId, p`journal
    ensures p.Valid()
    ensures ActiveLeaseUnique(old(p.leases), now) ==> ActiveLeaseUnique(p.leases, now)
    ensures
      var plan := old(PlanStart(session, challengeId, p.users, p.teams, p.challenges, p.leases, now));
      match plan
      case RefuseStart(message) =>
        r == Err(message) && p.leases == old(p.leases) && p.nextId == old(p.nextId) && p.journal == old(p.journal)
      case Reuse(lease) =>
        && r == Ok(Launch(Host, lease.hostPort, lease.expiresAt))
        && p.leases == old(p.leases) && p.nextId == old(p.nextId) && p.journal == old(p.journal)
        case Allocate(_, _, _, _) => Provisioned(plan, runtime, now, r, old(p.leases), p.leases, old(p.nextId), p.nextId, old(p.journal), p.journal)
  {
    var plan := PlanStart(session, challengeId, p.users, p.teams, p.challenges, p.leases, now);
    match plan
    case RefuseStart(message) =>
      r := Err(message);
    case Reuse(lease) =>
      r := Ok(Launch(Host, lease.hostPort, lease.expiresAt));
    case Allocate(_, _, _, _) =>
      r := Provision(p, plan, now, runtime);
  }

  /**
   * What the allocation path leaves behind: a failed start answers "Failed to start environment"
   * after the one runtime call; a started instance gets a lease under the next identity, whose
   * port and expiry are the answer.
   */
  ghost predicate Provisioned(
    plan: StartPlan, runtime: Allocation, now: int, r: Reply<Launch>,
    leases: seq<Lease>, leases': seq<Lease>, nextId: Id, nextId': Id, journal: seq<Step>, journal': seq<Step>)
    requires plan.Allocate?
  {
    match runtime
    case AllocationFailed =>
      && r == Err(StartFailed) && leases' == leases && nextId' == nextId
      && journal' == journal + [AllocateCall(plan.image, plan.port)]
    case Allocated(handle, hostPort) =>
      var lease := NewLease(nextId, plan, handle, hostPort, now);
      && r == Ok(Launch(Host, hostPort, lease.expiresAt))
      && leases' == leases + [lease] && nextId' == nextId + 1
      && journal' == journal + [AllocateCall(plan.image, plan.port), LeaseInserted(lease.id)]
  }

  /** The allocation path of startChallenge: one runtime call, and a lease row when it starts an instance. */
  method Provision(p: Platform, plan: StartPlan, now: int, runtime: Allocation) returns (r: Reply<Launch>)
    requires p.Valid() && plan.Allocate? && plan.teamId in p.teams && plan.challengeId in p.challenges
    requires forall i | 0 <= i < |p.leases| :: !IsActiveFor(p.leases[i], plan.teamId, plan.challengeId, now)
    modifies p`leases, p`nextId, p`journal
    ensures p.Valid()
    ensures ActiveLeaseUnique(old(p.leases), now) ==> ActiveLeaseUnique(p.leases, now)
    ensures Provisioned(plan, runtime, now, r, old(p.leases), p.leases, old(p.nextId), p.nextId, old(p.journal), p.journal)
  {
    var answer := p.Allocate(plan.image, plan.port, runtime);
    match answer
    case AllocationFailed =>
      r := Err(StartFailed);
    case Allocated(handle, hostPort) =>
      var lease := NewLease(p.nextId, plan, handle, hostPort, now);
      if ActiveLeaseUnique(p.leases, now) {
        AllocationKeepsLeasesUnique(p.leases, lease, now, now);
      }
      p.InsertLease(lease);
      r := Ok(Launch(Host, hostPort, lease.expiresAt));
  }

  // ------------------------------------------------------------- submit

  datatype SubmitPlan = RefuseSubmit(message: string) | Award(teamId: Id, challengeId: Id, points: int)

  /** What submitFlag decides from the tables. The flag is trimmed and compared exactly. */
  function PlanSubmit(
    session: Option<Session>, challengeId: Option<Id>, flag: string,
    users: map<Id, User>, teams: map<Id, Team>, challenges: map<Id, Challenge>, submissions: seq<Submission>
  ): (plan: SubmitPlan)
    ensures plan.Award? ==>
      && session.Some? && challengeId == Some(plan.challengeId)
      && TeamOf(users, teams, session.value.userId) == Some(plan.teamId)
      && plan.challengeId in challenges && plan.points == challenges[plan.challengeId].points
      && JsText.Trim(flag) == challenges[plan.challengeId].flag
      && !HasSolved(submissions, plan.teamId, plan.challengeId)
  {
    if session.None? then RefuseSubmit(Unauthorized)
    else if challengeId.None? || flag == "" then RefuseSubmit(MissingIdOrFlag)
    else match TeamOf(users, teams, session.value.userId)
      case None => RefuseSubmit(NoTeamFound)
      case Some(teamId) =>
        var cid := challengeId.value;
        if cid !in challenges then RefuseSubmit(ChallengeNotFound)
        else if HasSolved(submissions, teamId, cid) then RefuseSubmit(AlreadySolved)
        else if JsText.Trim(flag) == challenges[cid].flag then Award(teamId, cid, challenges[cid].points)
        else RefuseSubmit(IncorrectFlag)
  }

  /** Once the team has solved the challenge, every flag is answered "Already solved". */
  lemma SolvedMeansAlreadySolved(
    session: Session, cid: Id, flag: string,
    users: map<Id, User>, teams: map<Id, Team>, challenges: map<Id, Challenge>, submissions: seq<Submission>)
    requires flag != "" && cid in challenges
    requires TeamOf(users, teams, session.userId).Some?
    requires HasSolved(submissions, TeamOf(users, teams, session.userId).value, cid)
    ensures PlanSubmit(Some(session), Some(cid), flag, users, teams, challenges, submissions) == RefuseSubmit(AlreadySolved)
  {
  }

  /** A flag that differs from the stored one after trimming is refused, and the plan awards nothing. */
  lemma WrongFlagRefused(
    session: Session, cid: Id, flag: string,
    users: map<Id, User>, teams: map<Id, Team>, challenges: map<Id, Challenge>, submissions: seq<Submission>)
    requires flag != "" && cid in challenges && JsText.Trim(flag) != challenges[cid].flag
    requires TeamOf(users, teams, session.userId).Some?
    requires !HasSolved(submissions, TeamOf(users, teams, session.userId).value, cid)
    ensures PlanSubmit(Some(session), Some(cid), flag, users, teams, challenges, submissions) == RefuseSubmit(IncorrectFlag)
  {
    FlagJudged(session, cid, flag, users, teams, challenges, submissions);
  }

  /** The stored flag with white space around it is accepted: only trimming is applied. */
  lemma PaddedFlagAccepted(
    session: Session, cid: Id, lead: string, tail: string,
    users: map<Id, User>, teams: map<Id, Team>, challenges: map<Id, Challenge>, submissions: seq<Submission>)
    requires cid in challenges && challenges[cid].flag != "" && JsText.IsTrimmed(challenges[cid].flag)
    requires JsText.AllSpace(lead) && JsText.AllSpace(tail)
    requires TeamOf(users, teams, session.userId).Some?
    requires !HasSolved(submissions, TeamOf(users, teams, session.userId).value, cid)
    ensures
      var flag := lead + challenges[cid].flag + tail;
      PlanSubmit(Some(session), Some(cid), flag, users, teams, challenges, submissions)
        == Award(TeamOf(users, teams, session.userId).value, cid, challenges[cid].points)
  {
    var flag := lead + challenges[cid].flag + tail;
    JsText.TrimPadded(lead, challenges[cid].flag, tail);
    assert |flag| >= |challenges[cid].flag| > 0;
    FlagJudged(session, cid, flag, users, teams, challenges, submissions);
  }

  /** For a team that has not solved an existing challenge, a non-empty flag is judged by its trim alone. */
  lemma FlagJudged(
    session: Session, cid: Id, flag: string,
    users: map<Id, User>, teams: map<Id, Team>, challenges: map<Id, Challenge>, submissions: seq<Submission>)
    requires flag != "" && cid in challenges
    requires TeamOf(users, teams, session.userId).Some?
    requires !HasSolved(submissions, TeamOf(users, teams, session.userId).value, cid)
    ensures PlanSubmit(Some(session), Some(cid), flag, users, teams, challenges, submissions)
            == if JsText.Trim(flag) == challenges[cid].flag
               then Award(TeamOf(users, teams, session.userId).value, cid, challenges[cid].points)
               else RefuseSubmit(IncorrectFlag)
  {
  }

  /**
   * An award keeps the scores equal to the ledger: appending the correct submission and adding
   * the challenge's points to the team raises exactly that team's earnings, by those points.
   */
  lemma AwardKeepsLedger(
    teams: map<Id, Team>, challenges: map<Id, Challenge>, submissions: seq<Submission>, s: Submission)
    requires s.isCorrect && s.teamId in teams && s.challengeId in challenges
    requires LedgerMatches(teams, challenges, submissions)
    ensures LedgerMatches(AddScore(teams, s.teamId, challenges[s.challengeId].points), challenges, submissions + [s])
  {
    forall k | k in teams
      ensures Earned(submissions + [s], challenges, k)
              == Earned(submissions, challenges, k) + (if k == s.teamId then challenges[s.challengeId].points else 0)
    {
      EarnedAppend(submissions, s, challenges, k);
    }
  }

  /** Appending a correct submission for a pair that has none keeps one correct submission per pair. */
  lemma AwardKeepsSolvedOnce(submissions: seq<Submission>, s: Submission)
    requires !HasSolved(submissions, s.teamId, s.challengeId)
    requires SolvedOnce(submissions)
    ensures SolvedOnce(submissions + [s])
  {
    var submissions' := submissions + [s];
    forall i, j | 0 <= i < j < |submissions'| && submissions'[i].isCorrect && submissions'[j].isCorrect
      ensures submissions'[i].teamId != submissions'[j].teamId || submissions'[i].challengeId != submissions'[j].challengeId
    {
      if j == |submissions| {
        assert submissions'[i] == submissions[i];
      } else {
        assert submissions'[i] == submissions[i] && submissions'[j] == submissions[j];
      }
    }
  }

  /**
   * The award path of submitFlag: append one correct submission and add the challenge's points to
   * the team in one transaction, so the scores stay equal to the ledger and each pair is credited once.
   */
  method AwardSolve(p: Platform, teamId: Id, challengeId: Id, points: int, now: int)
    requires p.Valid() && teamId in p.teams && challengeId in p.challenges
    requires points == p.challenges[challengeId].points
    requires !HasSolved(p.submissions, teamId, challengeId)
    modifies p`teams, p`submissions, p`nextId
    ensures p.Valid()
    ensures p.nextId == old(p.nextId) + 1
    ensures p.submissions == old(p.submissions) + [Submission(old(p.nextId), teamId, challengeId, true, now)]
    ensures p.teams == AddScore(old(p.teams), teamId, points)
    ensures old(LedgerMatches(p.teams, p.challenges, p.submissions)) ==> LedgerMatches(p.teams, p.challenges, p.submissions)
    ensures old(SolvedOnce(p.submissions)) ==> SolvedOnce(p.submissions)
  {
    ghost var teams, submissions := p.teams, p.submissions;
    var solve := p.RecordSolve(teamId, challengeId, points, now);
    if LedgerMatches(teams, p.challenges, submissions) {
      AwardKeepsLedger(teams, p.challenges, submissions, solve);
    }
    if SolvedOnce(submissions) {
      AwardKeepsSolvedOnce(submissions, solve);
    }
  }

  /**
   * submitFlag. A refusal (including an incorrect flag) writes nothing; a correct flag is awarded.
   */
  method SubmitFlag(p: Platform, session: Option<Session>, challengeId: Option<Id>, flag: string, now: int)
    returns (r: Reply<string>)
    requires p.Valid()
    modifies p`teams, p`submissions, p`nextId
    ensures p.Valid()
    ensures old(LedgerMatches(p.teams, p.challenges, p.submissions)) ==> LedgerMatches(p.teams, p.challenges, p.submissions)
    ensures old(SolvedOnce(p.submissions)) ==> SolvedOnce(p.submissions)
    ensures
      match old(PlanSubmit(session, challengeId, flag, p.users, p.teams, p.challenges, p.submissions))
      case RefuseSubmit(message) =>
        r == Err(message) && p.teams == old(p.teams) && p.submissions == old(p.submissions) && p.nextId == old(p.nextId)
      case Award(teamId, challengeId, points) =>
        && r == Ok(FlagCorrect)
        && p.submissions == old(p.submissions) + [Submission(old(p.nextId), teamId, challengeId, true, now)]
        && p.teams == AddScore(old(p.teams), teamId, points)
        && p.nextId == old(p.nextId) + 1
  {
    var plan := PlanSubmit(session, challengeId, flag, p.users, p.teams, p.challenges, p.submissions);
    match plan
    case RefuseSubmit(message) =>
      r := Err(message);
    case Award(teamId, cid, points) =>
      AwardSolve(p, teamId, cid, points, now);
      r := Ok(FlagCorrect);
  }

  // ------------------------------------------------------------- stop

  datatype StopPlan = RefuseStop(message: string) | Stop(index: nat, lease: Lease)

  /** What stopChallenge decides from the tables at `now`. */
  function PlanStop(
    session: Option<Session>, challengeId: Option<Id>,
    users: map<Id, User>, teams: map<Id, Team>, leases: seq<Lease>, now: int
  ): (plan: StopPlan)
    ensures plan.Stop? ==>
      && session.Some? && challengeId.Some? && plan.index < |leases| && plan.lease == leases[plan.index]
      && TeamOf(users, teams, session.value.userId) == Some(plan.lease.teamId)
      && IsActiveFor(plan.lease, plan.lease.teamId, challengeId.value, now)
    ensures plan == RefuseStop(NoActiveContainer) <==>
      && session.Some? && challengeId.Some? && TeamOf(users, teams, session.value.userId).Some?
      && forall i | 0 <= i < |leases| ::
           !IsActiveFor(leases[i], TeamOf(users, teams, session.value.userId).value, challengeId.value, now)
    ensures session.Some? && challengeId.Some? && TeamOf(users, teams, session.value.userId).Some? ==>
      var found := FindActive(leases, TeamOf(users, teams, session.value.userId).value, challengeId.value, now);
      found.Some? ==> plan == Stop(found.value, leases[found.value])
  {
    if session.None? then RefuseStop(Unauthorized)
    else if challengeId.None? then RefuseStop(ChallengeIdRequired)
    else match TeamOf(users, teams, session.value.userId)
      case None => RefuseStop(NoTeam)
      case Some(teamId) =>
        match FindActive(leases, teamId, challengeId.value, now)
        case Some(i) => Stop(i, leases[i])
        case None => RefuseStop(NoActiveContainer)
  }

  /**
   * Stopping twice: once the active lease is deleted, the pair has no active lease left (active
   * leases being unique), so a second stop is refused with "No active container".
   */
  lemma {:induction false} StopTwiceRefused(
    session: Session, cid: Id, users: map<Id, User>, teams: map<Id, Team>, leases: seq<Lease>, now: int)
    requires DistinctIds(leases) && ActiveLeaseUnique(leases, now)
    requires PlanStop(Some(session), Some(cid), users, teams, leases, now).Stop?
    ensures
      var plan := PlanStop(Some(session), Some(cid), users, teams, leases, now);
      PlanStop(Some(session), Some(cid), users, teams, RemoveAt(leases, plan.index), now) == RefuseStop(NoActiveContainer)
  {
    var plan := PlanStop(Some(session), Some(cid), users, teams, leases, now);
    var i := plan.index;
    var rest := RemoveAt(leases, i);
    var teamId := plan.lease.teamId;
    forall k | 0 <= k < |rest| ensures !IsActiveFor(rest[k], teamId, cid, now) {
      var j := if k < i then k else k + 1;
      assert rest[k] == leases[j] && j != i;
      assert leases[j].id != leases[i].id;
    }
  }

  /**
   * stopChallenge. With an active lease for the caller's team, the runtime is told to release
   * the instance and only then is that one row deleted; otherwise nothing changes.
   */
  method StopChallenge(p: Platform, session: Option<Session>, challengeId: Option<Id>, now: int)
    returns (r: Reply<()>)
    requires p.Valid()
    modifies p`leases, p`journal
    ensures p.Valid()
    ensures ActiveLeaseUnique(old(p.leases), now) ==> ActiveLeaseUnique(p.leases, now)
    ensures
      match old(PlanStop(session, challengeId, p.users, p.teams, p.leases, now))
      case RefuseStop(message) =>
        r == Err(message) && p.leases == old(p.leases) && p.journal == old(p.journal)
      case Stop(i, lease) =>
        && r == Ok(())
        && p.leases == RemoveAt(old(p.leases), i)
        && p.journal == old(p.journal) + [ReleaseCall(lease.handle), LeaseDeleted(lease.id)]
  {
    var plan := PlanStop(session, challengeId, p.users, p.teams, p.leases, now);
    match plan
    case RefuseStop(message) =>
      r := Err(message);
    case Stop(i, lease) =>
      if ActiveLeaseUnique(p.leases, now) {
        RemovalKeepsLeasesUnique(p.leases, i, now);
      }
      p.Retire(i);
      r := Ok(());
  }
}
