/**
 * The tables the server actions share (users, teams, challenges, the container leases and the
 * submission ledger) and the container runtime they drive, held by one `Platform` object.
 * Every action is a sequence of steps on this object; requests are taken one at a time.
 */
module Store {
  import opened Base

  datatype Resource = Resource(title: string, url: string)

  datatype Challenge = Challenge(
    id: Id, title: string, description: string, category: string, points: int, flag: string,
    imageName: Option<string>, internalPort: Option<int>,
    hints: seq<string>, resources: seq<Resource>)

  /** A row of the container table: one running instance leased to a team for a challenge. */
  datatype Lease = Lease(
    id: Id, handle: string, hostPort: int, teamId: Id, challengeId: Id, createdAt: int, expiresAt: int)

  datatype Submission = Submission(id: Id, teamId: Id, challengeId: Id, isCorrect: bool, createdAt: int)

  datatype Team = Team(id: Id, name: string, joinCode: string, score: int)

  datatype User = User(id: Id, teamId: Option<Id>)

  /** The runtime's answer to a start request: the instance's handle and host port, or a failure. */
  datatype Allocation = Allocated(handle: string, hostPort: int) | AllocationFailed

  /** The steps of the lease lifecycle that the runtime or the container table sees, in order. */
  datatype Step =
    | AllocateCall(image: string, internalPort: int)
    | ReleaseCall(handle: string)
    | LeaseInserted(id: Id)
    | LeaseDeleted(id: Id)
    | LeasesOfChallengeDeleted(challengeId: Id)

  /** How long a lease lasts, in milliseconds: one hour. */
  const LeaseMillis: int := 60 * 60 * 1000

  // ------------------------------------------------------------- queries on the tables

  /** The team of the session's user, when the user exists and belongs to one. */
  function TeamOf(users: map<Id, User>, teams: map<Id, Team>, userId: Id): (r: Option<Id>)
    ensures r.Some? <==> userId in users && users[userId].teamId.Some? && users[userId].teamId.value in teams
    ensures r.Some? ==> r.value in teams && users[userId].teamId == r
  {
    if userId in users && users[userId].teamId.Some? && users[userId].teamId.value in teams
    then users[userId].teamId
    else None
  }

  /** A lease that belongs to the pair and has not expired at `now`. */
  predicate IsActiveFor(lease: Lease, teamId: Id, challengeId: Id, now: int) {
    lease.teamId == teamId && lease.challengeId == challengeId && lease.expiresAt > now
  }

  /** The first active lease of the pair, as the container lookup returns it. */
  function FindActive(leases: seq<Lease>, teamId: Id, challengeId: Id, now: int): (r: Option<nat>)
    ensures r.Some? ==> r.value < |leases| && IsActiveFor(leases[r.value], teamId, challengeId, now)
    ensures r.Some? ==> forall i | 0 <= i < r.value :: !IsActiveFor(leases[i], teamId, challengeId, now)
    ensures r.None? <==> forall i | 0 <= i < |leases| :: !IsActiveFor(leases[i], teamId, challengeId, now)
  {
    if leases == [] then None
    else if IsActiveFor(leases[0], teamId, challengeId, now) then Some(0)
    else match FindActive(leases[1..], teamId, challengeId, now)
      case None => None
      case Some(i) => Some(i + 1)
  }

  /** The position of the lease row with identity `id`. */
  function FindLease(leases: seq<Lease>, id: Id): (r: Option<nat>)
    ensures r.Some? ==> r.value < |leases| && leases[r.value].id == id
    ensures r.None? <==> forall i | 0 <= i < |leases| :: leases[i].id != id
  {
    if leases == [] then None
    else if leases[0].id == id then Some(0)
    else match FindLease(leases[1..], id)
      case None => None
      case Some(i) => Some(i + 1)
  }

  /** The table without row `i`. */
  function RemoveAt<T>(s: seq<T>, i: nat): (r: seq<T>)
    requires i < |s|
    ensures |r| == |s| - 1
    ensures forall k | 0 <= k < i :: r[k] == s[k]
    ensures forall k | i <= k < |r| :: r[k] == s[k + 1]
  {
    s[..i] + s[i + 1..]
  }

  /** No two rows share an identity. */
  predicate DistinctIds(leases: seq<Lease>) {
    forall i, j | 0 <= i < j < |leases| :: leases[i].id != leases[j].id
  }

  /** At most one lease per (team, challenge) pair is active at `now`. */
  ghost predicate ActiveLeaseUnique(leases: seq<Lease>, now: int) {
    forall a, b | a in leases && b in leases && a.teamId == b.teamId && a.challengeId == b.challengeId
                  && a.expiresAt > now && b.expiresAt > now :: a == b
  }

  /** Whether the team already holds a correct submission for the challenge. */
  predicate HasSolved(submissions: seq<Submission>, teamId: Id, challengeId: Id) {
    exists i | 0 <= i < |submissions| ::
      submissions[i].isCorrect && submissions[i].teamId == teamId && submissions[i].challengeId == challengeId
  }

  /** At most one correct submission per (team, challenge) pair. */
  ghost predicate SolvedOnce(submissions: seq<Submission>) {
    forall i, j | 0 <= i < j < |submissions| && submissions[i].isCorrect && submissions[j].isCorrect ::
      submissions[i].teamId != submissions[j].teamId || submissions[i].challengeId != submissions[j].challengeId
  }

  /** The points one submission is worth to `teamId`: its challenge's points when it is a correct one of the team's. */
  function Credit(s: Submission, challenges: map<Id, Challenge>, teamId: Id): int {
    if s.isCorrect && s.teamId == teamId && s.challengeId in challenges then challenges[s.challengeId].points else 0
  }

  /** The teams with `points` added to the score of `teamId`, as one update statement does it. */
  function AddScore(teams: map<Id, Team>, teamId: Id, points: int): map<Id, Team>
    requires teamId in teams
  {
    teams[teamId := teams[teamId].(score := teams[teamId].score + points)]
  }

  /** What the ledger says the team has earned: the points of its correct submissions. */
  function Earned(submissions: seq<Submission>, challenges: map<Id, Challenge>, teamId: Id): int {
    if submissions == [] then 0
    else Earned(submissions[..|submissions| - 1], challenges, teamId)
         + Credit(submissions[|submissions| - 1], challenges, teamId)
  }

  lemma EarnedAppend(submissions: seq<Submission>, s: Submission, challenges: map<Id, Challenge>, teamId: Id)
    ensures Earned(submissions + [s], challenges, teamId) == Earned(submissions, challenges, teamId) + Credit(s, challenges, teamId)
  {
    assert (submissions + [s])[..|submissions|] == submissions;
  }

  /** A team none of whose submissions are in the ledger has earned nothing. */
  lemma {:induction false} EarnedNone(submissions: seq<Submission>, challenges: map<Id, Challenge>, teamId: Id)
    requires forall i | 0 <= i < |submissions| :: submissions[i].teamId != teamId
    ensures Earned(submissions, challenges, teamId) == 0
  {
    if submissions != [] {
      EarnedNone(submissions[..|submissions| - 1], challenges, teamId);
    }
  }

  /** Every team's cached score equals what the ledger says it earned. */
  ghost predicate LedgerMatches(teams: map<Id, Team>, challenges: map<Id, Challenge>, submissions: seq<Submission>) {
    forall k | k in teams :: teams[k].score == Earned(submissions, challenges, k)
  }

  // ------------------------------------------------------------- integrity of the tables

  /** Referential integrity and the uniqueness constraints of the schema, on table values. */
  ghost predicate Consistent(
    users: map<Id, User>, teams: map<Id, Team>, challenges: map<Id, Challenge>,
    leases: seq<Lease>, submissions: seq<Submission>, nextId: Id)
  {
    && (forall k | k in users :: users[k].id == k && (users[k].teamId.Some? ==> users[k].teamId.value in teams))
    && (forall k | k in teams :: teams[k].id == k && k < nextId)
    && (forall k, k' | k in teams && k' in teams && k != k' ::
          teams[k].name != teams[k'].name && teams[k].joinCode != teams[k'].joinCode)
    && (forall k | k in challenges :: challenges[k].id == k && k < nextId)
    && (forall i | 0 <= i < |leases| ::
          leases[i].id < nextId && leases[i].teamId in teams && leases[i].challengeId in challenges)
    && DistinctIds(leases)
    && (forall i | 0 <= i < |submissions| ::
          submissions[i].id < nextId && submissions[i].teamId in teams && submissions[i].challengeId in challenges)
  }

  /** Recording a lease with a fresh identity for an existing team and challenge keeps the tables consistent. */
  lemma ConsistentAddLease(
    users: map<Id, User>, teams: map<Id, Team>, challenges: map<Id, Challenge>,
    leases: seq<Lease>, submissions: seq<Submission>, nextId: Id, lease: Lease)
    requires Consistent(users, teams, challenges, leases, submissions, nextId)
    requires lease.id == nextId && lease.teamId in teams && lease.challengeId in challenges
    ensures Consistent(users, teams, challenges, leases + [lease], submissions, nextId + 1)
  {
  }

  /** Deleting a lease row keeps the tables consistent. */
  lemma ConsistentRemoveLease(
    users: map<Id, User>, teams: map<Id, Team>, challenges: map<Id, Challenge>,
    leases: seq<Lease>, submissions: seq<Submission>, nextId: Id, i: nat)
    requires Consistent(users, teams, challenges, leases, submissions, nextId)
    requires i < |leases|
    ensures Consistent(users, teams, challenges, RemoveAt(leases, i), submissions, nextId)
  {
    var rest := RemoveAt(leases, i);
    forall a, b | 0 <= a < b < |rest| ensures rest[a].id != rest[b].id {
      var a' := if a < i then a else a + 1;
      var b' := if b < i then b else b + 1;
      assert rest[a] == leases[a'] && rest[b] == leases[b'];
    }
  }

  /** Recording a solve with a fresh identity and adding its points to the team keeps the tables consistent. */
  lemma ConsistentAddSolve(
    users: map<Id, User>, teams: map<Id, Team>, challenges: map<Id, Challenge>,
    leases: seq<Lease>, submissions: seq<Submission>, nextId: Id, s: Submission, points: int)
    requires Consistent(users, teams, challenges, leases, submissions, nextId)
    requires s.id == nextId && s.teamId in teams && s.challengeId in challenges
    ensures Consistent(users, AddScore(teams, s.teamId, points),
                       challenges, leases, submissions + [s], nextId + 1)
  {
  }

  /** Adding a challenge under a fresh identity keeps the tables consistent. */
  lemma ConsistentAddChallenge(
    users: map<Id, User>, teams: map<Id, Team>, challenges: map<Id, Challenge>,
    leases: seq<Lease>, submissions: seq<Submission>, nextId: Id, c: Challenge)
    requires Consistent(users, teams, challenges, leases, submissions, nextId)
    requires c.id == nextId
    ensures Consistent(users, teams, challenges[c.id := c], leases, submissions, nextId + 1)
  {
  }

  /** Removing a challenge together with every row that refers to it keeps the tables consistent. */
  lemma ConsistentDeleteChallenge(
    users: map<Id, User>, teams: map<Id, Team>, challenges: map<Id, Challenge>,
    leases: seq<Lease>, submissions: seq<Submission>, nextId: Id, c: Id)
    requires Consistent(users, teams, challenges, leases, submissions, nextId)
    ensures Consistent(users, teams, challenges - {c}, LeasesWithout(leases, c), SubmissionsWithout(submissions, c), nextId)
  {
    LeasesWithoutDistinct(leases, c);
    var ls := LeasesWithout(leases, c);
    forall i | 0 <= i < |ls| ensures ls[i].id < nextId && ls[i].teamId in teams && ls[i].challengeId in challenges - {c} {
      assert ls[i] in ls;
    }
    var ss := SubmissionsWithout(submissions, c);
    forall i | 0 <= i < |ss| ensures ss[i].id < nextId && ss[i].teamId in teams && ss[i].challengeId in challenges - {c} {
      assert ss[i] in ss;
    }
  }

  /** Emptying the ledger and zeroing every score keeps the tables consistent. */
  lemma ConsistentResetScores(
    users: map<Id, User>, teams: map<Id, Team>, challenges: map<Id, Challenge>,
    leases: seq<Lease>, submissions: seq<Submission>, nextId: Id)
    requires Consistent(users, teams, challenges, leases, submissions, nextId)
    ensures Consistent(users, ZeroScores(teams), challenges, leases, [], nextId)
  {
  }

  // ------------------------------------------------------------- bulk writes

  /** The container table without the rows of challenge `c`, in their order. */
  function LeasesWithout(leases: seq<Lease>, c: Id): (r: seq<Lease>)
    ensures forall x :: x in r <==> x in leases && x.challengeId != c
    ensures |r| <= |leases|
  {
    if leases == [] then []
    else
      var last := leases[|leases| - 1];
      assert leases == leases[..|leases| - 1] + [last];
      LeasesWithout(leases[..|leases| - 1], c) + (if last.challengeId == c then [] else [last])
  }

  /** Deleting a row never creates a second active lease for a pair. */
  lemma RemovalKeepsLeasesUnique(leases: seq<Lease>, i: nat, now: int)
    requires i < |leases| && ActiveLeaseUnique(leases, now)
    ensures ActiveLeaseUnique(RemoveAt(leases, i), now)
  {
    var rest := RemoveAt(leases, i);
    forall x | x in rest ensures x in leases {
      var k :| 0 <= k < |rest| && rest[k] == x;
      assert x == leases[if k < i then k else k + 1];
    }
  }

  /** Dropping the rows of a challenge never creates a second active lease for a pair. */
  lemma FilterKeepsLeasesUnique(leases: seq<Lease>, c: Id)
    ensures forall now :: ActiveLeaseUnique(leases, now) ==> ActiveLeaseUnique(LeasesWithout(leases, c), now)
  {
  }

  /** The ledger without the rows of challenge `c`, in their order. */
  function SubmissionsWithout(submissions: seq<Submission>, c: Id): (r: seq<Submission>)
    ensures forall x :: x in r <==> x in submissions && x.challengeId != c
    ensures |r| <= |submissions|
  {
    if submissions == [] then []
    else
      var last := submissions[|submissions| - 1];
      assert submissions == submissions[..|submissions| - 1] + [last];
      SubmissionsWithout(submissions[..|submissions| - 1], c) + (if last.challengeId == c then [] else [last])
  }

  /** Deleting rows keeps the remaining identities distinct. */
  lemma {:induction false} LeasesWithoutDistinct(leases: seq<Lease>, c: Id)
    requires DistinctIds(leases)
    ensures DistinctIds(LeasesWithout(leases, c))
  {
    if leases != [] {
      var init := leases[..|leases| - 1];
      var last := leases[|leases| - 1];
      LeasesWithoutDistinct(init, c);
      var r0 := LeasesWithout(init, c);
      forall i | 0 <= i < |r0| ensures r0[i].id != last.id {
        assert r0[i] in init;
        var j :| 0 <= j < |init| && init[j] == r0[i];
        assert leases[j] == r0[i];
      }
    }
  }

  /** Every team with its score set to 0. */
  function ZeroScores(teams: map<Id, Team>): (r: map<Id, Team>)
    ensures r.Keys == teams.Keys
    ensures forall k | k in r :: r[k].score == 0 && r[k] == teams[k].(score := r[k].score)
  {
    map k | k in teams :: teams[k].(score := 0)
  }

  /** The points the team earned on challenge `c` alone. */
  function EarnedOn(submissions: seq<Submission>, challenges: map<Id, Challenge>, teamId: Id, c: Id): int {
    if submissions == [] then 0
    else
      var last := submissions[|submissions| - 1];
      EarnedOn(submissions[..|submissions| - 1], challenges, teamId, c)
      + (if last.challengeId == c then Credit(last, challenges, teamId) else 0)
  }

  /**
   * What the team earned splits into what it earned on `c` and what it earned on the rest, and
   * the latter does not depend on `c`'s rows or on `c` itself.
   */
  lemma {:induction false} EarnedSplit(submissions: seq<Submission>, challenges: map<Id, Challenge>, teamId: Id, c: Id)
    ensures Earned(submissions, challenges, teamId)
            == Earned(SubmissionsWithout(submissions, c), challenges - {c}, teamId) + EarnedOn(submissions, challenges, teamId, c)
  {
    if submissions != [] {
      EarnedSplit(submissions[..|submissions| - 1], challenges, teamId, c);
      EarnedWithoutStep(submissions, challenges, teamId, c);
    }
  }

  /** The last submission adds to what the team earned on the rest exactly when it is not for `c`. */
  lemma EarnedWithoutStep(submissions: seq<Submission>, challenges: map<Id, Challenge>, teamId: Id, c: Id)
    requires submissions != []
    ensures
      var init, last := submissions[..|submissions| - 1], submissions[|submissions| - 1];
      Earned(SubmissionsWithout(submissions, c), challenges - {c}, teamId)
      == Earned(SubmissionsWithout(init, c), challenges - {c}, teamId) + (if last.challengeId == c then 0 else Credit(last, challenges, teamId))
  {
    var init, last := submissions[..|submissions| - 1], submissions[|submissions| - 1];
    var kept := SubmissionsWithout(init, c);
    if last.challengeId != c {
      assert SubmissionsWithout(submissions, c) == kept + [last];
      EarnedAppend(kept, last, challenges - {c}, teamId);
      assert Credit(last, challenges - {c}, teamId) == Credit(last, challenges, teamId);
    } else {
      assert SubmissionsWithout(submissions, c) == kept;
    }
  }

  /** A table of challenges that only grows leaves what every team earned unchanged. */
  lemma {:induction false} EarnedGrow(
    submissions: seq<Submission>, challenges: map<Id, Challenge>, challenges': map<Id, Challenge>, teamId: Id)
    requires forall i | 0 <= i < |submissions| :: submissions[i].challengeId in challenges
    requires forall k | k in challenges :: k in challenges' && challenges'[k] == challenges[k]
    ensures Earned(submissions, challenges', teamId) == Earned(submissions, challenges, teamId)
  {
    if submissions != [] {
      EarnedGrow(submissions[..|submissions| - 1], challenges, challenges', teamId);
    }
  }

  // ------------------------------------------------------------- the platform

  class Platform {
    var users: map<Id, User>
    var teams: map<Id, Team>
    var challenges: map<Id, Challenge>
    var leases: seq<Lease>
    var submissions: seq<Submission>
    /** The identity the database hands to the next row it creates. */
    var nextId: Id
    /** Calls into the container runtime and writes to the container table, in order. */
    ghost var journal: seq<Step>

    /** Referential integrity and the uniqueness constraints of the schema. */
    ghost predicate Valid()
      reads this`users, this`teams, this`challenges, this`leases, this`submissions, this`nextId
    {
      Consistent(users, teams, challenges, leases, submissions, nextId)
    }

    /** The cached team scores agree with the submission ledger. */
    ghost predicate ScoresMatchLedger()
      reads this`teams, this`challenges, this`submissions
    {
      LedgerMatches(teams, challenges, submissions)
    }

    /** A platform whose only rows are the given accounts, none of them on a team. */
    constructor (accounts: set<Id>)
      ensures Valid() && ScoresMatchLedger() && SolvedOnce(submissions)
      ensures users == map u | u in accounts :: User(u, None)
      ensures teams == map[] && challenges == map[] && leases == [] && submissions == [] && journal == []
    {
      users := map u | u in accounts :: User(u, None);
      teams, challenges := map[], map[];
      leases, submissions := [], [];
      nextId := 0;
      journal := [];
    }

    /** The database assigning the identity of a new row. */
    method NewId() returns (id: Id)
      modifies this`nextId
      ensures id == old(nextId) && nextId == id + 1
    {
      id := nextId;
      nextId := nextId + 1;
    }

    /**
     * One transaction of the persistence layer: insert a correct submission of the team for the
     * challenge and add `points` to the team's score. Both writes commit together.
     */
    method RecordSolve(teamId: Id, challengeId: Id, points: int, now: int) returns (s: Submission)
      requires Valid() && teamId in teams && challengeId in challenges
      modifies this`submissions, this`teams, this`nextId
      ensures Valid()
      ensures s == Submission(old(nextId), teamId, challengeId, true, now)
      ensures submissions == old(submissions) + [s] && nextId == old(nextId) + 1
      ensures teams == AddScore(old(teams), teamId, points)
    {
      s := Submission(nextId, teamId, challengeId, true, now);
      ConsistentAddSolve(users, teams, challenges, leases, submissions, nextId, s, points);
      submissions, teams, nextId := submissions + [s], AddScore(teams, teamId, points), nextId + 1;
    }

    /** Insert a challenge under the next identity. */
    method AddChallenge(c: Challenge)
      requires Valid() && c.id == nextId
      modifies this`challenges, this`nextId
      ensures Valid()
      ensures challenges == old(challenges)[c.id := c] && nextId == old(nextId) + 1
      ensures old(LedgerMatches(teams, challenges, submissions)) ==> LedgerMatches(teams, challenges, submissions)
    {
      ConsistentAddChallenge(users, teams, challenges, leases, submissions, nextId, c);
      forall k | k in teams ensures Earned(submissions, challenges[c.id := c], k) == Earned(submissions, challenges, k) {
        EarnedGrow(submissions, challenges, challenges[c.id := c], k);
      }
      challenges, nextId := challenges[c.id := c], nextId + 1;
    }

    /** Insert a lease row under the next identity. The write is journalled. */
    method InsertLease(lease: Lease)
      requires Valid() && lease.id == nextId && lease.teamId in teams && lease.challengeId in challenges
      modifies this`leases, this`nextId, this`journal
      ensures Valid()
      ensures leases == old(leases) + [lease] && nextId == old(nextId) + 1
      ensures journal == old(journal) + [LeaseInserted(lease.id)]
    {
      ConsistentAddLease(users, teams, challenges, leases, submissions, nextId, lease);
      leases, nextId, journal := leases + [lease], nextId + 1, journal + [LeaseInserted(lease.id)];
    }

    /** Delete the lease row at position `i`. The write is journalled. */
    method DeleteLease(i: nat)
      requires Valid() && i < |leases|
      modifies this`leases, this`journal
      ensures Valid()
      ensures leases == RemoveAt(old(leases), i)
      ensures journal == old(journal) + [LeaseDeleted(old(leases)[i].id)]
    {
      ConsistentRemoveLease(users, teams, challenges, leases, submissions, nextId, i);
      leases, journal := RemoveAt(leases, i), journal + [LeaseDeleted(leases[i].id)];
    }

    /** Stop the instance of the lease row at position `i`, then delete the row. */
    method Retire(i: nat)
      requires Valid() && i < |leases|
      modifies this`leases, this`journal
      ensures Valid()
      ensures leases == RemoveAt(old(leases), i)
      ensures journal == old(journal) + [ReleaseCall(old(leases)[i].handle), LeaseDeleted(old(leases)[i].id)]
    {
      Release(leases[i].handle);
      DeleteLease(i);
    }

    /**
     * The runtime adapter's start: create an instance of `image` exposing `internalPort` on a
     * host port of the runtime's choosing. `answer` is what the runtime does; the call is journalled.
     */
    method Allocate(image: string, internalPort: int, answer: Allocation) returns (r: Allocation)
      modifies this`journal
      ensures r == answer
      ensures journal == old(journal) + [AllocateCall(image, internalPort)]
    {
      journal := journal + [AllocateCall(image, internalPort)];
      r := answer;
    }

    /** The runtime adapter's stop. Runtime errors are swallowed, so it always returns. */
    method Release(handle: string)
      modifies this`journal
      ensures journal == old(journal) + [ReleaseCall(handle)]
    {
      journal := journal + [ReleaseCall(handle)];
    }
  }
}
