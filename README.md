# NullBox core, modelled in Dafny

NullBox is a capture-the-flag platform. Teams start instances of challenges, submit flags for
points, and compete on a leaderboard. This project models the platform's core and proves
properties of the model:

- **Instance lifecycle** (`challenge_actions.dfy`). `startChallenge` reuses the team's
  unexpired lease for a challenge, or asks the container runtime for a new instance and records
  a one-hour lease. `stopChallenge` releases the instance and only then deletes the lease row.
- **Scoring ledger** (`challenge_actions.dfy`). `submitFlag` trims the flag and compares it
  exactly. A correct flag appends one correct submission and adds the challenge's points to the
  team's score, in one step.
- **Administration** (`admin_actions.dfy`). `createChallenge` validates the form and parses
  hints (one per line) and resources (`title|url` per line). `deleteChallenge`,
  `adminStopContainer` and `resetScores` are modelled as well.
- **Teams** (`team_actions.dfy`). `createTeam` derives an eight-character upper-case hex join
  code from four random bytes. `joinTeam` moves the caller to the team with that code.
- **Leaderboard** (`leaderboard.dfy`). Teams are ranked by score, then by the time of their
  last solve. The page collects one event per correct submission, sorts the events by time, and
  replays them into a score-over-time timeline. Legend colours come from a ten-colour palette.

Supporting modules: `base.dfy` (identities, `Option`, `Reply`, sessions), `js_text.dfy` (the
JavaScript string functions the actions rely on: `trim`, `split`, `join`, `parseInt`),
`sorting.dfy` (`Array.prototype.sort` with a comparator, modelled as a stable insertion sort)
and `store.dfy` (the tables, and the `Platform` class that holds them).

The tables live in one `Platform` object. Users, teams and challenges are maps by identity.
Leases and submissions are sequences in insertion order. Each server action is a method that
changes the object. It first computes a decision from the tables alone (the `Plan…` functions),
then carries it out. A ghost `journal` on the object records the calls to the container runtime
and the lease-row writes, in order. That makes "release, then delete" a stated postcondition.
The invariant `Platform.Valid` covers referential integrity and the schema's uniqueness
constraints. Two more properties are proved preserved: `ActiveLeaseUnique` (at most one
unexpired lease per team and challenge) by every action, and `LedgerMatches` (every team's score
equals the points of its correct submissions) by every action except `deleteChallenge`, which
removes submissions without lowering any score.

Inputs the source takes from its environment are parameters here:

- the session (`Option<Session>`, `None` when not logged in);
- the clock (`now`, in milliseconds);
- the runtime's answer to a start request (`Allocation`);
- the four random bytes of a join code (`entropy`);
- the submitted form fields (strings, where an absent field reads as `""`).

## Behaviour worth knowing

The model follows the code in each case:

- An incorrect flag appends no submission row, so the submissions table records correct flags
  only, not every attempt.
- A team with no correct submissions ranks with a last-solve time of 0. Among equal scores it
  therefore ranks *first* (`Leaderboard.NoSolvesRanksFirstAmongTies`), although the comment at
  app/dashboard/leaderboard/page.tsx:39 says such teams go to the bottom.
- `deleteChallenge` deletes the challenge's submissions and lease rows. It does not release the
  instances and does not lower any team's score (`AdminActions.DeletionKeepsEarnedPoints`), so
  submissions are deleted outside a full reset and the scores stop matching them.

## Model

| member | source | states |
|---|---|---|
| JsText.TrimStart | app/actions/challenge.ts:99 | the result is the suffix of the input left after its longest white-space prefix |
| JsText.TrimEnd | app/actions/challenge.ts:99 | the result is the prefix of the input before its longest white-space suffix |
| JsText.Trim | app/actions/challenge.ts:99 | the result has no white space at either end; it is empty exactly when the input is all white space; it is no longer than the input |
| JsText.TrimPadded | app/actions/challenge.ts:99 | trimming white space + core + white space gives the core back, whenever the core has no white space at its ends |
| JsText.TrimIdempotent | app/actions/admin.ts:35 | trimming an already trimmed hint changes nothing |
| JsText.Split | app/actions/admin.ts:35 | split gives at least one piece; no piece holds the separator; joining the pieces gives the input back |
| JsText.SplitJoin | app/actions/admin.ts:35 | splitting pieces joined by the separator gives the same pieces back |
| JsText.ParseIntNumeral | app/actions/admin.ts:15 | parseInt reads an integer's decimal numeral back, after leading white space and before trailing non-digit text |
| Sorting.SortBy | app/dashboard/leaderboard/page.tsx:29 | the sorted array is a permutation of the input |
| Sorting.SortBySorted | app/dashboard/leaderboard/page.tsx:29-43 | under a consistent comparator, no element of the sorted array comes after one it should follow |
| Store.FindActive | app/actions/challenge.ts:27-33 | returns the first lease of the team and challenge with expiry after `now`; returns none exactly when no lease of the pair is unexpired |
| Store.FindLease | app/actions/admin.ts:84 | returns the position of a lease row with the identity; returns none exactly when no row has it |
| Store.RemoveAt | app/actions/challenge.ts:148 | one row is removed; the other rows are kept, in order |
| Store.LeasesWithout | app/actions/admin.ts:64 | keeps exactly the lease rows of the other challenges |
| Store.SubmissionsWithout | app/actions/admin.ts:63 | keeps exactly the submissions for the other challenges |
| Store.LeasesWithoutDistinct | app/actions/admin.ts:64 | deleting a challenge's lease rows keeps the remaining rows' identities distinct |
| Store.EarnedSplit | app/actions/admin.ts:63-66 | a team's earnings are its earnings on the deleted challenge plus its earnings on the rest |
| Store.EarnedGrow | app/actions/admin.ts:25-44 | adding a challenge changes no team's earnings |
| Store.ConsistentAddLease | app/actions/challenge.ts:49-57 | inserting a lease with a fresh identity for an existing team and challenge keeps the tables consistent |
| Store.ConsistentRemoveLease | app/actions/challenge.ts:148 | deleting a lease row keeps the tables consistent |
| Store.ConsistentAddSolve | app/actions/challenge.ts:101-115 | appending a correct submission and raising the team's score keeps the tables consistent |
| Store.ConsistentAddChallenge | app/actions/admin.ts:25-44 | inserting a challenge under a fresh identity keeps the tables consistent |
| Store.ConsistentDeleteChallenge | app/actions/admin.ts:63-66 | deleting a challenge with its submissions and lease rows keeps the tables consistent |
| Store.ConsistentResetScores | app/actions/admin.ts:104-107 | deleting every submission and zeroing every score keeps the tables consistent |
| Store.Platform.RecordSolve | app/actions/challenge.ts:101-115 | appends the correct submission under the next identity and adds the points to that team's score, together; nothing else changes |
| Store.Platform.AddChallenge | app/actions/admin.ts:25-44 | adds the challenge under the next identity, keeping the invariant and the scores' agreement with the ledger |
| Store.Platform.InsertLease | app/actions/challenge.ts:49-57 | the lease row is appended under the next identity and the write is journalled; the tables stay consistent |
| Store.Platform.DeleteLease | app/actions/challenge.ts:148 | exactly the row at the position is deleted, the others kept in order, and the deletion is journalled; the tables stay consistent |
| Store.Platform.Retire | app/actions/challenge.ts:146-148 | the runtime is told to release the row's instance, and then exactly that row is deleted, the others kept in order; the tables stay consistent |
| Store.Platform.Allocate | app/actions/challenge.ts:45 | the runtime is asked once for an instance of the image on the port; its answer is returned |
| Store.Platform.Release | app/actions/challenge.ts:147 | the runtime is told once to release the instance |
| ChallengeActions.ExposedPort | app/actions/challenge.ts:45 | the challenge's internal port when it is set and not 0; 80 when it is unset or 0; never 0 |
| ChallengeActions.PlanStart | app/actions/challenge.ts:8-45 | refuses exactly when there is no session, no challenge id, no team, or the challenge is missing or names no image; otherwise reuses the first unexpired lease of the caller's team for that challenge when there is one, and allocates, with the challenge's image and exposed port, exactly when there is none |
| ChallengeActions.NotInstancedRefused | app/actions/challenge.ts:23-24 | a missing challenge, or one without an image, is refused with "Challenge not found or invalid" |
| ChallengeActions.FindActiveAfterAllocation | app/actions/challenge.ts:27-33 | after a lease is appended for a pair that had no unexpired lease, that lease is the pair's active one until it expires |
| ChallengeActions.StartAgainReuses | app/actions/challenge.ts:27-42 | starting again before the new lease expires reuses it, with the same port and expiry |
| ChallengeActions.Provision | app/actions/challenge.ts:44-64 | the runtime is asked once for the planned image and port; a failure answers "Failed to start environment" and inserts nothing; a started instance gets one lease under the next identity, expiring an hour after `now`, whose port and expiry are the answer; at most one unexpired lease per team and challenge is kept |
| ChallengeActions.AllocationKeepsLeasesUnique | app/actions/challenge.ts:27-57 | a lease added only when its pair has none active keeps at most one unexpired lease per pair |
| ChallengeActions.StartChallenge | app/actions/challenge.ts:8-66 | a refusal or a reuse changes nothing and calls no runtime; an allocation calls the runtime once; on success it inserts one lease and answers with its port and expiry; on failure it answers "Failed to start environment" and inserts nothing |
| ChallengeActions.PlanSubmit | app/actions/challenge.ts:68-121 | awards only when the caller's team has not solved the challenge and the trimmed flag equals the challenge's flag, and awards the challenge's points |
| ChallengeActions.FlagJudged | app/actions/challenge.ts:99-121 | for a team that has not solved an existing challenge, a non-empty flag is awarded that challenge's points when its trim equals the stored flag, and is otherwise answered "Incorrect Flag" |
| ChallengeActions.SolvedMeansAlreadySolved | app/actions/challenge.ts:87-96 | once the team has a correct submission for the challenge, every flag is answered "Already solved by your team" |
| ChallengeActions.WrongFlagRefused | app/actions/challenge.ts:99-121 | a flag whose trim differs from the challenge's flag is answered "Incorrect Flag" |
| ChallengeActions.PaddedFlagAccepted | app/actions/challenge.ts:99-118 | the flag with white space around it is accepted |
| ChallengeActions.AwardKeepsLedger | app/actions/challenge.ts:101-115 | appending the correct submission and adding the challenge's points to its team keeps every score equal to the ledger's points |
| ChallengeActions.AwardKeepsSolvedOnce | app/actions/challenge.ts:87-115 | appending a correct submission for a team and challenge without one keeps one correct submission per team and challenge |
| ChallengeActions.AwardSolve | app/actions/challenge.ts:101-118 | the award appends one correct submission under the next identity and adds the challenge's points to that team's score, together; users, challenges and leases are outside what it may change; the invariants are kept |
| ChallengeActions.SubmitFlag | app/actions/challenge.ts:68-122 | a refusal writes nothing; an award writes exactly the submission and the score change; scores keep agreeing with the ledger |
| ChallengeActions.PlanStop | app/actions/challenge.ts:124-152 | stops only an unexpired lease of the caller's team for that challenge, and stops the first one whenever the caller has a team and such a lease exists; "No active container" exactly when the caller has a team and the pair has no unexpired lease |
| ChallengeActions.StopTwiceRefused | app/actions/challenge.ts:138-152 | after the stop, a second stop is refused with "No active container" |
| Store.RemovalKeepsLeasesUnique | app/actions/challenge.ts:148 | deleting a lease row keeps at most one unexpired lease per pair |
| Store.FilterKeepsLeasesUnique | app/actions/admin.ts:64 | deleting every lease row of a challenge keeps at most one unexpired lease per pair |
| ChallengeActions.StopChallenge | app/actions/challenge.ts:124-153 | with an active lease, the runtime releases the instance and then that one row is deleted; otherwise nothing changes |
| AdminActions.HintOf | app/actions/admin.ts:35 | a blank line gives no hint; any other line gives one non-empty, trimmed hint |
| AdminActions.HintLines | app/actions/admin.ts:35 | no more hints than lines, each non-empty and trimmed |
| AdminActions.HintLinesAppend | app/actions/admin.ts:35 | the hints keep the lines' order |
| AdminActions.BlankLineDropped | app/actions/admin.ts:35 | a blank line contributes nothing, wherever it stands |
| AdminActions.PaddedHint | app/actions/admin.ts:35 | a line with white space around a hint contributes the hint alone |
| AdminActions.HintLinesOfHints | app/actions/admin.ts:35 | lines that are already hints are kept as they are |
| AdminActions.HintOfHint | app/actions/admin.ts:35 | a line that is already a non-empty trimmed hint gives exactly itself |
| AdminActions.HintsRoundTrip | app/actions/admin.ts:35 | hints written one per line are parsed back unchanged |
| AdminActions.ResourceOf | app/actions/admin.ts:39-40 | a line's title and URL are never empty; each is either its default ("Resource", "#") or a trimmed field without a separator |
| AdminActions.ResourceEntry | app/actions/admin.ts:38-41 | a blank line gives no resource; any other line gives exactly the resource its fields give |
| AdminActions.ResourceLines | app/actions/admin.ts:38-41 | no more resources than lines |
| AdminActions.ResourceOfFields | app/actions/admin.ts:39-40 | a line whose first two fields are a trimmed title and URL gives exactly that resource |
| AdminActions.ResourceFields | app/actions/admin.ts:39-40 | a title and a URL joined by the separator give back that title and URL |
| AdminActions.ExtraFieldsDropped | app/actions/admin.ts:39 | fields after the second are ignored |
| AdminActions.ResourceWithoutUrl | app/actions/admin.ts:40 | a line without a separator gets URL "#" and its trimmed text as title, or "Resource" when it is blank |
| AdminActions.PaddedFields | app/actions/admin.ts:39-40 | for any line with a separator, the title is the trimmed field before the first separator and the URL the trimmed field after it, each replaced by its default when blank, whatever padding they carry and whatever follows a second separator |
| AdminActions.PaddedLine | app/actions/admin.ts:39-40 | blanks around either field are dropped: a title and a URL, each padded with the same blanks and joined by the separator, give back that title and URL |
| AdminActions.BlankTitle | app/actions/admin.ts:40 | a blank field before the separator gives title "Resource"; the URL is the field after it |
| AdminActions.BlankUrl | app/actions/admin.ts:40 | a blank field after the separator gives URL "#"; the title is the field before it |
| AdminActions.ResourceLinesAppend | app/actions/admin.ts:37-41 | the resources of two blocks of lines are those of the first block followed by those of the second |
| AdminActions.BlankResourceLineDropped | app/actions/admin.ts:38 | a blank line among others gives nothing, and the others keep their order |
| AdminActions.ResourceLineKept | app/actions/admin.ts:38-41 | a non-blank line among others gives its resource between those of the lines around it |
| AdminActions.WrittenLineEntry | app/actions/admin.ts:38-40 | the line that joins a resource's title and URL with the separator gives that resource back |
| AdminActions.WrittenLine | app/actions/admin.ts:37-40 | the line that writes a resource holds no line break and gives back that resource |
| AdminActions.WrittenLines | app/actions/admin.ts:37-40 | every written line holds no line break and gives back its resource |
| AdminActions.EntriesGiveResources | app/actions/admin.ts:38-41 | lines that each give one resource give those resources, in order |
| AdminActions.ResourcesRoundTrip | app/actions/admin.ts:37-41 | resources written one per line, title and URL joined by the separator, are parsed back unchanged |
| AdminActions.ChallengeFromForm | app/actions/admin.ts:12-43 | "Missing required fields" exactly when the title, description, category or flag is empty, or the points do not parse to a non-zero integer; otherwise the challenge carries the form's fields, parsed points, image (unset when empty), internal port (unset when empty, else what parseInt reads), hints and resources |
| AdminActions.NegativePointsAccepted | app/actions/admin.ts:15-22 | negative points, leading blanks and trailing text are accepted, and the parsed integer is stored |
| AdminActions.ZeroPointsRefused | app/actions/admin.ts:15-22 | zero points is refused as a missing field |
| AdminActions.CreateChallenge | app/actions/admin.ts:8-53 | a non-admin is refused; a bad form changes nothing; a good form adds exactly the parsed challenge under a fresh identity |
| AdminActions.Deploy | app/actions/admin.ts:12-48 | a bad form answers its error and changes nothing; a good form adds exactly the parsed challenge under the next identity; scores keep agreeing with the ledger |
| AdminActions.DeleteChallenge | app/actions/admin.ts:55-74 | the challenge's submissions and lease rows are deleted before the challenge; a missing challenge answers "Failed to delete challenge" after those deletions; users and teams are untouched; at most one unexpired lease per pair stays true |
| AdminActions.DeletionKeepsEarnedPoints | app/actions/admin.ts:63-66 | after a deletion, a team's unchanged score is what the remaining ledger credits it plus what it earned on the deleted challenge |
| AdminActions.AdminStopContainer | app/actions/admin.ts:76-97 | the row with the identity, expired or not, has its instance released and is then deleted; the answer is "Container terminated" whether or not it existed; afterwards no row has that identity, and at most one unexpired lease per pair stays true |
| AdminActions.RemovedLeaseGone | app/actions/admin.ts:84-88 | with distinct identities, deleting the row leaves none with its identity |
| AdminActions.ResetScores | app/actions/admin.ts:99-117 | every submission is deleted and every score becomes 0; leases, challenges and memberships are untouched; scores then agree with the ledger |
| TeamActions.Hex | app/actions/team.ts:17 | two lower-case hex digits per byte, high nibble first |
| TeamActions.UpperAscii | app/actions/team.ts:17 | same length; each character upper-cased by itself |
| TeamActions.UpperHexDigit | app/actions/team.ts:17 | upper-casing a lower-case hex digit gives the upper-case digit of the same value |
| TeamActions.JoinCode | app/actions/team.ts:17 | two characters per byte |
| TeamActions.JoinCodeDigits | app/actions/team.ts:17 | every character of a join code is an upper-case hex digit |
| TeamActions.JoinCodeIsUpperHex | app/actions/team.ts:17 | the join code equals the bytes' hex string upper-cased |
| TeamActions.JoinCodeRoundTrip | app/actions/team.ts:17 | the bytes can be read back from the code, so different bytes give different codes |
| TeamActions.UnhexCons | app/actions/team.ts:17 | two characters in front of a code read back as the byte their digit values make, in front of the code's bytes |
| TeamActions.JoinCodeShape | app/actions/team.ts:17 | four bytes give eight upper-case hex characters |
| TeamActions.CreateTeamRefusal | app/actions/team.ts:8-36 | "Unauthorized" without a session; the length message for a name under 3 characters; otherwise creation goes ahead exactly when the caller's user row exists and no team has the name or the code, and any refusal is the creation failure |
| TeamActions.TeamWithCode | app/actions/team.ts:47-51 | finds a team with the code, or none exactly when no team has it |
| TeamActions.TeamWithCodeUnique | app/actions/team.ts:47-49 | with unique codes, the team found is the one that has the code |
| TeamActions.CreatedTeamJoinable | app/actions/team.ts:17-27 | a team just created is found by its join code |
| TeamActions.NewTeamKeepsLedger | app/actions/team.ts:19-27 | a new team with no points keeps scores equal to the ledger |
| TeamActions.ConsistentAddTeam | app/actions/team.ts:19-27 | inserting the team and moving its creator into it keeps the tables consistent |
| TeamActions.CreateTeam | app/actions/team.ts:8-38 | on success exactly one team is added and the caller becomes its member; otherwise nothing changes |
| TeamActions.JoinTeam | app/actions/team.ts:40-64 | a known code moves the caller to that team and changes no other user; an unknown code changes nothing |
| Leaderboard.CompareTeams | app/dashboard/leaderboard/page.tsx:29-43 | negative exactly when the first team has the higher score, or the same score and an earlier last solve |
| Leaderboard.CompareTeamsIsComparator | app/dashboard/leaderboard/page.tsx:29-43 | the comparator is antisymmetric and transitive |
| Leaderboard.Rank | app/dashboard/leaderboard/page.tsx:29 | the ranking is a permutation of the teams |
| Leaderboard.RankSorted | app/dashboard/leaderboard/page.tsx:29-43 | the ranking is in comparator order |
| Leaderboard.HigherScoreRanksFirst | app/dashboard/leaderboard/page.tsx:30-33 | a higher score ranks strictly before a lower one |
| Leaderboard.EarlierLastSolveRanksFirst | app/dashboard/leaderboard/page.tsx:35-42 | with equal scores, the earlier last solve ranks strictly first |
| Leaderboard.NoSolvesRanksFirstAmongTies | app/dashboard/leaderboard/page.tsx:36-42 | with equal scores, a team without solves ranks before one whose last solve has a positive time |
| Leaderboard.PaletteDistinct | app/dashboard/leaderboard/page.tsx:100-103 | the ten palette colours are distinct |
| Leaderboard.ColoursCycle | app/dashboard/leaderboard/page.tsx:100-109 | two teams share a colour exactly when their positions differ by a multiple of ten |
| Leaderboard.TopRowLeads | app/dashboard/leaderboard/page.tsx:135-136 | rank 1 holds a top score, and ranks count up by one |
| Leaderboard.CollectEvents | app/dashboard/leaderboard/page.tsx:50-60 | the nested loop collects exactly the teams' events, team after team |
| Leaderboard.EventsOfSolves | app/dashboard/leaderboard/page.tsx:50-60 | as many events as correct submissions, each naming a listed team; with unique teams, each team's events carry exactly its solves' points |
| Leaderboard.EventsCount | app/dashboard/leaderboard/page.tsx:50-60 | as many events as correct submissions |
| Leaderboard.EventsKnown | app/dashboard/leaderboard/page.tsx:50-60 | every event names a listed team |
| Leaderboard.EventsPoints | app/dashboard/leaderboard/page.tsx:50-60 | with unique teams, each team's events carry exactly its solves' points |
| Leaderboard.PointsForPermutation | app/dashboard/leaderboard/page.tsx:62 | reordering the events does not change what they credit to any team |
| Leaderboard.CompareEvents | app/dashboard/leaderboard/page.tsx:62 | non-positive exactly when the first event is not later |
| Leaderboard.TimeOrder | app/dashboard/leaderboard/page.tsx:62 | the sorted events are a permutation of the events |
| Leaderboard.TimeOrderSorted | app/dashboard/leaderboard/page.tsx:62 | the sorted events' times never decrease |
| Leaderboard.StartingScores | app/dashboard/leaderboard/page.tsx:68-69 | one entry per team name, every one 0 |
| Leaderboard.InitScores | app/dashboard/leaderboard/page.tsx:68-69 | the loop yields the starting scores |
| Leaderboard.FindTeam | app/dashboard/leaderboard/page.tsx:81 | the first team with the identity; none exactly when no team has it |
| Leaderboard.Apply | app/dashboard/leaderboard/page.tsx:80-84 | replaying one event keeps the set of names |
| Leaderboard.CreditEvent | app/dashboard/leaderboard/page.tsx:80-84 | the scores after one event are what replaying it gives; the team is listed exactly when some listed team has the event's identity |
| Leaderboard.ReplayStep | app/dashboard/leaderboard/page.tsx:80-91 | one more event moves the scores by that event, and adds a point with its time and the new scores exactly when its team is listed |
| Leaderboard.ReplayPush | app/dashboard/leaderboard/page.tsx:79-91 | the graph built so far, extended by one more event's point when its team is listed, is the replay of one more event |
| Leaderboard.ReplayLast | app/dashboard/leaderboard/page.tsx:80-91 | when the last event's team is listed, the replay ends with a point at its time holding the scores after all events |
| Leaderboard.ScoresStep | app/dashboard/leaderboard/page.tsx:80-84 | the scores after one more event are the scores before it with that event applied |
| Leaderboard.ScoresAfter | app/dashboard/leaderboard/page.tsx:80-91 | replaying events keeps the set of names |
| Leaderboard.BuildTimeline | app/dashboard/leaderboard/page.tsx:64-97 | the loops build exactly the timeline: lead-in point, one point per event whose team is listed, closing point at `now` |
| Leaderboard.ReplayLength | app/dashboard/leaderboard/page.tsx:80-91 | when every event's team is listed, every event adds a point |
| Leaderboard.ReplayAt | app/dashboard/leaderboard/page.tsx:80-91 | the k-th replayed point has the k-th event's time and the scores after the first k+1 events |
| Leaderboard.TimelineShape | app/dashboard/leaderboard/page.tsx:71-97 | two more points than events (one if there are none); the first is a minute before the first event with every team at 0; the last is at `now` |
| Leaderboard.TimelineAt | app/dashboard/leaderboard/page.tsx:71-91 | the point after the first k events holds the scores after them, at the k-th event's time |
| Leaderboard.ScoresAfterStep | app/dashboard/leaderboard/page.tsx:80-84 | one more event adds its points to its team's name and changes no other score |
| Leaderboard.TimelineStep | app/dashboard/leaderboard/page.tsx:79-91 | each event's point is at the event's time and equals the previous point with only the event's team raised by the event's points |
| Leaderboard.ScoresAfterCredits | app/dashboard/leaderboard/page.tsx:80-84 | with unique identities and names, replay adds to each team exactly the points its events carry |
| Leaderboard.TimelineTotals | app/dashboard/leaderboard/page.tsx:50-97 | in any order of the teams' own events, the closing point shows each team with the sum of its solves' points |
| Leaderboard.TimelineInTimeOrder | app/dashboard/leaderboard/page.tsx:62-91 | with time-ordered events, the points up to the last event go forward in time, and the lead-in point is strictly first |
| Leaderboard.BuildPage | app/dashboard/leaderboard/page.tsx:28-121 | rows, graph and legend are computed from the ranked teams; the graph is shown exactly when there is at least one correct submission |
| Leaderboard.UniquePermutation | app/dashboard/leaderboard/page.tsx:29 | ranking keeps team identities and names unique |
| Leaderboard.PageEvents | app/dashboard/leaderboard/page.tsx:50-62 | the page's events all name ranked teams and are in time order |
| Leaderboard.PageTotals | app/dashboard/leaderboard/page.tsx:28-97 | with unique teams, the graph's closing point shows every team with the points of all its solves |
| Leaderboard.SpreadPoint | app/dashboard/leaderboard/page.tsx:72-76 | the written point holds every entry of the scores it spreads under its key; it holds the time under "timestamp" only when no team has that name |
| Leaderboard.TeamNamedTimestampHidesTime | app/dashboard/leaderboard/page.tsx:72-76 | with a team named "timestamp", the written lead-in point carries 0 under "timestamp" instead of its time |
| Leaderboard.ObjectStartingScores | app/dashboard/leaderboard/page.tsx:66-69 | the page's score object starts with every team name at 0 except "__proto__", which never becomes a key |
| Leaderboard.ObjectApply | app/dashboard/leaderboard/page.tsx:81-83 | replaying one event on the page's score object keeps its keys |
| Leaderboard.ObjectScoresAfter | app/dashboard/leaderboard/page.tsx:80-91 | replaying events on the page's score object keeps its keys |
| Leaderboard.ObjectStartAgrees | app/dashboard/leaderboard/page.tsx:66-69 | the page's starting object is the intended starting scores without a "__proto__" entry |
| Leaderboard.ObjectReplayAgrees | app/dashboard/leaderboard/page.tsx:80-91 | replaying on the page's object gives the intended scores without a "__proto__" entry: every other team gets exactly its intended score |
| Leaderboard.TeamNamedProtoVanishes | app/dashboard/leaderboard/page.tsx:66-97 | with a team named "__proto__", the page's closing scores have no entry for it, while the intended closing point credits it with all its solves |

## Left out

- Authentication and sessions are not modelled. The session is an input. Only `role == "admin"` is checked.
- Cache revalidation, redirects, logging and all rendering are not modelled. This covers icons, row styles, the chart and the auto-refresh.
- Concurrency is not modelled. Requests run one at a time, so check-then-act races between requests (two starts for the same team and challenge, two correct submissions of one flag) cannot occur here.
- The container runtime (`lib/docker.ts`) is not part of this model. A start request's answer is an input, and a release always returns.
- Database failures are modelled only where the source's code path reaches them: a runtime failure in `startChallenge`, a missing challenge in `deleteChallenge`, a clashing team name or code, and a missing user row. Other database errors are left out. These include "Failed to create challenge", "Failed to stop container", "Failed to reset scores" and "Failed to join team" for reasons other than a missing user row.
- The leaderboard's `take: 100` limit on fetched teams is not modelled. All teams are ranked.
- JsText.ParseInt: integers are unbounded. A JavaScript number loses precision beyond 2^53, and the database's integer column is narrower; neither limit is modelled.
- AdminActions.ChallengeFromForm: an internal port that does not parse is stored as unset. How the database treats NaN is not visible here.
- TeamActions.CreateTeamRefusal: the name length is counted in characters, not in UTF-16 code units.
- TeamActions.JoinTeam: an absent join-code field is treated as an empty code, which no team has. The source passes `null` to the lookup.
- Sorting.SortBy: teams the comparator calls equal keep the order of the fetched rows. That order is not specified, so no lemma states it.
- Leaderboard.Unique: unique team identities and names are assumed from the schema. The team-creation action refuses a taken name or code.
- Leaderboard.BuildPage: the clock (`Date.now()`) is the `now` parameter.
- Leaderboard.StartingScores: keys the scores by a map in which every team name is an ordinary key. This is the corrected behaviour; the page's object drops a team named "__proto__" (see Findings, modelled by `Leaderboard.ObjectStartingScores`).
- Leaderboard.Apply: credits a team named "__proto__" like any other, the corrected behaviour; on the page's object the update is lost (`Leaderboard.ObjectApply`).
- Leaderboard.TimelineTotals: states the corrected closing scores, which include a team named "__proto__"; the page as written shows no score for it (`Leaderboard.TeamNamedProtoVanishes`).
- Leaderboard.PageTotals: as for TimelineTotals, a team named "__proto__" has its total only in the corrected model.
- Leaderboard.SpreadPoint: spreads whatever scores it is given; the scores the page spreads never hold "__proto__", which the object-level members above capture.

## Findings

| source | as written | input that shows it | evidently intended | confidence | as-written member | corrected member |
|---|---|---|---|---|---|---|
| app/dashboard/leaderboard/page.tsx:72-76 (also 86-89, 94-97) | each graph point spreads the team scores, keyed by team name, after its `timestamp` key | a team named `timestamp` (a legal name of 9 characters): every point's `timestamp` becomes that team's score, 0 at the lead-in point, so the chart's time axis plots scores | a point's time is never overwritten by a team's score | high, not executed | Leaderboard.TeamNamedTimestampHidesTime | Leaderboard.TimelineStep |
| app/dashboard/leaderboard/page.tsx:66-69 (also 83, and the spreads at 72-76, 86-89, 94-97) | the scores are kept in a plain object literal keyed by team name | a team named `__proto__` (a legal name of 9 characters): the inherited setter ignores the 0 and every `+=`, so the object never holds that team and no graph point carries its score | every team's score is kept under its name | high, not executed | Leaderboard.TeamNamedProtoVanishes | Leaderboard.TimelineTotals |
