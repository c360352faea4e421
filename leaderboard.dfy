/**
 * The leaderboard page's computation: rank the teams (score descending, then the time of the
 * last correct submission ascending), list one event per correct submission, and replay the
 * events in time order into a step timeline of every team's cumulative score, with a zero point
 * one minute before the first event and a closing point at `now`.
 */
module Leaderboard {
  import opened Base
  import opened Sorting

  /** A correct submission as the page reads it: when it was made and what its challenge is worth. */
  datatype Solve = Solve(createdAt: int, points: int)

  /** A team row as the page's query returns it; `solves` are its correct submissions, oldest first. */
  datatype Standing = Standing(id: Id, name: string, score: int, members: nat, solves: seq<Solve>)

  datatype Event = Event(time: int, teamId: Id, points: int)

  /** A point of the score graph: a time and every team's cumulative score, keyed by team name. */
  datatype Point = Point(timestamp: int, scores: map<string, int>)

  /** How long before the first event the all-zero point is placed, in milliseconds. */
  const LeadIn := 60000

  // ------------------------------------------------------------- ranking

  /** When the team last solved something; 0 for a team that never did. */
  function LastSolveTime(t: Standing): int {
    if |t.solves| > 0 then t.solves[|t.solves| - 1].createdAt else 0
  }

  /** The ranking comparator: negative when `a` ranks before `b`. */
  function CompareTeams(a: Standing, b: Standing): (c: int)
    ensures c < 0 <==> a.score > b.score || (a.score == b.score && LastSolveTime(a) < LastSolveTime(b))
    ensures c == 0 <==> a.score == b.score && LastSolveTime(a) == LastSolveTime(b)
  {
    if b.score != a.score then b.score - a.score else LastSolveTime(a) - LastSolveTime(b)
  }

  /** The comparator is consistent, so the sort it drives is well defined. */
  lemma CompareTeamsIsComparator()
    ensures IsComparator(CompareTeams)
  {
    forall a, b, c | CompareTeams(a, b) <= 0 && CompareTeams(b, c) <= 0
      ensures CompareTeams(a, c) <= 0
    {
    }
  }

  /** The teams in rank order (the sort keeps the input order of teams the comparator calls equal). */
  function Rank(teams: seq<Standing>): (ranked: seq<Standing>)
    ensures multiset(ranked) == multiset(teams)
  {
    SortBy(teams, CompareTeams)
  }

  /** The ranked list is in comparator order. */
  lemma RankSorted(teams: seq<Standing>)
    ensures SortedBy(Rank(teams), CompareTeams)
  {
    CompareTeamsIsComparator();
    SortBySorted(teams, CompareTeams);
  }

  /** A team with a higher score ranks strictly before a team with a lower one. */
  lemma HigherScoreRanksFirst(teams: seq<Standing>, i: nat, j: nat)
    requires i < |Rank(teams)| && j < |Rank(teams)|
    requires Rank(teams)[i].score > Rank(teams)[j].score
    ensures i < j
  {
    RankSorted(teams);
  }

  /** Between equal scores, the team whose last solve came earlier ranks first. */
  lemma EarlierLastSolveRanksFirst(teams: seq<Standing>, i: nat, j: nat)
    requires i < |Rank(teams)| && j < |Rank(teams)|
    requires Rank(teams)[i].score == Rank(teams)[j].score
    requires LastSolveTime(Rank(teams)[i]) < LastSolveTime(Rank(teams)[j])
    ensures i < j
  {
    RankSorted(teams);
  }

  /**
   * A team that never solved anything counts its last solve as time 0, so it ranks BEFORE an
   * equally scored team whose last solve has a positive time.
   */
  lemma NoSolvesRanksFirstAmongTies(teams: seq<Standing>, i: nat, j: nat)
    requires i < |Rank(teams)| && j < |Rank(teams)|
    requires Rank(teams)[i].score == Rank(teams)[j].score
    requires Rank(teams)[i].solves == [] && LastSolveTime(Rank(teams)[j]) > 0
    ensures i < j
  {
    EarlierLastSolveRanksFirst(teams, i, j);
  }

  // ------------------------------------------------------------- rows and colours

  /** The graph's line colours, cycled through in rank order. */
  const Palette: seq<string> := [
    "#00ff9d", "#ff00ff", "#00eaff", "#ffff00", "#ff4d4d",
    "#9d00ff", "#ff9d00", "#00ff4d", "#4d4dff", "#ff009d"]

  /** No colour appears twice in the palette. */
  lemma PaletteDistinct()
    ensures forall a, b | 0 <= a < b < |Palette| :: Palette[a] != Palette[b]
  {
    forall a, b | 0 <= a < b < |Palette| ensures Palette[a] != Palette[b] {
      assert Palette[a][1..] != Palette[b][1..] by {
        assert Palette[a][1] != Palette[b][1] || Palette[a][2] != Palette[b][2] || Palette[a][3] != Palette[b][3]
          || Palette[a][4] != Palette[b][4] || Palette[a][5] != Palette[b][5] || Palette[a][6] != Palette[b][6];
      }
    }
  }

  datatype TeamMeta = TeamMeta(id: Id, name: string, color: string)

  /** The graph's legend: each ranked team with the palette colour of its position. */
  function Metadata(ranked: seq<Standing>): (meta: seq<TeamMeta>)
    ensures |meta| == |ranked|
    ensures forall i | 0 <= i < |meta| :: meta[i].id == ranked[i].id && meta[i].name == ranked[i].name
    ensures forall i | 0 <= i < |meta| :: meta[i].color == Palette[i % |Palette|]
  {
    seq(|ranked|, i requires 0 <= i < |ranked| => TeamMeta(ranked[i].id, ranked[i].name, Palette[i % |Palette|]))
  }

  /** Colours repeat every ten teams and never within ten. */
  lemma ColoursCycle(ranked: seq<Standing>, i: nat, j: nat)
    requires i < j < |ranked|
    ensures Metadata(ranked)[i].color == Metadata(ranked)[j].color <==> (j - i) % |Palette| == 0
  {
    var meta := Metadata(ranked);
    var a, b := i % 10, j % 10;
    CycleOfTen(i, j);
    assert meta[i].color == Palette[a] && meta[j].color == Palette[b];
    PaletteDistinct();
  }

  /** Two positions are a multiple of ten apart exactly when they have the same last digit. */
  lemma CycleOfTen(i: nat, j: nat)
    requires i <= j
    ensures (j - i) % 10 == 0 <==> i % 10 == j % 10
  {
    var d := j - i;
    assert i == 10 * (i / 10) + i % 10;
    assert j == 10 * (j / 10) + j % 10;
    assert d == 10 * (d / 10) + d % 10;
  }

  /** A row of the ranking table: its 1-based rank, the team, its member and correct-submission counts, and its score. */
  datatype Row = Row(rank: nat, name: string, members: nat, flags: nat, score: int)

  function Rows(ranked: seq<Standing>): (rows: seq<Row>)
    ensures |rows| == |ranked|
    ensures forall i | 0 <= i < |rows| ::
      rows[i] == Row(i + 1, ranked[i].name, ranked[i].members, |ranked[i].solves|, ranked[i].score)
  {
    seq(|ranked|, i requires 0 <= i < |ranked| =>
      Row(i + 1, ranked[i].name, ranked[i].members, |ranked[i].solves|, ranked[i].score))
  }

  /** The table's first row holds a top score, and ranks count up from 1 without gaps. */
  lemma TopRowLeads(teams: seq<Standing>)
    requires teams != []
    ensures Rows(Rank(teams))[0].rank == 1
    ensures forall t | t in teams :: t.score <= Rows(Rank(teams))[0].score
    ensures forall i | 0 < i < |teams| :: Rows(Rank(teams))[i].rank == Rows(Rank(teams))[i - 1].rank + 1
  {
    var ranked := Rank(teams);
    assert |ranked| == |teams| by {
      assert |multiset(ranked)| == |multiset(teams)|;
    }
    forall t | t in teams ensures t.score <= ranked[0].score {
      assert t in multiset(ranked);
      var k :| 0 <= k < |ranked| && ranked[k] == t;
      if t.score > ranked[0].score {
        HigherScoreRanksFirst(teams, k, 0);
      }
    }
  }

  // ------------------------------------------------------------- events

  /** One team's events: one per correct submission, in the team's own order. */
  function TeamEvents(t: Standing): (es: seq<Event>)
    ensures |es| == |t.solves|
    ensures forall k | 0 <= k < |es| :: es[k] == Event(t.solves[k].createdAt, t.id, t.solves[k].points)
  {
    seq(|t.solves|, k requires 0 <= k < |t.solves| => Event(t.solves[k].createdAt, t.id, t.solves[k].points))
  }

  /** Every team's events, team after team in the given order. */
  function EventsOf(teams: seq<Standing>): seq<Event> {
    if teams == [] then [] else EventsOf(teams[..|teams| - 1]) + TeamEvents(teams[|teams| - 1])
  }

  /** Walks the teams and each team's correct submissions, appending one event per submission. */
  method CollectEvents(teams: seq<Standing>) returns (events: seq<Event>)
    ensures events == EventsOf(teams)
  {
    events := [];
    for i := 0 to |teams|
      invariant events == EventsOf(teams[..i])
    {
      var team := teams[i];
      for k := 0 to |team.solves|
        invariant events == EventsOf(teams[..i]) + TeamEvents(team)[..k]
      {
        var sub := team.solves[k];
        events := events + [Event(sub.createdAt, team.id, sub.points)];
        assert TeamEvents(team)[..k + 1] == TeamEvents(team)[..k] + [TeamEvents(team)[k]];
      }
      assert teams[..i + 1][..i] == teams[..i];
      assert TeamEvents(team)[..|team.solves|] == TeamEvents(team);
    }
    assert teams[..|teams|] == teams;
  }

  function SolveCount(teams: seq<Standing>): nat {
    if teams == [] then 0 else SolveCount(teams[..|teams| - 1]) + |teams[|teams| - 1].solves|
  }

  /** The points of a list of solves, summed. */
  function SolvePoints(solves: seq<Solve>): int {
    if solves == [] then 0 else SolvePoints(solves[..|solves| - 1]) + solves[|solves| - 1].points
  }

  /** The points the events credit to the team `id`. */
  function PointsFor(events: seq<Event>, id: Id): int {
    if events == [] then 0
    else PointsFor(events[..|events| - 1], id) + (if events[|events| - 1].teamId == id then events[|events| - 1].points else 0)
  }

  function Ids(teams: seq<Standing>): set<Id> {
    set t | t in teams :: t.id
  }

  lemma {:induction false} PointsForAppend(a: seq<Event>, b: seq<Event>, id: Id)
    ensures PointsFor(a + b, id) == PointsFor(a, id) + PointsFor(b, id)
  {
    if b == [] {
      assert a + b == a;
    } else {
      assert (a + b)[..|a + b| - 1] == a + b[..|b| - 1];
      PointsForAppend(a, b[..|b| - 1], id);
    }
  }

  /** Reordering events does not change what they credit to a team. */
  lemma {:induction false} PointsForPermutation(a: seq<Event>, b: seq<Event>, id: Id)
    requires multiset(a) == multiset(b)
    ensures PointsFor(a, id) == PointsFor(b, id)
  {
    if a == [] {
      assert |b| == |multiset(b)| == 0;
    } else {
      var x := a[|a| - 1];
      assert a == a[..|a| - 1] + [x];
      assert x in multiset(b);
      var k :| 0 <= k < |b| && b[k] == x;
      RemoveMatching(a, b, k);
      PointsForPermutation(a[..|a| - 1], b[..k] + b[k + 1..], id);
      PointsForRemove(b, k, id);
    }
  }

  /** Taking the last event off `a` and a matching one off its reordering `b` leaves a reordering. */
  lemma RemoveMatching(a: seq<Event>, b: seq<Event>, k: nat)
    requires multiset(a) == multiset(b) && a != [] && k < |b| && b[k] == a[|a| - 1]
    ensures multiset(a[..|a| - 1]) == multiset(b[..k] + b[k + 1..])
  {
    var x, rest := b[k], b[..k] + b[k + 1..];
    assert a == a[..|a| - 1] + [x];
    assert multiset(a) == multiset(a[..|a| - 1]) + multiset{x};
    assert multiset(b) == multiset(b[..k]) + multiset{x} + multiset(b[k + 1..]) by {
      assert b == b[..k] + ([x] + b[k + 1..]);
    }
    assert multiset(rest) == multiset(b[..k]) + multiset(b[k + 1..]);
    assert multiset(rest) == multiset(b) - multiset{x};
    assert multiset(a[..|a| - 1]) == multiset(a) - multiset{x};
  }

  /** Taking one event out of a list takes exactly its credit out of the team's points. */
  lemma PointsForRemove(b: seq<Event>, k: nat, id: Id)
    requires k < |b|
    ensures PointsFor(b, id) == PointsFor(b[..k] + b[k + 1..], id) + (if b[k].teamId == id then b[k].points else 0)
  {
    var x := b[k];
    assert b == b[..k] + [x] + b[k + 1..];
    PointsForAppend(b[..k] + [x], b[k + 1..], id);
    PointsForAppend(b[..k], [x], id);
    PointsForAppend(b[..k], b[k + 1..], id);
    assert PointsFor([x], id) == PointsFor([], id) + (if x.teamId == id then x.points else 0) by {
      assert [x][..0] == [];
    }
  }

  lemma {:induction false} TeamEventsPoints(t: Standing, id: Id)
    ensures PointsFor(TeamEvents(t), id) == if t.id == id then SolvePoints(t.solves) else 0
    decreases |t.solves|
  {
    if t.solves != [] {
      var shorter := t.(solves := t.solves[..|t.solves| - 1]);
      TeamEventsPoints(shorter, id);
      assert TeamEvents(t)[..|TeamEvents(t)| - 1] == TeamEvents(shorter);
    } else {
      assert TeamEvents(t) == [];
    }
  }

  /** No two teams share an id or a name (the database keeps both unique). */
  ghost predicate Unique(teams: seq<Standing>) {
    forall i, j | 0 <= i < |teams| && 0 <= j < |teams| && i != j ::
      teams[i].id != teams[j].id && teams[i].name != teams[j].name
  }

  /**
   * The event list holds one event per correct submission and nothing else: as many events as
   * solves, every one naming a listed team, and each team credited with exactly its solves' points.
   */
  lemma EventsOfSolves(teams: seq<Standing>)
    ensures |EventsOf(teams)| == SolveCount(teams)
    ensures forall e | e in EventsOf(teams) :: e.teamId in Ids(teams)
    ensures Unique(teams) ==>
      forall i | 0 <= i < |teams| :: PointsFor(EventsOf(teams), teams[i].id) == SolvePoints(teams[i].solves)
  {
    EventsCount(teams);
    EventsKnown(teams);
    if Unique(teams) {
      EventsPoints(teams);
    }
  }

  lemma {:induction false} EventsCount(teams: seq<Standing>)
    ensures |EventsOf(teams)| == SolveCount(teams)
  {
    if teams != [] {
      EventsCount(teams[..|teams| - 1]);
    }
  }

  lemma {:induction false} EventsKnown(teams: seq<Standing>)
    ensures forall e | e in EventsOf(teams) :: e.teamId in Ids(teams)
  {
    if teams != [] {
      var front, last := teams[..|teams| - 1], teams[|teams| - 1];
      EventsKnown(front);
      assert Ids(teams) == Ids(front) + {last.id} by {
        assert teams == front + [last];
      }
    }
  }

  lemma {:induction false} EventsPoints(teams: seq<Standing>)
    requires Unique(teams)
    ensures forall i | 0 <= i < |teams| :: PointsFor(EventsOf(teams), teams[i].id) == SolvePoints(teams[i].solves)
  {
    if teams != [] {
      var front, last := teams[..|teams| - 1], teams[|teams| - 1];
      assert Unique(front);
      EventsPoints(front);
      EventsKnown(front);
      forall i | 0 <= i < |teams|
        ensures PointsFor(EventsOf(teams), teams[i].id) == SolvePoints(teams[i].solves)
      {
        PointsForAppend(EventsOf(front), TeamEvents(last), teams[i].id);
        TeamEventsPoints(last, teams[i].id);
        if i < |front| {
          assert front[i] == teams[i];
        } else {
          AbsentPoints(EventsOf(front), last.id);
        }
      }
    }
  }

  /** Events that never name a team credit it nothing. */
  lemma {:induction false} AbsentPoints(events: seq<Event>, id: Id)
    requires forall e | e in events :: e.teamId != id
    ensures PointsFor(events, id) == 0
  {
    if events != [] {
      AbsentPoints(events[..|events| - 1], id);
    }
  }

  /** The event comparator: by time, earliest first. */
  function CompareEvents(a: Event, b: Event): (c: int)
    ensures c <= 0 <==> a.time <= b.time
  {
    a.time - b.time
  }

  /** The events in time order; events at the same time keep their collection order. */
  function TimeOrder(events: seq<Event>): (sorted: seq<Event>)
    ensures multiset(sorted) == multiset(events)
  {
    SortBy(events, CompareEvents)
  }

  lemma TimeOrderSorted(events: seq<Event>)
    ensures forall i, j | 0 <= i < j < |TimeOrder(events)| :: TimeOrder(events)[i].time <= TimeOrder(events)[j].time
  {
    assert IsComparator(CompareEvents);
    SortBySorted(events, CompareEvents);
  }

  // ------------------------------------------------------------- timeline

  function Names(teams: seq<Standing>): set<string> {
    set t | t in teams :: t.name
  }

  /** Every listed team at zero, keyed by name. */
  function StartingScores(teams: seq<Standing>): (scores: map<string, int>)
    ensures scores.Keys == Names(teams)
    ensures forall n | n in scores :: scores[n] == 0
  {
    if teams == [] then map[]
    else
      assert teams == teams[..|teams| - 1] + [teams[|teams| - 1]];
      StartingScores(teams[..|teams| - 1])[teams[|teams| - 1].name := 0]
  }

  /** The position of the first team with this id, as `Array.prototype.find` picks it. */
  function FindTeam(teams: seq<Standing>, id: Id): (r: Option<nat>)
    ensures r.Some? ==> r.value < |teams| && teams[r.value].id == id
    ensures r.Some? ==> forall k | 0 <= k < r.value :: teams[k].id != id
    ensures r.None? <==> id !in Ids(teams)
  {
    if teams == [] then None
    else if teams[0].id == id then Some(0)
    else
      assert teams == [teams[0]] + teams[1..];
      match FindTeam(teams[1..], id)
      case None => None
      case Some(k) => Some(k + 1)
  }

  /** One event replayed: the points go to the name of the team it names; an unknown team changes nothing. */
  function Apply(teams: seq<Standing>, scores: map<string, int>, e: Event): (after: map<string, int>)
    requires Names(teams) <= scores.Keys
    ensures after.Keys == scores.Keys
  {
    match FindTeam(teams, e.teamId)
    case None => scores
    case Some(k) =>
      assert teams[k] in teams;
      scores[teams[k].name := scores[teams[k].name] + e.points]
  }

  /** The scores after replaying `events` in order from `start`. */
  function ScoresAfter(teams: seq<Standing>, events: seq<Event>, start: map<string, int>): (scores: map<string, int>)
    requires Names(teams) <= start.Keys
    ensures scores.Keys == start.Keys
  {
    if events == [] then start
    else Apply(teams, ScoresAfter(teams, events[..|events| - 1], start), events[|events| - 1])
  }

  /** The graph points the events add: one per event whose team is listed, holding the scores just after it. */
  function Replay(teams: seq<Standing>, events: seq<Event>, start: map<string, int>): seq<Point>
    requires Names(teams) <= start.Keys
  {
    if events == [] then []
    else
      var e := events[|events| - 1];
      Replay(teams, events[..|events| - 1], start)
        + (if FindTeam(teams, e.teamId).Some? then [Point(e.time, ScoresAfter(teams, events, start))] else [])
  }

  /** The score graph: an all-zero point a minute before the first event, a point per event, and a point at `now`. */
  function Timeline(teams: seq<Standing>, events: seq<Event>, now: int): seq<Point> {
    var start := StartingScores(teams);
    (if |events| > 0 then [Point(events[0].time - LeadIn, start)] else [])
      + Replay(teams, events, start)
      + [Point(now, ScoresAfter(teams, events, start))]
  }

  /** Sets every listed team's score to zero, team by team. */
  method InitScores(teams: seq<Standing>) returns (scores: map<string, int>)
    ensures scores == StartingScores(teams)
  {
    scores := map[];
    for i := 0 to |teams|
      invariant scores == StartingScores(teams[..i])
    {
      assert teams[..i + 1] == teams[..i] + [teams[i]];
      scores := scores[teams[i].name := 0];
    }
    assert teams[..|teams|] == teams;
  }

  /**
   * Builds the graph: zero every team's score, push the lead-in point, replay the events one by
   * one pushing a point after each, and push the closing point at `now`.
   */
  method BuildTimeline(teams: seq<Standing>, events: seq<Event>, now: int) returns (graph: seq<Point>)
    ensures graph == Timeline(teams, events, now)
  {
    var scores := InitScores(teams);
    ghost var start := scores;
    graph := [];
    if |events| > 0 {
      graph := graph + [Point(events[0].time - LeadIn, scores)];
    }
    ghost var lead := graph;
    for i := 0 to |events|
      invariant scores == ScoresAfter(teams, events[..i], start)
      invariant graph == lead + Replay(teams, events[..i], start)
    {
      var event := events[i];
      ReplayPush(teams, events, start, i, lead, graph);
      var listed;
      scores, listed := CreditEvent(teams, scores, event);
      if listed {
        graph := graph + [Point(event.time, scores)];
      }
    }
    assert events[..|events|] == events;
    graph := graph + [Point(now, scores)];
  }

  /** The graph built so far takes one more event as the replay does. */
  lemma ReplayPush(teams: seq<Standing>, events: seq<Event>, start: map<string, int>, i: nat, lead: seq<Point>, graph: seq<Point>)
    requires Names(teams) <= start.Keys && i < |events|
    requires graph == lead + Replay(teams, events[..i], start)
    ensures ScoresAfter(teams, events[..i + 1], start) == Apply(teams, ScoresAfter(teams, events[..i], start), events[i])
    ensures lead + Replay(teams, events[..i + 1], start)
            == graph + (if FindTeam(teams, events[i].teamId).Some?
                        then [Point(events[i].time, ScoresAfter(teams, events[..i + 1], start))] else [])
  {
    ReplayStep(teams, events, start, i);
    var pushed := if FindTeam(teams, events[i].teamId).Some?
                  then [Point(events[i].time, ScoresAfter(teams, events[..i + 1], start))] else [];
    assert lead + Replay(teams, events[..i], start) + pushed == lead + (Replay(teams, events[..i], start) + pushed);
  }

  /** One step of the replay: find the event's team and add the points to its name, if it is listed. */
  method CreditEvent(teams: seq<Standing>, scores: map<string, int>, event: Event) returns (after: map<string, int>, listed: bool)
    requires Names(teams) <= scores.Keys
    ensures after == Apply(teams, scores, event)
    ensures listed <==> event.teamId in Ids(teams)
    ensures listed <==> FindTeam(teams, event.teamId).Some?
  {
    var found := FindTeam(teams, event.teamId);
    listed := found.Some?;
    after := scores;
    if found.Some? {
      var k := found.value;
      assert teams[k] in teams;
      after := scores[teams[k].name := scores[teams[k].name] + event.points];
    }
  }

  /** Replaying one more event of `events`: the scores take that event, and a point is added when its team is listed. */
  lemma ReplayStep(teams: seq<Standing>, events: seq<Event>, start: map<string, int>, i: nat)
    requires Names(teams) <= start.Keys && i < |events|
    ensures ScoresAfter(teams, events[..i + 1], start) == Apply(teams, ScoresAfter(teams, events[..i], start), events[i])
    ensures Replay(teams, events[..i + 1], start)
            == Replay(teams, events[..i], start)
               + (if FindTeam(teams, events[i].teamId).Some?
                  then [Point(events[i].time, ScoresAfter(teams, events[..i + 1], start))] else [])
  {
    ScoresStep(teams, events, start, i);
    assert events[..i + 1][..i] == events[..i];
  }

  /** Every event names a listed team. */
  ghost predicate Known(teams: seq<Standing>, events: seq<Event>) {
    forall e | e in events :: e.teamId in Ids(teams)
  }

  lemma KnownFront(teams: seq<Standing>, events: seq<Event>)
    requires Known(teams, events) && events != []
    ensures Known(teams, events[..|events| - 1])
  {
    forall x | x in events[..|events| - 1] ensures x.teamId in Ids(teams) {
      assert x in events;
    }
  }

  /** When every event's team is listed, every event adds a point. */
  lemma {:induction false} ReplayLength(teams: seq<Standing>, events: seq<Event>, start: map<string, int>)
    requires Names(teams) <= start.Keys
    requires Known(teams, events)
    ensures |Replay(teams, events, start)| == |events|
  {
    if events != [] {
      KnownFront(teams, events);
      ReplayLength(teams, events[..|events| - 1], start);
      assert events[|events| - 1] in events;
    }
  }

  /** When every event's team is listed, the k-th replayed point is the k-th event's time and the scores just after it. */
  lemma {:induction false} ReplayAt(teams: seq<Standing>, events: seq<Event>, start: map<string, int>, k: nat)
    requires Names(teams) <= start.Keys
    requires Known(teams, events) && k < |events|
    ensures |Replay(teams, events, start)| == |events|
    ensures Replay(teams, events, start)[k] == Point(events[k].time, ScoresAfter(teams, events[..k + 1], start))
  {
    ReplayLength(teams, events, start);
    var front, e := events[..|events| - 1], events[|events| - 1];
    var last := Point(e.time, ScoresAfter(teams, events, start));
    ReplayLast(teams, events, start);
    if k < |front| {
      KnownFront(teams, events);
      ReplayAt(teams, front, start, k);
      assert front[..k + 1] == events[..k + 1] && front[k] == events[k];
      assert (Replay(teams, front, start) + [last])[k] == Replay(teams, front, start)[k];
    } else {
      assert events[..k + 1] == events && events[k] == e;
    }
  }

  /** When the last event's team is listed, the replay ends with that event's point. */
  lemma ReplayLast(teams: seq<Standing>, events: seq<Event>, start: map<string, int>)
    requires Names(teams) <= start.Keys
    requires Known(teams, events) && events != []
    ensures Replay(teams, events, start)
            == Replay(teams, events[..|events| - 1], start) + [Point(events[|events| - 1].time, ScoresAfter(teams, events, start))]
  {
    assert events[|events| - 1] in events;
  }

  /**
   * The shape of the graph when every event names a listed team: two more points than events
   * (one when there are none), a lead-in point one minute before the first event with every
   * team at zero, and a closing point at `now`.
   */
  lemma TimelineShape(teams: seq<Standing>, events: seq<Event>, now: int)
    requires Known(teams, events)
    ensures |Timeline(teams, events, now)| == if events == [] then 1 else |events| + 2
    ensures events != [] ==> Timeline(teams, events, now)[0].timestamp == events[0].time - LeadIn
    ensures events != [] ==> Timeline(teams, events, now)[0].scores.Keys == Names(teams)
    ensures events != [] ==> forall n | n in Timeline(teams, events, now)[0].scores :: Timeline(teams, events, now)[0].scores[n] == 0
    ensures Timeline(teams, events, now)[|Timeline(teams, events, now)| - 1].timestamp == now
  {
    ReplayLength(teams, events, StartingScores(teams));
  }

  /** When every event's team is listed, the point after the first k events holds the scores after them. */
  lemma TimelineAt(teams: seq<Standing>, events: seq<Event>, now: int, k: nat)
    requires Known(teams, events)
    requires k <= |events| && events != []
    ensures |Timeline(teams, events, now)| == |events| + 2
    ensures Timeline(teams, events, now)[k].scores == ScoresAfter(teams, events[..k], StartingScores(teams))
    ensures k > 0 ==> Timeline(teams, events, now)[k].timestamp == events[k - 1].time
  {
    var start := StartingScores(teams);
    var lead, replay, closing := Point(events[0].time - LeadIn, start), Replay(teams, events, start), Point(now, ScoresAfter(teams, events, start));
    ReplayLength(teams, events, start);
    var graph := [lead] + replay + [closing];
    assert Timeline(teams, events, now) == graph;
    if k == 0 {
      assert events[..0] == [];
      assert graph[0] == lead && ScoresAfter(teams, events[..0], start) == start;
    } else {
      ReplayAt(teams, events, start, k - 1);
      assert graph[k] == replay[k - 1] == Point(events[k - 1].time, ScoresAfter(teams, events[..k], start));
    }
  }

  /** `after` is `before` with `points` added to `name`'s score and every other score unchanged. */
  ghost predicate AddsTo(before: map<string, int>, after: map<string, int>, name: string, points: int) {
    name in before && after == before[name := before[name] + points]
  }

  /** Replaying one more event adds its points to its team's name and changes nothing else. */
  lemma ScoresAfterStep(teams: seq<Standing>, events: seq<Event>, start: map<string, int>, k: nat)
    requires Names(teams) <= start.Keys
    requires k < |events| && FindTeam(teams, events[k].teamId).Some?
    ensures AddsTo(ScoresAfter(teams, events[..k], start), ScoresAfter(teams, events[..k + 1], start),
      teams[FindTeam(teams, events[k].teamId).value].name, events[k].points)
  {
    ScoresStep(teams, events, start, k);
    assert teams[FindTeam(teams, events[k].teamId).value] in teams;
  }

  /** The scores after one more event are the scores before it with that event applied. */
  lemma ScoresStep(teams: seq<Standing>, events: seq<Event>, start: map<string, int>, k: nat)
    requires Names(teams) <= start.Keys && k < |events|
    ensures ScoresAfter(teams, events[..k + 1], start) == Apply(teams, ScoresAfter(teams, events[..k], start), events[k])
  {
    assert events[..k + 1][..k] == events[..k];
  }

  /**
   * Each event's point is the previous point with only the event's team changed, by the
   * event's points, and is placed at the event's time.
   */
  lemma TimelineStep(teams: seq<Standing>, events: seq<Event>, now: int, k: nat)
    requires Known(teams, events)
    requires k < |events|
    ensures events[k] in events && FindTeam(teams, events[k].teamId).Some?
    ensures
      var graph, name := Timeline(teams, events, now), teams[FindTeam(teams, events[k].teamId).value].name;
      && k + 1 < |graph|
      && graph[k + 1].timestamp == events[k].time
      && AddsTo(graph[k].scores, graph[k + 1].scores, name, events[k].points)
  {
    assert events[k] in events;
    TimelineAt(teams, events, now, k);
    TimelineAt(teams, events, now, k + 1);
    ScoresAfterStep(teams, events, StartingScores(teams), k);
  }

  /** Replaying events adds to each team exactly the points the events credit to it. */
  lemma {:induction false} ScoresAfterCredits(teams: seq<Standing>, events: seq<Event>, start: map<string, int>, i: nat)
    requires Names(teams) <= start.Keys
    requires Unique(teams) && i < |teams|
    ensures teams[i] in teams
    ensures ScoresAfter(teams, events, start)[teams[i].name] == start[teams[i].name] + PointsFor(events, teams[i].id)
  {
    assert teams[i] in teams;
    if events != [] {
      ScoresAfterCredits(teams, events[..|events| - 1], start, i);
    }
  }

  /**
   * Whatever order the events come in, as long as they are the teams' own events, the closing
   * point shows each team with the sum of its correct submissions' points.
   */
  lemma TimelineTotals(teams: seq<Standing>, events: seq<Event>, now: int, i: nat)
    requires Unique(teams) && i < |teams|
    requires multiset(events) == multiset(EventsOf(teams))
    ensures teams[i].name in Timeline(teams, events, now)[|Timeline(teams, events, now)| - 1].scores
    ensures Timeline(teams, events, now)[|Timeline(teams, events, now)| - 1].scores[teams[i].name] == SolvePoints(teams[i].solves)
  {
    var start := StartingScores(teams);
    ScoresAfterCredits(teams, events, start, i);
    PointsForPermutation(events, EventsOf(teams), teams[i].id);
    EventsOfSolves(teams);
  }

  /** With the events in time order, the graph's points up to the last event go forward in time. */
  lemma TimelineInTimeOrder(teams: seq<Standing>, events: seq<Event>, now: int, k: nat)
    requires Known(teams, events)
    requires forall i, j | 0 <= i < j < |events| :: events[i].time <= events[j].time
    requires k < |events|
    ensures |Timeline(teams, events, now)| == |events| + 2
    ensures k == 0 ==> Timeline(teams, events, now)[0].timestamp < Timeline(teams, events, now)[1].timestamp
    ensures Timeline(teams, events, now)[k].timestamp <= Timeline(teams, events, now)[k + 1].timestamp
  {
    TimelineAt(teams, events, now, k);
    TimelineAt(teams, events, now, k + 1);
  }

  // ------------------------------------------------------------- the page

  /**
   * The page's data: the ranked teams' table rows, the score graph over their events in time
   * order, the graph's legend, and whether the graph is shown (there are teams and events).
   */
  method BuildPage(rawTeams: seq<Standing>, now: int) returns (rows: seq<Row>, graph: seq<Point>, legend: seq<TeamMeta>, showGraph: bool)
    ensures rows == Rows(Rank(rawTeams))
    ensures graph == Timeline(Rank(rawTeams), TimeOrder(EventsOf(Rank(rawTeams))), now)
    ensures legend == Metadata(Rank(rawTeams))
    ensures showGraph <==> SolveCount(Rank(rawTeams)) > 0
  {
    var teams := Rank(rawTeams);
    var events := CollectEvents(teams);
    events := TimeOrder(events);
    graph := BuildTimeline(teams, events, now);
    legend := Metadata(teams);
    rows := Rows(teams);
    EventsOfSolves(teams);
    assert |events| == |multiset(events)| == |EventsOf(teams)|;
    showGraph := |teams| > 0 && |events| > 0;
  }

  lemma TwiceCounted<T>(s: seq<T>, i: nat, j: nat)
    requires i < j < |s| && s[i] == s[j]
    ensures multiset(s)[s[i]] >= 2
  {
    assert s == s[..i] + [s[i]] + s[i + 1..j] + [s[j]] + s[j + 1..];
    assert multiset(s) == multiset(s[..i]) + multiset{s[i]} + multiset(s[i + 1..j]) + multiset{s[j]} + multiset(s[j + 1..]);
  }

  lemma SecondOccurrence<T>(s: seq<T>, v: T)
    requires multiset(s)[v] >= 2
    ensures exists i, j | 0 <= i < j < |s| :: s[i] == v && s[j] == v
  {
    assert v in multiset(s);
    var i :| 0 <= i < |s| && s[i] == v;
    assert s == s[..i] + [v] + s[i + 1..];
    var rest := s[..i] + s[i + 1..];
    assert multiset(s) == multiset(s[..i]) + multiset{v} + multiset(s[i + 1..]);
    assert multiset(rest)[v] >= 1;
    assert v in rest;
    var k :| 0 <= k < |rest| && rest[k] == v;
    if k < i {
      assert s[k] == v;
    } else {
      assert s[k + 1] == v;
    }
  }

  /** Reordering the teams keeps ids and names unique. */
  lemma UniquePermutation(a: seq<Standing>, b: seq<Standing>)
    requires multiset(a) == multiset(b)
    requires Unique(a)
    ensures Unique(b)
  {
    forall i, j | 0 <= i < |b| && 0 <= j < |b| && i != j
      ensures b[i].id != b[j].id && b[i].name != b[j].name
    {
      assert b[i] in multiset(a) && b[j] in multiset(a);
      var p :| 0 <= p < |a| && a[p] == b[i];
      var q :| 0 <= q < |a| && a[q] == b[j];
      if b[i] == b[j] {
        if i < j {
          TwiceCounted(b, i, j);
        } else {
          TwiceCounted(b, j, i);
        }
        SecondOccurrence(a, b[i]);
      }
    }
  }

  /** The page's events all name ranked teams, and come in time order. */
  lemma PageEvents(rawTeams: seq<Standing>)
    ensures Known(Rank(rawTeams), TimeOrder(EventsOf(Rank(rawTeams))))
    ensures forall i, j | 0 <= i < j < |TimeOrder(EventsOf(Rank(rawTeams)))| ::
      TimeOrder(EventsOf(Rank(rawTeams)))[i].time <= TimeOrder(EventsOf(Rank(rawTeams)))[j].time
  {
    var teams := Rank(rawTeams);
    EventsOfSolves(teams);
    TimeOrderSorted(EventsOf(teams));
    forall e | e in TimeOrder(EventsOf(teams)) ensures e.teamId in Ids(teams) {
      assert e in multiset(TimeOrder(EventsOf(teams)));
    }
  }

  /** With unique ids and names, the graph's closing point shows every team with the points of all its solves. */
  lemma PageTotals(rawTeams: seq<Standing>, now: int, t: Standing)
    requires Unique(rawTeams) && t in rawTeams
    ensures
      var graph := Timeline(Rank(rawTeams), TimeOrder(EventsOf(Rank(rawTeams))), now);
      t.name in graph[|graph| - 1].scores && graph[|graph| - 1].scores[t.name] == SolvePoints(t.solves)
  {
    var teams := Rank(rawTeams);
    UniquePermutation(rawTeams, teams);
    assert t in multiset(teams);
    var i :| 0 <= i < |teams| && teams[i] == t;
    TimelineTotals(teams, TimeOrder(EventsOf(teams)), now, i);
  }

  // ------------------------------------------------------------- the graph's object keys

  /** The key the score graph reads a point's time from. */
  const TimestampKey := "timestamp"

  /**
   * A graph point as the page writes it: an object holding the time under "timestamp", with
   * every team's score spread over it under the team's name, so a later key wins.
   */
  function SpreadPoint(timestamp: int, scores: map<string, int>): (point: map<string, int>)
    ensures point.Keys == scores.Keys + {TimestampKey}
    ensures forall n | n in scores :: point[n] == scores[n]
    ensures TimestampKey !in scores ==> point[TimestampKey] == timestamp
  {
    map[TimestampKey := timestamp] + scores
  }

  /**
   * A team named "timestamp" (a legal team name) takes over the key the graph reads time from:
   * the written lead-in point carries that team's score, 0, where the time belongs.
   */
  lemma TeamNamedTimestampHidesTime(teams: seq<Standing>, events: seq<Event>, now: int, k: nat)
    requires Known(teams, events) && events != []
    requires k < |teams| && teams[k].name == TimestampKey
    ensures
      var graph := Timeline(teams, events, now);
      SpreadPoint(graph[0].timestamp, graph[0].scores)[TimestampKey] == 0
  {
    TimelineShape(teams, events, now);
    assert teams[k] in teams;
  }

  // ------------------------------------------------------------- the page's score object

  /** The key under which a plain object literal inherits the accessor for its prototype. */
  const ProtoKey := "__proto__"

  /**
   * The page's score object as JavaScript builds it. `{}` inherits an accessor for "__proto__"
   * whose setter ignores any value that is not an object, so the 0 written for a team of that
   * name is dropped and the object never gets such a key; every other name becomes a key at 0.
   */
  function ObjectStartingScores(teams: seq<Standing>): (scores: map<string, int>)
    ensures scores.Keys == Names(teams) - {ProtoKey}
    ensures forall n | n in scores :: scores[n] == 0
  {
    if teams == [] then map[]
    else
      assert teams == teams[..|teams| - 1] + [teams[|teams| - 1]];
      var before := ObjectStartingScores(teams[..|teams| - 1]);
      var name := teams[|teams| - 1].name;
      if name == ProtoKey then before else before[name := 0]
  }

  /**
   * One event replayed on the page's score object. For a team named "__proto__" the `+=` reads
   * the inherited prototype object, adds the points to it as text, and hands that text to the
   * setter, which ignores it: nothing changes.
   */
  function ObjectApply(teams: seq<Standing>, scores: map<string, int>, e: Event): (after: map<string, int>)
    requires Names(teams) - {ProtoKey} <= scores.Keys
    ensures after.Keys == scores.Keys
  {
    match FindTeam(teams, e.teamId)
    case None => scores
    case Some(k) =>
      assert teams[k] in teams;
      var name := teams[k].name;
      if name == ProtoKey then scores else scores[name := scores[name] + e.points]
  }

  /** The page's score object after replaying `events` in order from `start`. */
  function ObjectScoresAfter(teams: seq<Standing>, events: seq<Event>, start: map<string, int>): (scores: map<string, int>)
    requires Names(teams) - {ProtoKey} <= start.Keys
    ensures scores.Keys == start.Keys
  {
    if events == [] then start
    else ObjectApply(teams, ObjectScoresAfter(teams, events[..|events| - 1], start), events[|events| - 1])
  }

  /** The page's object starts with the intended scores less a "__proto__" entry. */
  lemma {:induction false} ObjectStartAgrees(teams: seq<Standing>)
    ensures ObjectStartingScores(teams) == StartingScores(teams) - {ProtoKey}
  {
    if teams != [] {
      var init := teams[..|teams| - 1];
      assert teams == init + [teams[|teams| - 1]];
      ObjectStartAgrees(init);
    }
  }

  /**
   * Replaying on the page's object gives the intended scores less a "__proto__" entry: every other
   * team gets exactly its intended score, and the only difference is that name.
   */
  lemma {:induction false} ObjectReplayAgrees(teams: seq<Standing>, events: seq<Event>, start: map<string, int>)
    requires Names(teams) <= start.Keys
    ensures ObjectScoresAfter(teams, events, start - {ProtoKey}) == ScoresAfter(teams, events, start) - {ProtoKey}
  {
    if events != [] {
      var init := events[..|events| - 1];
      ObjectReplayAgrees(teams, init, start);
      var before := ScoresAfter(teams, init, start);
      var e := events[|events| - 1];
      match FindTeam(teams, e.teamId)
      case None =>
      case Some(k) =>
        assert teams[k] in teams;
        var name := teams[k].name;
        if name != ProtoKey {
          assert (before - {ProtoKey})[name := before[name] + e.points] == before[name := before[name] + e.points] - {ProtoKey};
        }
    }
  }

  /**
   * A team named "__proto__" (a legal team name) never gets a score on the page: the closing
   * scores have no entry for it, where the intended scores credit it with all its solves.
   */
  lemma TeamNamedProtoVanishes(teams: seq<Standing>, events: seq<Event>, now: int, i: nat)
    requires Unique(teams) && i < |teams| && teams[i].name == ProtoKey
    requires multiset(events) == multiset(EventsOf(teams))
    ensures ProtoKey !in ObjectScoresAfter(teams, events, ObjectStartingScores(teams))
    ensures
      var graph := Timeline(teams, events, now);
      ProtoKey in graph[|graph| - 1].scores && graph[|graph| - 1].scores[ProtoKey] == SolvePoints(teams[i].solves)
  {
    TimelineTotals(teams, events, now, i);
    ObjectStartAgrees(teams);
    ObjectReplayAgrees(teams, events, StartingScores(teams));
  }
}
