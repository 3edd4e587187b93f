/**
 * The match list (client/src/components/MatchesList.tsx): each match from the server, extended with
 * what the list shows for it, and the split into live and upcoming matches.
 */
module MatchesList {
  import opened Wrappers
  import opened Seqs
  import opened Domain
  import opened Display
  import MatchDetail

  /** `{ ...match, home, away, isLive, score, time }`. */
  datatype ListedMatch = ListedMatch(
    source: MatchValue,
    home: string,
    away: string,
    isLive: bool,
    score: string,
    time: string)

  /** `${goalsA}-${goalsB}` from `events.filter(goal for the team).length`. */
  function ListScore(m: MatchValue): string {
    ScoreText(|Filter(m.events, GoalTest(A))|, |Filter(m.events, GoalTest(B))|)
  }

  /**
   * The current minute: "Not Started" until the match is started; "1'" for a started match with no events;
   * otherwise one past the latest minute, capped at 90. `Math.max` over the raw minutes is NaN as soon as
   * one of them is not a number.
   */
  function ListClock(m: MatchValue): (c: Clock)
    ensures c == NotStarted <==> !m.started
    ensures m.started && m.events == [] ==> c == At(1)
    ensures m.started && (exists i :: 0 <= i < |m.events| && m.events[i].minute.None?) ==> c == Unknown
    ensures m.started && m.events != [] && (forall i :: 0 <= i < |m.events| ==> m.events[i].minute.Some?) ==>
      c.At? && c.minute <= 90
    ensures m.started && m.events != [] && (forall i :: 0 <= i < |m.events| ==> m.events[i].minute.Some?) ==>
      exists i :: 0 <= i < |m.events|
        && (forall j :: 0 <= j < |m.events| ==> m.events[j].minute.value <= m.events[i].minute.value)
        && c == At(CappedMinute(m.events[i].minute.value))
  {
    if !m.started then NotStarted
    else if |m.events| > 0 then
      if forall i :: 0 <= i < |m.events| ==> m.events[i].minute.Some? then
        var minutes := MinutesOf(m.events);
        var latest := MaxOf(minutes);
        assert exists k :: 0 <= k < |minutes| && minutes[k] == latest && m.events[k].minute.value == latest;
        At(CappedMinute(latest))
      else Unknown
    else At(1)
  }

  /** One element of `processedMatches`. */
  function Process(m: MatchValue): ListedMatch {
    ListedMatch(m, m.teamA, m.teamB, m.started, ListScore(m), ClockText(ListClock(m)))
  }

  function ProcessAll(ms: seq<MatchValue>): (ps: seq<ListedMatch>)
    ensures |ps| == |ms| && forall i :: 0 <= i < |ms| ==> ps[i] == Process(ms[i])
  {
    seq(|ms|, i requires 0 <= i < |ms| => Process(ms[i]))
  }

  predicate IsLive(p: ListedMatch) {
    p.isLive
  }

  predicate IsUpcoming(p: ListedMatch) {
    !p.isLive
  }

  function LiveMatches(ps: seq<ListedMatch>): seq<ListedMatch> {
    Filter(ps, IsLive)
  }

  function UpcomingMatches(ps: seq<ListedMatch>): seq<ListedMatch> {
    Filter(ps, IsUpcoming)
  }

  // ---------------------------------------------------------------------------------------------

  /** The list's score counts each team's goals, and is "0-0" for a match without events. */
  lemma ListScoreCountsGoals(m: MatchValue)
    ensures ListScore(m) == ScoreText(GoalCount(m.events, A), GoalCount(m.events, B))
    ensures m.events == [] ==> ListScore(m) == "0-0"
  {
    FilteredGoalCount(m.events, A);
    FilteredGoalCount(m.events, B);
  }

  /** The list and the detail view compute the same score from the same list of events. */
  lemma ListScoreIsDetailScore(m: MatchValue)
    ensures ListScore(m) == MatchDetail.DetailScore(m.events)
  {
    ListScoreCountsGoals(m);
    MatchDetail.DetailScoreCountsGoals(m.events);
  }

  /**
   * A goal stored without a minute splits the two views: the list counts it, while the detail view's
   * initial validity filter drops it.
   */
  lemma UntimedGoalScoresDiverge()
    ensures var goal := Event(Some(GOAL), None, Some(A), None, None, None, None);
      var m := MatchValue("1", "Home", "Away", true, 1, 0, [goal]);
      && ScoresAgree(m)
      && ListScore(m) == "1-0"
      && MatchDetail.DetailScore(MatchDetail.InitialEvents(m.events)) == "0-0"
  {
    var goal := Event(Some(GOAL), None, Some(A), None, None, None, None);
    var m := MatchValue("1", "Home", "Away", true, 1, 0, [goal]);
    assert MatchDetail.InitialEvents(m.events) == [];
    ListScoreIsServerScore(m);
    MatchDetail.DetailScoreCountsGoals([]);
  }

  /** For a match whose scores agree with its events, the list shows the server's own scoreA-scoreB. */
  lemma ListScoreIsServerScore(m: MatchValue)
    requires ScoresAgree(m)
    ensures Process(m).score == ScoreText(m.scoreA, m.scoreB)
  {
    ListScoreCountsGoals(m);
  }

  /** `processedMatches` keeps the length and order of `matches`; each entry carries its match's names and state. */
  lemma ProcessAllShape(ms: seq<MatchValue>)
    ensures |ProcessAll(ms)| == |ms|
    ensures forall i :: 0 <= i < |ms| ==>
      var p := ProcessAll(ms)[i];
      p.source == ms[i] && p.home == ms[i].teamA && p.away == ms[i].teamB && p.isLive == ms[i].started
  {
  }

  /**
   * Live and upcoming matches split the processed list: every entry lands in exactly one of the two, each
   * of them keeps the list's relative order, and together they hold every entry once.
   */
  lemma LiveUpcomingPartition(ps: seq<ListedMatch>, qs: seq<ListedMatch>)
    ensures forall p :: p in ps ==> (p in LiveMatches(ps) <==> p.isLive) && (p in UpcomingMatches(ps) <==> !p.isLive)
    ensures multiset(LiveMatches(ps)) + multiset(UpcomingMatches(ps)) == multiset(ps)
    ensures |LiveMatches(ps)| + |UpcomingMatches(ps)| == |ps|
    ensures LiveMatches(ps + qs) == LiveMatches(ps) + LiveMatches(qs)
    ensures UpcomingMatches(ps + qs) == UpcomingMatches(ps) + UpcomingMatches(qs)
  {
    FilterSplits(ps, IsLive, IsUpcoming);
    FilterAppend(ps, qs, IsLive);
    FilterAppend(ps, qs, IsUpcoming);
    forall p | p in ps
      ensures (p in LiveMatches(ps) <==> p.isLive) && (p in UpcomingMatches(ps) <==> !p.isLive)
    {
      var i :| 0 <= i < |ps| && ps[i] == p;
      if p in LiveMatches(ps) {
        var j :| 0 <= j < |LiveMatches(ps)| && LiveMatches(ps)[j] == p;
      }
      if p in UpcomingMatches(ps) {
        var j :| 0 <= j < |UpcomingMatches(ps)| && UpcomingMatches(ps)[j] == p;
      }
    }
  }
}
