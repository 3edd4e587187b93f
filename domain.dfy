/**
 * The records the server stores and the client reads: a match and its events, as they travel in JSON.
 * An event is whatever body the admin page posted, so every field may be missing: `None` stands for a
 * missing key (and for a `type` that is not a string or a `minute` that is not a number).
 */
module Domain {
  import opened Wrappers
  import opened Seqs

  datatype Team = A | B

  datatype CardColour = Yellow | Red

  datatype Event = Event(
    kind: Option<string>,         // JSON key `type`: "goal", "foul", "card", "substitution", or anything else
    minute: Option<int>,
    team: Option<Team>,           // None also for a team that is neither "A" nor "B"
    player: Option<string>,
    cardType: Option<CardColour>,
    playerIn: Option<string>,
    playerOut: Option<string>)

  const GOAL := "goal"
  const FOUL := "foul"
  const CARD := "card"
  const SUBSTITUTION := "substitution"

  /** `event.type === "goal" && event.team === t`: the one test every score computation makes. */
  predicate IsGoalFor(t: Team, e: Event) {
    e.kind == Some(GOAL) && e.team == Some(t)
  }

  /** The number of goal events for team `t`. */
  function GoalCount(es: seq<Event>, t: Team): nat {
    if es == [] then 0 else (if IsGoalFor(t, es[0]) then 1 else 0) + GoalCount(es[1..], t)
  }

  lemma {:induction false} GoalCountAppend(xs: seq<Event>, ys: seq<Event>, t: Team)
    ensures GoalCount(xs + ys, t) == GoalCount(xs, t) + GoalCount(ys, t)
  {
    if xs == [] {
      assert xs + ys == ys;
    } else {
      assert (xs + ys)[0] == xs[0] && (xs + ys)[1..] == xs[1..] + ys;
      GoalCountAppend(xs[1..], ys, t);
    }
  }

  /** The goal test for one team as a value, for `events.filter(...)`. */
  function GoalTest(t: Team): Event -> bool {
    e => IsGoalFor(t, e)
  }

  /** `events.filter(e => e.type === "goal" && e.team === t).length` is the goal count. */
  lemma {:induction false} FilteredGoalCount(es: seq<Event>, t: Team)
    ensures |Filter(es, GoalTest(t))| == GoalCount(es, t)
  {
    if es != [] {
      FilteredGoalCount(es[1..], t);
    }
  }

  /** The minutes of events that all carry one. */
  function MinutesOf(es: seq<Event>): (ms: seq<int>)
    requires forall i :: 0 <= i < |es| ==> es[i].minute.Some?
    ensures |ms| == |es| && forall i :: 0 <= i < |es| ==> es[i].minute == Some(ms[i])
  {
    seq(|es|, i requires 0 <= i < |es| && es[i].minute.Some? => es[i].minute.value)
  }

  /** A match as the server serialises it (the fields of its `Match` interface). */
  datatype MatchValue = MatchValue(
    id: string,
    teamA: string,
    teamB: string,
    started: bool,
    scoreA: nat,
    scoreB: nat,
    events: seq<Event>)

  /** The score invariant: each stored score is the goal count of that team in the event log. */
  predicate ScoresAgree(m: MatchValue) {
    m.scoreA == GoalCount(m.events, A) && m.scoreB == GoalCount(m.events, B)
  }
}
