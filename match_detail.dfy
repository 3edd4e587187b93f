/**
 * The match detail view (client/src/components/MatchDetail.tsx): the list of events it keeps, newest
 * first, and what it derives from that list — the score, the match clock, one message and one colour
 * per event.
 */
module MatchDetail {
  import opened Wrappers
  import opened Seqs
  import opened Decimal
  import opened Domain
  import opened Display

  /** JavaScript truthiness of an optional string: present and not empty. */
  predicate Truthy(s: Option<string>) {
    s.Some? && s.value != ""
  }

  /** The validity test applied to stored and to incoming events: a string type and a numeric minute. */
  predicate Accepts(e: Event) {
    e.kind.Some? && e.minute.Some?
  }

  /** The list the view starts from: the match's events that pass the validity test, in their order. */
  function InitialEvents(matchEvents: seq<Event>): seq<Event> {
    Filter(matchEvents, Accepts)
  }

  /** The initial list keeps exactly the valid events, in their original relative order. */
  lemma InitialEventsSpec(xs: seq<Event>, ys: seq<Event>)
    ensures forall i :: 0 <= i < |InitialEvents(xs)| ==> Accepts(InitialEvents(xs)[i]) && InitialEvents(xs)[i] in xs
    ensures forall i :: 0 <= i < |xs| && Accepts(xs[i]) ==> xs[i] in InitialEvents(xs)
    ensures InitialEvents(xs + ys) == InitialEvents(xs) + InitialEvents(ys)
    ensures (forall i :: 0 <= i < |xs| ==> Accepts(xs[i])) ==> InitialEvents(xs) == xs
  {
    FilterAppend(xs, ys, Accepts);
    if forall i :: 0 <= i < |xs| ==> Accepts(xs[i]) {
      FilterKeepsAll(xs, Accepts);
    }
  }

  /** The events the view holds, and the one state transition the live stream drives. */
  class EventFeed {
    var events: seq<Event>

    ghost predicate Valid()
      reads this
    {
      forall i :: 0 <= i < |events| ==> Accepts(events[i])
    }

    /** `useState<MatchEvent[]>([])`. */
    constructor ()
      ensures Valid() && events == []
    {
      events := [];
    }

    /** The effect run whenever the `match` prop changes: reset to the match's valid events. */
    method Load(matchEvents: seq<Event>)
      modifies this
      ensures Valid()
      ensures events == InitialEvents(matchEvents)
    {
      events := InitialEvents(matchEvents);
    }

    /**
     * The stream callback: an invalid event is dropped and leaves the list as it was; a valid one becomes
     * the head of the list, with the previous list after it unchanged.
     */
    method Receive(e: Event) returns (accepted: bool)
      requires Valid()
      modifies this
      ensures Valid()
      ensures accepted == Accepts(e)
      ensures events == if accepted then [e] + old(events) else old(events)
    {
      if !Accepts(e) {
        return false;
      }
      events := [e] + events;
      accepted := true;
    }
  }

  // ---------------------------------------------------------------------------------------------
  // Score.

  predicate HasTypeAndTeam(e: Event) {
    Truthy(e.kind) && e.team.Some?
  }

  /** `calculateScore`: drop events without a type or a team, then count each team's goals. */
  function DetailScore(events: seq<Event>): string {
    var valid := Filter(events, HasTypeAndTeam);
    ScoreText(|Filter(valid, GoalTest(A))|, |Filter(valid, GoalTest(B))|)
  }

  /** Dropping events without a type or a team never drops a goal. */
  lemma {:induction false} TypeAndTeamFilterKeepsGoals(es: seq<Event>, t: Team)
    ensures GoalCount(Filter(es, HasTypeAndTeam), t) == GoalCount(es, t)
  {
    if es != [] {
      TypeAndTeamFilterKeepsGoals(es[1..], t);
      var rest := Filter(es[1..], HasTypeAndTeam);
      if HasTypeAndTeam(es[0]) {
        var f := [es[0]] + rest;
        assert Filter(es, HasTypeAndTeam) == f;
        assert f[0] == es[0] && f[1..] == rest;
        assert GoalCount(f, t) == (if IsGoalFor(t, es[0]) then 1 else 0) + GoalCount(rest, t);
      } else {
        assert Filter(es, HasTypeAndTeam) == rest;
      }
    }
  }

  /** The shown score is "a-b" with a and b the goal events of team A and of team B. */
  lemma DetailScoreCountsGoals(es: seq<Event>)
    ensures DetailScore(es) == ScoreText(GoalCount(es, A), GoalCount(es, B))
  {
    var valid := Filter(es, HasTypeAndTeam);
    FilteredGoalCount(valid, A);
    FilteredGoalCount(valid, B);
    TypeAndTeamFilterKeepsGoals(es, A);
    TypeAndTeamFilterKeepsGoals(es, B);
  }

  /** Fouls, cards, substitutions and teamless goals never change the shown score, wherever they arrive. */
  lemma DetailScoreIgnoresNonGoals(xs: seq<Event>, e: Event, ys: seq<Event>)
    requires !IsGoalFor(A, e) && !IsGoalFor(B, e)
    ensures DetailScore(xs + [e] + ys) == DetailScore(xs + ys)
  {
    DetailScoreCountsGoals(xs + [e] + ys);
    DetailScoreCountsGoals(xs + ys);
    GoalCountSkips(xs, e, ys, A);
    GoalCountSkips(xs, e, ys, B);
  }

  lemma GoalCountSkips(xs: seq<Event>, e: Event, ys: seq<Event>, t: Team)
    requires !IsGoalFor(t, e)
    ensures GoalCount(xs + [e] + ys, t) == GoalCount(xs + ys, t)
  {
    GoalCountAppend(xs + [e], ys, t);
    GoalCountAppend(xs, [e], t);
    GoalCountAppend(xs, ys, t);
  }

  /** The initial validity filter keeps every goal that has a numeric minute, so it keeps every goal if all have one. */
  lemma {:induction false} InitialEventsKeepGoals(es: seq<Event>, t: Team)
    requires forall i :: 0 <= i < |es| && es[i].kind == Some(GOAL) ==> es[i].minute.Some?
    ensures GoalCount(InitialEvents(es), t) == GoalCount(es, t)
  {
    if es != [] {
      assert forall i :: 0 <= i < |es[1..]| ==> es[1..][i] == es[i + 1];
      InitialEventsKeepGoals(es[1..], t);
      var rest := InitialEvents(es[1..]);
      if Accepts(es[0]) {
        var f := [es[0]] + rest;
        assert InitialEvents(es) == f;
        assert f[0] == es[0] && f[1..] == rest;
      } else {
        assert InitialEvents(es) == rest;
      }
    }
  }

  /**
   * For a match whose scores agree and whose stored goals all have a numeric minute, the view starts from the
   * server's score. Other invalid events may be stored: the validity filter drops no goal.
   */
  lemma DetailScoreIsServerScore(m: MatchValue)
    requires ScoresAgree(m)
    requires forall i :: 0 <= i < |m.events| && m.events[i].kind == Some(GOAL) ==> m.events[i].minute.Some?
    ensures DetailScore(InitialEvents(m.events)) == ScoreText(m.scoreA, m.scoreB)
  {
    InitialEventsKeepGoals(m.events, A);
    InitialEventsKeepGoals(m.events, B);
    DetailScoreCountsGoals(InitialEvents(m.events));
  }

  /** Live events are put in front of the stored ones; the order of the two parts does not change the score. */
  lemma DetailScoreIgnoresOrder(live: seq<Event>, initial: seq<Event>)
    ensures DetailScore(live + initial) == DetailScore(initial + live)
  {
    GoalCountAppend(live, initial, A);
    GoalCountAppend(live, initial, B);
    GoalCountAppend(initial, live, A);
    GoalCountAppend(initial, live, B);
    DetailScoreCountsGoals(live + initial);
    DetailScoreCountsGoals(initial + live);
  }

  // ---------------------------------------------------------------------------------------------
  // Clock.

  predicate HasMinute(e: Event) {
    e.minute.Some?
  }

  /**
   * `getCurrentTime`: "0'" when no event has a numeric minute; otherwise one past the latest minute,
   * capped at 90.
   */
  function DetailClock(events: seq<Event>): (c: Clock)
    ensures c.At? && c.minute <= 90
    ensures (forall i :: 0 <= i < |events| ==> events[i].minute.None?) ==> c == At(0) && ClockText(c) == "0'"
    ensures (exists i :: 0 <= i < |events| && events[i].minute.Some?) ==>
      exists i :: 0 <= i < |events| && events[i].minute.Some?
        && (forall j :: 0 <= j < |events| && events[j].minute.Some? ==> events[j].minute.value <= events[i].minute.value)
        && c == At(CappedMinute(events[i].minute.value))
  {
    var timed := Filter(events, HasMinute);
    if |timed| == 0 then
      assert forall i :: 0 <= i < |events| ==> events[i].minute.None?;
      At(0)
    else
      var latest := MaxOf(MinutesOf(timed));
      LatestTimedMinute(events, timed);
      At(CappedMinute(latest))
  }

  /** The largest numeric minute bounds every event's minute and is the minute of one of them. */
  lemma LatestTimedMinute(events: seq<Event>, timed: seq<Event>)
    requires forall j :: 0 <= j < |timed| ==> timed[j].minute.Some? && timed[j] in events
    requires forall i :: 0 <= i < |events| && events[i].minute.Some? ==> events[i] in timed
    requires |timed| > 0
    ensures var latest := MaxOf(MinutesOf(timed));
      && (forall i :: 0 <= i < |events| && events[i].minute.Some? ==> events[i].minute.value <= latest)
      && exists i :: 0 <= i < |events| && events[i].minute == Some(latest)
  {
    var ms := MinutesOf(timed);
    var latest := MaxOf(ms);
    forall i | 0 <= i < |events| && events[i].minute.Some?
      ensures events[i].minute.value <= latest
    {
      var j :| 0 <= j < |timed| && timed[j] == events[i];
      assert ms[j] == events[i].minute.value;
    }
    var j :| 0 <= j < |ms| && ms[j] == latest;
    assert timed[j] in events;
    var i :| 0 <= i < |events| && events[i] == timed[j];
    assert events[i].minute == Some(latest);
  }

  // ---------------------------------------------------------------------------------------------
  // Messages and colours.

  /** `value || fallback` on an optional string. */
  function PlayerOr(p: Option<string>, fallback: string): string {
    if Truthy(p) then p.value else fallback
  }

  /** `match?.teamA || "Team A"`: an empty team name is shown as the placeholder. */
  function DisplayName(name: string, fallback: string): (r: string)
    ensures name != "" ==> r == name
    ensures name == "" ==> r == fallback
  {
    if name != "" then name else fallback
  }

  /** The team an event's message names: team A's name for team "A", team B's name for anything else. */
  function TeamName(e: Event, teamA: string, teamB: string): string {
    if e.team == Some(A) then DisplayName(teamA, "Team A") else DisplayName(teamB, "Team B")
  }

  /** `generateEventMessage`, without the leading emoji. */
  function EventMessage(e: Event, teamA: string, teamB: string): string {
    if !Truthy(e.kind) then "Invalid event"
    else
      var team := TeamName(e, teamA, teamB);
      var kind := e.kind.value;
      if kind == GOAL then
        "GOAL! " + PlayerOr(e.player, "Unknown player") + " scores for " + team
      else if kind == FOUL then
        "Foul by " + PlayerOr(e.player, "Unknown player") + " (" + team + ")"
      else if kind == CARD then
        CardLabel(e) + "! " + PlayerOr(e.player, "Unknown player") + " (" + team + ")"
      else if kind == SUBSTITUTION then
        "Substitution: " + PlayerOr(e.playerOut, "Player out") + " \U{2192} " + PlayerOr(e.playerIn, "Player in")
          + " (" + team + ")"
      else
        "Event: " + kind + " for " + team
  }

  function CardLabel(e: Event): string {
    if e.cardType == Some(Red) then "RED CARD" else "YELLOW CARD"
  }

  predicate EndsWith(s: string, suffix: string) {
    |suffix| <= |s| && s[|s| - |suffix|..] == suffix
  }

  lemma EndsWithAfter(prefix: string, suffix: string)
    ensures EndsWith(prefix + suffix, suffix)
  {
    assert (prefix + suffix)[|prefix|..] == suffix;
  }

  /** The team named in a message: team A's name for team "A", team B's otherwise, each with its placeholder. */
  lemma TeamNameChoice(e: Event, teamA: string, teamB: string)
    ensures e.team == Some(A) && teamA != "" ==> TeamName(e, teamA, teamB) == teamA
    ensures e.team == Some(A) && teamA == "" ==> TeamName(e, teamA, teamB) == "Team A"
    ensures e.team != Some(A) && teamB != "" ==> TeamName(e, teamA, teamB) == teamB
    ensures e.team != Some(A) && teamB == "" ==> TeamName(e, teamA, teamB) == "Team B"
  {
  }

  lemma EndsWithTeamInParentheses(e: Event, teamA: string, teamB: string)
    requires e.kind.Some? && e.kind.value in {FOUL, CARD, SUBSTITUTION}
    ensures EndsWith(EventMessage(e, teamA, teamB), " (" + TeamName(e, teamA, teamB) + ")")
  {
    var team := TeamName(e, teamA, teamB);
    var kind := e.kind.value;
    var player := PlayerOr(e.player, "Unknown player");
    if kind == FOUL {
      EndsWithAfter("Foul by " + player, " (" + team + ")");
      assert "Foul by " + player + (" (" + team + ")") == EventMessage(e, teamA, teamB);
    } else if kind == CARD {
      EndsWithAfter(CardLabel(e) + "! " + player, " (" + team + ")");
      assert CardLabel(e) + "! " + player + (" (" + team + ")") == EventMessage(e, teamA, teamB);
    } else {
      var moves := "Substitution: " + PlayerOr(e.playerOut, "Player out") + " \U{2192} " + PlayerOr(e.playerIn, "Player in");
      EndsWithAfter(moves, " (" + team + ")");
      assert moves + (" (" + team + ")") == EventMessage(e, teamA, teamB);
    }
  }

  /**
   * A message about a foul, a card or a substitution ends with the event's team in parentheses: team A's
   * name for team "A", team B's name for anything else, and the placeholder where that name is empty.
   */
  lemma MessageNamesTeamInParentheses(e: Event, teamA: string, teamB: string)
    requires e.kind.Some? && e.kind.value in {FOUL, CARD, SUBSTITUTION}
    ensures EndsWith(EventMessage(e, teamA, teamB), " (" + TeamName(e, teamA, teamB) + ")")
    ensures e.team == Some(A) && teamA != "" ==> EndsWith(EventMessage(e, teamA, teamB), " (" + teamA + ")")
    ensures e.team == Some(A) && teamA == "" ==> EndsWith(EventMessage(e, teamA, teamB), " (Team A)")
    ensures e.team != Some(A) && teamB != "" ==> EndsWith(EventMessage(e, teamA, teamB), " (" + teamB + ")")
    ensures e.team != Some(A) && teamB == "" ==> EndsWith(EventMessage(e, teamA, teamB), " (Team B)")
  {
    EndsWithTeamInParentheses(e, teamA, teamB);
    TeamNameChoice(e, teamA, teamB);
    var team := TeamName(e, teamA, teamB);
    if e.team == Some(A) && teamA == "" {
      assert " (" + team + ")" == " (Team A)";
    } else if e.team != Some(A) && teamB == "" {
      assert " (" + team + ")" == " (Team B)";
    }
  }

  /**
   * A message about a goal, or about an event of any other non-empty type, ends with " for " and the event's
   * team, chosen as for the other messages.
   */
  lemma MessageNamesTeamAfterFor(e: Event, teamA: string, teamB: string)
    requires Truthy(e.kind) && e.kind.value !in {FOUL, CARD, SUBSTITUTION}
    ensures EndsWith(EventMessage(e, teamA, teamB), " for " + TeamName(e, teamA, teamB))
    ensures e.team == Some(A) && teamA != "" ==> EndsWith(EventMessage(e, teamA, teamB), " for " + teamA)
    ensures e.team == Some(A) && teamA == "" ==> EndsWith(EventMessage(e, teamA, teamB), " for Team A")
    ensures e.team != Some(A) && teamB != "" ==> EndsWith(EventMessage(e, teamA, teamB), " for " + teamB)
    ensures e.team != Some(A) && teamB == "" ==> EndsWith(EventMessage(e, teamA, teamB), " for Team B")
  {
    var team := TeamName(e, teamA, teamB);
    var kind := e.kind.value;
    if kind == GOAL {
      var player := PlayerOr(e.player, "Unknown player");
      EndsWithAfter("GOAL! " + player + " scores", " for " + team);
      assert "GOAL! " + player + " scores" + (" for " + team) == EventMessage(e, teamA, teamB);
    } else {
      EndsWithAfter("Event: " + kind, " for " + team);
      assert "Event: " + kind + (" for " + team) == EventMessage(e, teamA, teamB);
    }
    if e.team == Some(A) && teamA == "" {
      assert " for " + team == " for Team A";
    } else if e.team != Some(A) && teamB == "" {
      assert " for " + team == " for Team B";
    }
  }

  /** A card message opens with "RED CARD!" exactly when the card is red, and with "YELLOW CARD!" otherwise. */
  lemma CardMessageLabel(e: Event, teamA: string, teamB: string)
    requires e.kind == Some(CARD)
    ensures var msg := EventMessage(e, teamA, teamB);
      ("RED CARD!" <= msg <==> e.cardType == Some(Red)) && (e.cardType != Some(Red) ==> "YELLOW CARD!" <= msg)
  {
    var msg := EventMessage(e, teamA, teamB);
    var tail := " " + PlayerOr(e.player, "Unknown player") + " (" + TeamName(e, teamA, teamB) + ")";
    assert msg == CardLabel(e) + "!" + tail;
    if e.cardType != Some(Red) {
      assert msg[0] == 'Y';
    }
  }

  datatype Colour = Slate | Green | Orange | RedTone | YellowTone | Blue

  /** `getEventColor`. */
  function EventColour(e: Event): Colour {
    if !Truthy(e.kind) then Slate
    else if e.kind.value == GOAL then Green
    else if e.kind.value == FOUL then Orange
    else if e.kind.value == CARD then (if e.cardType == Some(Red) then RedTone else YellowTone)
    else if e.kind.value == SUBSTITUTION then Blue
    else Slate
  }

  /** The class list each colour stands for. */
  function ColourClasses(c: Colour): string {
    match c
    case Slate => "bg-slate-100 text-slate-800 border-slate-200"
    case Green => "bg-green-100 text-green-800 border-green-200"
    case Orange => "bg-orange-100 text-orange-800 border-orange-200"
    case RedTone => "bg-red-100 text-red-800 border-red-200"
    case YellowTone => "bg-yellow-100 text-yellow-800 border-yellow-200"
    case Blue => "bg-blue-100 text-blue-800 border-blue-200"
  }

  /** A card is coloured red exactly when its message says RED CARD, and yellow exactly when it says YELLOW CARD. */
  lemma CardColourFollowsLabel(e: Event, teamA: string, teamB: string)
    requires e.kind == Some(CARD)
    ensures EventColour(e) == RedTone <==> "RED CARD!" <= EventMessage(e, teamA, teamB)
    ensures EventColour(e) == YellowTone <==> !("RED CARD!" <= EventMessage(e, teamA, teamB))
  {
    CardMessageLabel(e, teamA, teamB);
  }
}
