/**
 * The admin page (client/src/components/Admin.tsx): the create-match form with its blank-name guard, the
 * event form with its substitution check, the event record built from it, and the form reset after a send.
 * The calls the page intends to make to the server are recorded as requests; whether a call returned
 * normally is a parameter.
 */
module Admin {
  import opened Wrappers
  import opened Domain
  import MatchDetail

  /** The event types the form's select offers. */
  datatype EventType = Goal | Foul | Card | Substitution

  function TypeName(t: EventType): (s: string)
    ensures s in [GOAL, FOUL, CARD, SUBSTITUTION]
  {
    match t
    case Goal => GOAL
    case Foul => FOUL
    case Card => CARD
    case Substitution => SUBSTITUTION
  }

  lemma TypeNameInjective(t: EventType, u: EventType)
    ensures TypeName(t) == TypeName(u) <==> t == u
  {
  }

  /** `eventForm`: the match id and minute are number inputs, the rest strings or choices. */
  datatype EventForm = EventForm(
    matchId: int,
    minute: int,
    kind: EventType,
    player: string,
    team: Team,
    cardType: CardColour,
    playerIn: string,
    playerOut: string)

  const InitialEventForm := EventForm(1, 0, Goal, "", A, Yellow, "", "")

  /** `form`: the two team names as typed. */
  datatype TeamsForm = TeamsForm(teamA: string, teamB: string)

  /** A call the page intends to make to the server. */
  datatype Request =
    | CreateMatchRequest(home: string, away: string)
    | PushEventRequest(matchId: int, event: Event)
    | StartMatchRequest(matchId: int)

  const SubstitutionAlert := "Please fill in both Player In and Player Out for substitution events"
  const CreateFailedAlert := "Failed to create match. Please try again."
  const SendFailedAlert := "Failed to send event. Please check if the match exists and is started."
  const StartFailedAlert := "Failed to start match. Please try again."

  /** A substitution needs both players: one of them empty and the event is not sent. */
  predicate SubstitutionIncomplete(f: EventForm) {
    f.kind == Substitution && (f.playerIn == "" || f.playerOut == "")
  }

  /**
   * What the event record built from a form promises: the form's type, minute and team; a player for a
   * non-substitution exactly when one was typed; a card colour exactly for cards; and for a substitution
   * both players, with the outgoing one as the event's player.
   */
  predicate EventDataFor(f: EventForm, e: Event) {
    && e.kind == Some(TypeName(f.kind))
    && e.minute == Some(f.minute)
    && e.team == Some(f.team)
    && (f.kind != Substitution ==> (e.player.Some? <==> f.player != "") && (e.player.Some? ==> e.player.value == f.player))
    && (e.cardType.Some? <==> f.kind == Card)
    && (e.cardType.Some? ==> e.cardType.value == f.cardType)
    && (f.kind == Substitution ==>
          e.playerIn == Some(f.playerIn) && e.playerOut == Some(f.playerOut) && e.player == Some(f.playerOut))
    && (f.kind != Substitution ==> e.playerIn.None? && e.playerOut.None?)
  }

  /** The event data built from the form, one optional field at a time. */
  method BuildEventData(f: EventForm) returns (e: Event)
    ensures EventDataFor(f, e)
  {
    e := Event(Some(TypeName(f.kind)), Some(f.minute), Some(f.team), None, None, None, None);
    if f.kind != Substitution && f.player != "" {
      e := e.(player := Some(f.player));
    }
    if f.kind == Card {
      e := e.(cardType := Some(f.cardType));
    }
    if f.kind == Substitution {
      e := e.(playerIn := Some(f.playerIn), playerOut := Some(f.playerOut));
      if !MatchDetail.Truthy(e.player) {
        e := e.(player := Some(f.playerOut));
      }
    }
  }

  /** The promise pins the record down: one form, one event. */
  lemma EventDataForUnique(f: EventForm, e1: Event, e2: Event)
    requires EventDataFor(f, e1) && EventDataFor(f, e2)
    ensures e1 == e2
  {
    assert e1.player == e2.player;
  }

  /**
   * A built event passes the match view's validity test, and it is a goal for a team exactly when the form
   * says goal for that team: the event carried by a `PushEventRequest` is scored as the form intends.
   */
  lemma EventDataIsAccepted(f: EventForm, e: Event, t: Team)
    requires EventDataFor(f, e)
    ensures MatchDetail.Accepts(e)
    ensures IsGoalFor(t, e) <==> f.kind == Goal && f.team == t
  {
    TypeNameInjective(f.kind, Goal);
  }

  // ---------------------------------------------------------------------------------------------
  // `String.prototype.trim`.

  /** The characters JavaScript's `trim` removes: white space and line terminators. */
  predicate IsWhitespace(c: char) {
    || c == '\t' || c == '\n' || c == '\U{B}' || c == '\U{C}' || c == '\r' || c == ' '
    || c == '\U{A0}' || c == '\U{1680}' || ('\U{2000}' <= c <= '\U{200A}')
    || c == '\U{2028}' || c == '\U{2029}' || c == '\U{202F}' || c == '\U{205F}' || c == '\U{3000}'
    || c == '\U{FEFF}'
  }

  function TrimStart(s: string): (r: string)
    ensures |r| <= |s| && r == s[|s| - |r|..]
    ensures forall i :: 0 <= i < |s| - |r| ==> IsWhitespace(s[i])
    ensures r == [] || !IsWhitespace(r[0])
  {
    if s == [] then []
    else if IsWhitespace(s[0]) then TrimStart(s[1..])
    else s
  }

  function TrimEnd(s: string): (r: string)
    ensures |r| <= |s| && r == s[..|r|]
    ensures forall i :: |r| <= i < |s| ==> IsWhitespace(s[i])
    ensures r == [] || !IsWhitespace(r[|r| - 1])
  {
    if s == [] then []
    else if IsWhitespace(s[|s| - 1]) then TrimEnd(s[..|s| - 1])
    else s
  }

  function Trim(s: string): string {
    TrimEnd(TrimStart(s))
  }

  /** `!s.trim()`. */
  predicate IsBlank(s: string) {
    Trim(s) == []
  }

  lemma {:induction false} AllWhitespaceTrimsAway(s: string)
    requires forall i :: 0 <= i < |s| ==> IsWhitespace(s[i])
    ensures TrimStart(s) == []
  {
    if s != [] {
      assert IsWhitespace(s[0]);
      AllWhitespaceTrimsAway(s[1..]);
    }
  }

  /** A name is blank exactly when every character of it is white space. */
  lemma BlankIffAllWhitespace(s: string)
    ensures IsBlank(s) <==> forall i :: 0 <= i < |s| ==> IsWhitespace(s[i])
  {
    if forall i :: 0 <= i < |s| ==> IsWhitespace(s[i]) {
      AllWhitespaceTrimsAway(s);
    }
  }

  /** Trimming leaves nothing at either end to trim, so a second trim changes nothing. */
  lemma TrimIdempotent(s: string)
    ensures Trim(Trim(s)) == Trim(s)
  {
    var r := Trim(s);
    if r != [] {
      var t := TrimStart(s);
      assert r[0] == t[0];
    }
  }

  // ---------------------------------------------------------------------------------------------
  // The page.

  class AdminPage {
    var form: TeamsForm
    var eventForm: EventForm
    /** The calls to the server, in the order the page made them. */
    var requests: seq<Request>
    /** The alerts shown, in order. */
    var alerts: seq<string>

    constructor ()
      ensures form == TeamsForm("", "") && eventForm == InitialEventForm
      ensures requests == [] && alerts == []
    {
      form := TeamsForm("", "");
      eventForm := InitialEventForm;
      requests := [];
      alerts := [];
    }

    /**
     * `create`: with a blank name nothing happens. Otherwise the names are sent as typed (untrimmed); on
     * success the form is cleared, on failure it is kept and an alert is shown.
     */
    method Create(succeeded: bool)
      modifies this
      ensures IsBlank(old(form.teamA)) || IsBlank(old(form.teamB)) ==>
        form == old(form) && requests == old(requests) && alerts == old(alerts)
      ensures !IsBlank(old(form.teamA)) && !IsBlank(old(form.teamB)) ==>
        && requests == old(requests) + [CreateMatchRequest(old(form.teamA), old(form.teamB))]
        && (succeeded ==> form == TeamsForm("", "") && alerts == old(alerts))
        && (!succeeded ==> form == old(form) && alerts == old(alerts) + [CreateFailedAlert])
      ensures eventForm == old(eventForm)
    {
      if IsBlank(form.teamA) || IsBlank(form.teamB) {
        return;
      }
      requests := requests + [CreateMatchRequest(form.teamA, form.teamB)];
      if succeeded {
        form := TeamsForm("", "");
      } else {
        alerts := alerts + [CreateFailedAlert];
      }
    }

    /**
     * `sendEvent`: an incomplete substitution is refused with an alert and nothing is sent. Otherwise the
     * built event is pushed to the form's match; on success the minute and the three player fields are
     * cleared while the match id, type, team and card colour stay, on failure the form is kept and an alert
     * is shown.
     */
    method SendEvent(succeeded: bool) returns (sent: bool)
      modifies this
      ensures sent <==> !SubstitutionIncomplete(old(eventForm))
      ensures !sent ==>
        eventForm == old(eventForm) && requests == old(requests) && alerts == old(alerts) + [SubstitutionAlert]
      ensures sent ==>
        && |requests| == |old(requests)| + 1 && requests[..|old(requests)|] == old(requests)
        && requests[|old(requests)|].PushEventRequest?
        && requests[|old(requests)|].matchId == old(eventForm).matchId
        && EventDataFor(old(eventForm), requests[|old(requests)|].event)
      ensures sent && succeeded ==>
        eventForm == AfterSend(old(eventForm))
        && alerts == old(alerts)
      ensures sent && !succeeded ==> eventForm == old(eventForm) && alerts == old(alerts) + [SendFailedAlert]
      ensures form == old(form)
    {
      if SubstitutionIncomplete(eventForm) {
        alerts := alerts + [SubstitutionAlert];
        return false;
      }
      var e := BuildEventData(eventForm);
      requests := requests + [PushEventRequest(eventForm.matchId, e)];
      if succeeded {
        eventForm := AfterSend(eventForm);
      } else {
        alerts := alerts + [SendFailedAlert];
      }
      sent := true;
    }

    /** `handleStartMatch`: asks the server to start the match; a failure shows an alert. */
    method StartMatch(matchId: int, succeeded: bool)
      modifies this
      ensures requests == old(requests) + [StartMatchRequest(matchId)]
      ensures alerts == if succeeded then old(alerts) else old(alerts) + [StartFailedAlert]
      ensures form == old(form) && eventForm == old(eventForm)
    {
      requests := requests + [StartMatchRequest(matchId)];
      if !succeeded {
        alerts := alerts + [StartFailedAlert];
      }
    }
  }

  /** The form as a successful send leaves it. */
  function AfterSend(f: EventForm): (g: EventForm)
    ensures g.matchId == f.matchId && g.kind == f.kind && g.team == f.team && g.cardType == f.cardType
    ensures g.minute == 0 && g.player == "" && g.playerIn == "" && g.playerOut == ""
  {
    f.(minute := 0, player := "", playerIn := "", playerOut := "")
  }

  /**
   * After a successful send the next event goes to the same match with the same type and team, at minute 0
   * and without a player; a substitution is then refused until both players are typed again.
   */
  lemma AfterSendEvent(f: EventForm, e: Event)
    requires EventDataFor(AfterSend(f), e)
    ensures e.kind == Some(TypeName(f.kind)) && e.team == Some(f.team) && e.minute == Some(0)
    ensures f.kind != Substitution ==> e.player.None?
    ensures f.kind == Card ==> e.cardType == Some(f.cardType)
    ensures SubstitutionIncomplete(AfterSend(f)) <==> f.kind == Substitution
  {
  }
}
