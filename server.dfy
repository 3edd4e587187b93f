/**
 * The server's match registry (server/src/services/match.service.ts): an object holding the list of
 * matches and the next numeric id, whose methods create, find, start and extend matches in place.
 * The JSON file it reads and writes is not modelled; the constructor takes the parsed contents instead.
 */
module Server {
  import opened Wrappers
  import opened Seqs
  import opened Decimal
  import opened Domain

  // ---------------------------------------------------------------------------------------------
  // The registry as a value: the specification the class is proved against.

  function IdsOf(ms: seq<MatchValue>): (ids: seq<string>)
    ensures |ids| == |ms| && forall i :: 0 <= i < |ms| ==> ids[i] == ms[i].id
  {
    seq(|ms|, i requires 0 <= i < |ms| => ms[i].id)
  }

  /** `matches.find(m => m.id === id)`, as a position: the first match carrying `id`, if any. */
  function Lookup(ms: seq<MatchValue>, id: string): (k: Option<nat>)
    ensures k.None? <==> forall i :: 0 <= i < |ms| ==> ms[i].id != id
    ensures k.Some? ==> k.value < |ms| && ms[k.value].id == id
    ensures k.Some? ==> forall i :: 0 <= i < k.value ==> ms[i].id != id
  {
    var r := IndexOf(IdsOf(ms), id);
    assert r.Some? ==> forall i :: 0 <= i < r.value ==> IdsOf(ms)[..r.value][i] == ms[i].id;
    r
  }

  /** `startMatch` on the list of matches. */
  function StartIn(ms: seq<MatchValue>, id: string): (r: seq<MatchValue>)
    ensures |r| == |ms| && IdsOf(r) == IdsOf(ms)
  {
    match Lookup(ms, id)
    case None => ms
    case Some(k) => ms[k := ms[k].(started := true)]
  }

  /** What `addEvent` does to the match it found: append the event, count a goal for its team. */
  function Record(m: MatchValue, e: Event): MatchValue {
    m.(events := m.events + [e],
       scoreA := if IsGoalFor(A, e) then m.scoreA + 1 else m.scoreA,
       scoreB := if IsGoalFor(B, e) then m.scoreB + 1 else m.scoreB)
  }

  /** `addEvent` on the list of matches. */
  function AddIn(ms: seq<MatchValue>, id: string, e: Event): (r: seq<MatchValue>)
    ensures |r| == |ms| && IdsOf(r) == IdsOf(ms)
  {
    match Lookup(ms, id)
    case None => ms
    case Some(k) => ms[k := Record(ms[k], e)]
  }

  /** Several `addEvent` calls on one match, in order. */
  function RecordAll(m: MatchValue, es: seq<Event>): MatchValue
    decreases |es|
  {
    if es == [] then m else RecordAll(Record(m, es[0]), es[1..])
  }

  // ---------------------------------------------------------------------------------------------
  // Properties of the specification.

  /** An unknown id changes nothing; a known one sets `started` on the first match with it and nothing else. */
  lemma StartInEffect(ms: seq<MatchValue>, id: string)
    ensures Lookup(ms, id).None? ==> StartIn(ms, id) == ms
    ensures Lookup(ms, id).Some? ==>
      var k := Lookup(ms, id).value;
      && StartIn(ms, id)[k].started
      && StartIn(ms, id)[k].(started := ms[k].started) == ms[k]
      && forall j :: 0 <= j < |ms| && j != k ==> StartIn(ms, id)[j] == ms[j]
  {
  }

  /** Starting a match twice is the same as starting it once. */
  lemma {:induction false} StartInIdempotent(ms: seq<MatchValue>, id: string)
    ensures StartIn(StartIn(ms, id), id) == StartIn(ms, id)
  {
    var once := StartIn(ms, id);
    assert Lookup(once, id) == Lookup(ms, id) by {
      assert IdsOf(once) == IdsOf(ms);
      assert forall i :: 0 <= i < |ms| ==> once[i].id == IdsOf(once)[i] == IdsOf(ms)[i] == ms[i].id;
    }
  }

  /** An unknown id changes nothing; a known one gets the event at the end of its log; every other match is untouched. */
  lemma AddInEffect(ms: seq<MatchValue>, id: string, e: Event)
    ensures Lookup(ms, id).None? ==> AddIn(ms, id, e) == ms
    ensures Lookup(ms, id).Some? ==>
      var k := Lookup(ms, id).value;
      && AddIn(ms, id, e)[k].events == ms[k].events + [e]
      && AddIn(ms, id, e)[k].(events := ms[k].events, scoreA := ms[k].scoreA, scoreB := ms[k].scoreB) == ms[k]
      && forall j :: 0 <= j < |ms| && j != k ==> AddIn(ms, id, e)[j] == ms[j]
  {
  }

  /** A goal without a team and every event that is not a goal leave both scores as they were. */
  lemma RecordNonGoal(m: MatchValue, e: Event)
    requires e.kind != Some(GOAL) || e.team.None?
    ensures Record(m, e).scoreA == m.scoreA && Record(m, e).scoreB == m.scoreB
  {
  }

  /** Counting goals one event at a time keeps each score equal to its team's goal count. */
  lemma RecordKeepsScoresAgree(m: MatchValue, e: Event)
    requires ScoresAgree(m)
    ensures ScoresAgree(Record(m, e))
  {
    GoalCountAppend(m.events, [e], A);
    GoalCountAppend(m.events, [e], B);
  }

  /** After any sequence of `addEvent` calls the log has grown by exactly those events and the scores still agree. */
  lemma {:induction false} RecordAllKeepsScoresAgree(m: MatchValue, es: seq<Event>)
    requires ScoresAgree(m)
    ensures RecordAll(m, es).events == m.events + es
    ensures ScoresAgree(RecordAll(m, es))
    decreases |es|
  {
    if es != [] {
      RecordKeepsScoresAgree(m, es[0]);
      RecordAllKeepsScoresAgree(Record(m, es[0]), es[1..]);
      assert m.events + [es[0]] + es[1..] == m.events + es;
    }
  }

  /** From a freshly created 0-0 match, each score is the number of goals that team scored in the events added. */
  lemma ScoresOfNewMatch(id: string, teamA: string, teamB: string, es: seq<Event>)
    ensures var m := RecordAll(MatchValue(id, teamA, teamB, false, 0, 0, []), es);
      m.scoreA == GoalCount(es, A) && m.scoreB == GoalCount(es, B) && m.events == es
  {
    var m0 := MatchValue(id, teamA, teamB, false, 0, 0, []);
    RecordAllKeepsScoresAgree(m0, es);
    assert m0.events + es == es;
  }

  /** The score invariant of a whole registry: every match's scores agree with its events. */
  predicate AllScoresAgree(ms: seq<MatchValue>) {
    forall i :: 0 <= i < |ms| ==> ScoresAgree(ms[i])
  }

  /** `startMatch` keeps the score invariant of every match in the registry. */
  lemma StartInKeepsScoresAgree(ms: seq<MatchValue>, id: string)
    requires AllScoresAgree(ms)
    ensures AllScoresAgree(StartIn(ms, id))
  {
    StartInEffect(ms, id);
  }

  /** A new unstarted 0-0 match without events satisfies the score invariant, and appending it keeps the registry's. */
  lemma NewMatchKeepsScoresAgree(ms: seq<MatchValue>, id: string, teamA: string, teamB: string)
    requires AllScoresAgree(ms)
    ensures AllScoresAgree(ms + [MatchValue(id, teamA, teamB, false, 0, 0, [])])
  {
  }

  /** `addEvent` keeps the score invariant of every match in the registry. */
  lemma AddInKeepsScoresAgree(ms: seq<MatchValue>, id: string, e: Event)
    requires AllScoresAgree(ms)
    ensures AllScoresAgree(AddIn(ms, id, e))
  {
    if Lookup(ms, id).Some? {
      RecordKeepsScoresAgree(ms[Lookup(ms, id).value], e);
    }
  }

  // ---------------------------------------------------------------------------------------------
  // Fresh ids.

  /** `id` cannot clash with `String(n)` or any later counter value: it is not a numeral, or its value is below `n`. */
  predicate Below(id: string, n: nat) {
    match ParseDecimal(id)
    case None => true
    case Some(v) => v < n
  }

  predicate AllBelow(ids: seq<string>, n: nat) {
    forall i :: 0 <= i < |ids| ==> Below(ids[i], n)
  }

  predicate Unique(ids: seq<string>) {
    forall i, j :: 0 <= i < j < |ids| ==> ids[i] != ids[j]
  }

  /** The largest value among the ids that are numerals, or 0 when none is. */
  function MaxNumericId(ids: seq<string>): (m: nat)
    ensures forall i :: 0 <= i < |ids| ==> Below(ids[i], m + 1)
    ensures m == 0 || exists i :: 0 <= i < |ids| && ParseDecimal(ids[i]) == Some(m)
  {
    if ids == [] then 0
    else
      var rest := MaxNumericId(ids[1..]);
      assert forall i :: 1 <= i < |ids| ==> ids[i] == ids[1..][i - 1];
      match ParseDecimal(ids[0])
      case None => rest
      case Some(v) => if v > rest then v else rest
  }

  /**
   * `loadData`'s recovery of the counter: one more than the largest numeric id, and 1 when there is none.
   * Every loaded id is then below the counter, so no id it hands out later can equal a loaded one.
   */
  function NextIdAfterLoad(ids: seq<string>): (n: nat)
    ensures n >= 1 && AllBelow(ids, n)
    ensures |ids| == 0 ==> n == 1
    ensures n == 1 || exists i :: 0 <= i < |ids| && ParseDecimal(ids[i]) == Some(n - 1)
  {
    MaxNumericId(ids) + 1
  }

  /** An id below the counter is never the one `createMatch` prints next. */
  lemma BelowIsNotNext(id: string, n: nat)
    requires Below(id, n)
    ensures id != DecimalText(n)
  {
    ParseDecimalText(n);
  }

  /** `createMatch` keeps the ids unique and below the counter. */
  lemma CreateKeepsIdsFresh(ids: seq<string>, n: nat)
    requires AllBelow(ids, n)
    ensures AllBelow(ids + [DecimalText(n)], n + 1)
    ensures Unique(ids) ==> Unique(ids + [DecimalText(n)])
  {
    ParseDecimalText(n);
    forall i | 0 <= i < |ids| ensures ids[i] != DecimalText(n) {
      BelowIsNotNext(ids[i], n);
    }
  }

  // ---------------------------------------------------------------------------------------------
  // The recovery as the source writes it. `Math.max(...matches.map(m => Number(m.id)))` is NaN as soon
  // as one id is not a number, and NaN survives `+ 1` and `nextId++`: every later match gets id "NaN".

  datatype JsNumber = Finite(value: int) | NaN

  function NumbersOf(ids: seq<string>): (vs: seq<int>)
    requires forall i :: 0 <= i < |ids| ==> ParseDecimal(ids[i]).Some?
    ensures |vs| == |ids| && forall i :: 0 <= i < |ids| ==> ParseDecimal(ids[i]) == Some(vs[i])
  {
    seq(|ids|, i requires 0 <= i < |ids| && ParseDecimal(ids[i]).Some? => ParseDecimal(ids[i]).value)
  }

  function NextIdAsWritten(ids: seq<string>): JsNumber {
    if |ids| == 0 then Finite(1)
    else if forall i :: 0 <= i < |ids| ==> ParseDecimal(ids[i]).Some? then Finite(MaxOf(NumbersOf(ids)) + 1)
    else NaN
  }

  /** `String(x)` and `x + 1` on a JavaScript number. */
  function NumberText(x: JsNumber): string {
    match x
    case Finite(v) => IntText(v)
    case NaN => "NaN"
  }

  function Increment(x: JsNumber): JsNumber {
    match x
    case Finite(v) => Finite(v + 1)
    case NaN => NaN
  }

  /** `createMatch` as written, on the ids and the counter. */
  function CreateIdAsWritten(ids: seq<string>, next: JsNumber): (seq<string>, JsNumber) {
    (ids + [NumberText(next)], Increment(next))
  }

  /** Loading ids "1" and "x" and then creating two matches gives both new matches the id "NaN". */
  lemma AsWrittenTextIdBreaksUniqueness()
    ensures var loaded := ["1", "x"];
      var n0 := NextIdAsWritten(loaded);
      var once := CreateIdAsWritten(loaded, n0);
      var twice := CreateIdAsWritten(once.0, once.1);
      n0 == NaN && twice.0 == ["1", "x", "NaN", "NaN"] && !Unique(twice.0)
  {
    var loaded := ["1", "x"];
    assert ParseDecimal(loaded[1]).None? by {
      assert !IsDigit(loaded[1][0]);
    }
    var twice := CreateIdAsWritten(CreateIdAsWritten(loaded, NaN).0, NaN);
    assert twice.0[2] == twice.0[3];
  }

  /** Where every id is a numeral the recovery as written and the corrected one agree. */
  lemma AsWrittenAgreesOnNumericIds(ids: seq<string>)
    requires forall i :: 0 <= i < |ids| ==> ParseDecimal(ids[i]).Some?
    ensures NextIdAsWritten(ids) == Finite(NextIdAfterLoad(ids))
  {
    if |ids| > 0 {
      var vs := NumbersOf(ids);
      var m := MaxNumericId(ids);
      var top := MaxOf(vs);
      var k :| 0 <= k < |vs| && vs[k] == top;
      assert Below(ids[k], m + 1);
      if m != 0 {
        var i :| 0 <= i < |ids| && ParseDecimal(ids[i]) == Some(m);
        assert vs[i] == m;
      }
    }
  }

  // ---------------------------------------------------------------------------------------------
  // The objects.

  /** One match, mutated in place through the reference the registry hands out. */
  class MatchRecord {
    const id: string
    const teamA: string
    const teamB: string
    var started: bool
    var scoreA: nat
    var scoreB: nat
    var events: seq<Event>

    constructor (v: MatchValue)
      ensures Value() == v
    {
      id, teamA, teamB := v.id, v.teamA, v.teamB;
      started, scoreA, scoreB, events := v.started, v.scoreA, v.scoreB, v.events;
    }

    function Value(): MatchValue
      reads this
    {
      MatchValue(id, teamA, teamB, started, scoreA, scoreB, events)
    }

    /** `match.started = true`. */
    method Start()
      modifies this
      ensures Value() == old(Value()).(started := true)
    {
      started := true;
    }

    /** The body of `addEvent` once the match is found: push the event, then count a goal for its team. */
    method RecordEvent(e: Event)
      modifies this
      ensures Value() == Record(old(Value()), e)
    {
      events := events + [e];
      if e.kind == Some(GOAL) {
        if e.team == Some(A) {
          scoreA := scoreA + 1;
        }
        if e.team == Some(B) {
          scoreB := scoreB + 1;
        }
      }
    }
  }

  function ValuesOf(rs: seq<MatchRecord>): (vs: seq<MatchValue>)
    reads rs
    ensures |vs| == |rs| && forall i :: 0 <= i < |rs| ==> vs[i] == rs[i].Value()
  {
    seq(|rs|, i reads rs requires 0 <= i < |rs| => rs[i].Value())
  }

  class MatchService {
    var matches: seq<MatchRecord>
    var nextId: nat

    /** The abstract state: the matches as values, in order. */
    function Values(): seq<MatchValue>
      reads this, matches
    {
      ValuesOf(matches)
    }

    /** The score invariant on the registry's current contents. */
    predicate ScoresValid()
      reads this, matches
    {
      AllScoresAgree(Values())
    }

    /** Each match is its own object, and every id is below the counter. */
    ghost predicate Valid()
      reads this, matches
    {
      && (forall i, j :: 0 <= i < j < |matches| ==> matches[i] != matches[j])
      && AllBelow(IdsOf(Values()), nextId)
    }

    /** `loadData` after reading the file: the parsed matches, and the counter recovered from their ids. */
    constructor (loaded: seq<MatchValue>)
      ensures Valid()
      ensures Values() == loaded
      ensures nextId == NextIdAfterLoad(IdsOf(loaded))
      ensures forall i :: 0 <= i < |matches| ==> fresh(matches[i])
    {
      var rs: seq<MatchRecord> := [];
      var i := 0;
      while i < |loaded|
        invariant 0 <= i <= |loaded| && |rs| == i
        invariant forall j :: 0 <= j < i ==> fresh(rs[j]) && rs[j].Value() == loaded[j]
        invariant forall j, l :: 0 <= j < l < i ==> rs[j] != rs[l]
      {
        var r := new MatchRecord(loaded[i]);
        rs := rs + [r];
        i := i + 1;
      }
      matches := rs;
      nextId := NextIdAfterLoad(IdsOf(loaded));
      new;
      assert Values() == loaded;
    }

    /** `createMatch`: a new unstarted 0-0 match with id `String(nextId)`, appended; the counter moves on by one. */
    method CreateMatch(teamA: string, teamB: string) returns (m: MatchRecord)
      requires Valid()
      modifies this
      ensures Valid() && fresh(m)
      ensures m.Value() == MatchValue(DecimalText(old(nextId)), teamA, teamB, false, 0, 0, [])
      ensures matches == old(matches) + [m] && nextId == old(nextId) + 1
      ensures Values() == old(Values()) + [m.Value()]
      ensures Unique(IdsOf(old(Values()))) ==> Unique(IdsOf(Values()))
      ensures old(ScoresValid()) ==> ScoresValid()
    {
      ghost var before := Values();
      var id := DecimalText(nextId);
      m := new MatchRecord(MatchValue(id, teamA, teamB, false, 0, 0, []));
      matches := matches + [m];
      nextId := nextId + 1;
      assert Values() == before + [m.Value()];
      assert IdsOf(Values()) == IdsOf(before) + [id];
      CreateKeepsIdsFresh(IdsOf(before), nextId - 1);
      if AllScoresAgree(before) {
        NewMatchKeepsScoresAgree(before, id, teamA, teamB);
      }
    }

    /** `getMatches`: the registry's own list, so the records the caller gets are the stored ones. */
    method GetMatches() returns (ms: seq<MatchRecord>)
      ensures ms == matches && ValuesOf(ms) == Values()
    {
      ms := matches;
    }

    /** `getMatch`: the first match with this id, or none. */
    method GetMatch(id: string) returns (m: Option<MatchRecord>)
      ensures m.None? <==> Lookup(Values(), id).None?
      ensures m.Some? ==> m.value == matches[Lookup(Values(), id).value]
    {
      var i := 0;
      while i < |matches|
        invariant 0 <= i <= |matches|
        invariant forall j :: 0 <= j < i ==> matches[j].id != id
      {
        if matches[i].id == id {
          assert Values()[i].id == id;
          return Some(matches[i]);
        }
        i := i + 1;
      }
      return None;
    }

    /** `startMatch`: none for an unknown id; otherwise that match is started and returned. */
    method StartMatch(id: string) returns (m: Option<MatchRecord>)
      requires Valid()
      modifies matches
      ensures Valid()
      ensures Values() == StartIn(old(Values()), id)
      ensures old(ScoresValid()) ==> ScoresValid()
      ensures m.None? <==> Lookup(old(Values()), id).None?
      ensures m.Some? ==> m.value == matches[Lookup(old(Values()), id).value]
    {
      m := GetMatch(id);
      if m.Some? {
        ghost var before := Values();
        ghost var k := Lookup(before, id).value;
        m.value.Start();
        ghost var after := before[k := before[k].(started := true)];
        forall j | 0 <= j < |matches|
          ensures Values()[j] == after[j]
        {
          if j != k {
            assert matches[j] != matches[k];
          }
        }
        assert Values() == after == StartIn(before, id);
        assert IdsOf(Values()) == IdsOf(before);
        if AllScoresAgree(before) {
          StartInKeepsScoresAgree(before, id);
        }
      }
    }

    /** `addEvent`: none for an unknown id; otherwise the event is recorded on that match, which is returned. */
    method AddEvent(id: string, e: Event) returns (m: Option<MatchRecord>)
      requires Valid()
      modifies matches
      ensures Valid()
      ensures Values() == AddIn(old(Values()), id, e)
      ensures old(ScoresValid()) ==> ScoresValid()
      ensures m.None? <==> Lookup(old(Values()), id).None?
      ensures m.Some? ==> m.value == matches[Lookup(old(Values()), id).value]
    {
      m := GetMatch(id);
      if m.Some? {
        ghost var before := Values();
        ghost var k := Lookup(before, id).value;
        m.value.RecordEvent(e);
        ghost var after := before[k := Record(before[k], e)];
        forall j | 0 <= j < |matches|
          ensures Values()[j] == after[j]
        {
          if j != k {
            assert matches[j] != matches[k];
          }
        }
        assert Values() == after == AddIn(before, id, e);
        assert IdsOf(Values()) == IdsOf(before);
        if AllScoresAgree(before) {
          AddInKeepsScoresAgree(before, id, e);
        }
      }
    }
  }
}
