/** `initializeVisitorData`: the visit record kept for one browser session
    and the visit counter that outlives sessions. */
module Visitor {
  import opened Records
  import opened JsNumber
  import opened Store
  import Json

  const RecordKey := "visitorData"
  const CounterKey := "totalVisitorCount"
  const UnknownLocation := "Unknown"

  /** `parseInt(localStorage.getItem('totalVisitorCount') || '0') + 1`. */
  function NextCount(local: map<string, string>): (r: Value)
    ensures r != Null
    ensures !Truthy(Get(local, CounterKey)) ==> r == Int(1)
  {
    var stored := Get(local, CounterKey);
    ParseZero();
    Increment(ParseInt(if Truthy(stored) then stored.value else "0"))
  }

  /** The record the call returns (None where `JSON.parse` throws) and the
      session and local stores after it. */
  datatype Outcome = Outcome(record: Option<VisitorData>, session: map<string, string>, local: map<string, string>)

  /** A stored session record is parsed and returned, and nothing is
      written. Without one, the counter goes up by one, is written back,
      and a record with the new count, an unknown location and the visit
      time `now` is stored for the session and returned. */
  function Initialize(session: map<string, string>, local: map<string, string>, now: string): (r: Outcome)
    ensures Truthy(Get(session, RecordKey)) ==> r.session == session && r.local == local
    ensures !Truthy(Get(session, RecordKey)) ==>
      && r.record.Some? && r.record.value.location == UnknownLocation && r.record.value.visitTime == now
      && r.session == session[RecordKey := Json.VisitorText(r.record.value)]
      && r.local == local[CounterKey := ToString(r.record.value.count)]
  {
    var existing := Get(session, RecordKey);
    if Truthy(existing) then
      Outcome(Json.ParseVisitor(existing.value), session, local)
    else
      var count := NextCount(local);
      var record := VisitorData(count, UnknownLocation, now);
      Outcome(Some(record), session[RecordKey := Json.VisitorText(record)], local[CounterKey := ToString(count)])
  }

  /** `parseInt('0')`, the reading of a counter that was never written. */
  lemma ParseZero()
    ensures ParseInt("0") == Int(0)
  {
    assert ToString(Int(0)) == "0";
    ParseIntOfToString(Int(0));
  }

  /** The next count, case by case: 1 for a counter never written, one more
      than an integer read from it, NaN for text with no leading digits. */
  lemma NextCountCases(local: map<string, string>)
    ensures var stored := Get(local, CounterKey);
      NextCount(local) == if !Truthy(stored) then Int(1) else Increment(ParseInt(stored.value))
  {
    if !Truthy(Get(local, CounterKey)) {
      ParseZero();
    }
  }

  /** A new session counts one more visit than the stored counter says (the
      first visit ever counts 1), stores that count so that `parseInt` reads
      it back, and records it for the session. */
  lemma FreshSession(session: map<string, string>, local: map<string, string>, now: string)
    requires !Truthy(Get(session, RecordKey))
    ensures var o := Initialize(session, local, now);
      var stored := Get(local, CounterKey);
      var count := if !Truthy(stored) then Int(1) else Increment(ParseInt(stored.value));
      && o.record == Some(VisitorData(count, UnknownLocation, now))
      && (Truthy(stored) && ParseInt(stored.value).Int? ==> count == Int(ParseInt(stored.value).value + 1))
      && ParseInt(o.local[CounterKey]) == count
      && (forall k :: k != CounterKey ==> Get(o.local, k) == Get(local, k))
      && Json.ParseVisitor(o.session[RecordKey]) == Some(VisitorData(if count.Int? then count else Null, UnknownLocation, now))
  {
    var o := Initialize(session, local, now);
    var count := NextCount(local);
    NextCountCases(local);
    assert o.local == local[CounterKey := ToString(count)];
    ParseIntOfToString(count);
    Json.ParseVisitorOfText(o.record.value);
  }

  /** Within a session the record is made once: calling again, at any later
      time, returns the same record (a NaN count comes back as null, as JSON
      writes it) and writes nothing. */
  lemma SameSessionAgain(session: map<string, string>, local: map<string, string>, now: string, later: string)
    requires !Truthy(Get(session, RecordKey))
    ensures var first := Initialize(session, local, now);
      var again := Initialize(first.session, first.local, later);
      var r := first.record.value;
      && again.record == Some(if r.count.Int? then r else r.(count := Null))
      && again.session == first.session
      && again.local == first.local
  {
    var first := Initialize(session, local, now);
    Json.ParseVisitorOfText(first.record.value);
    assert Json.VisitorText(first.record.value) != "";
  }

  /** The counter after a run of sessions, each starting with an empty
      session store; `times` holds the visit time of each. */
  function AfterSessions(local: map<string, string>, times: seq<string>): map<string, string>
  {
    if times == [] then local
    else Initialize(map[], AfterSessions(local, times[..|times| - 1]), times[|times| - 1]).local
  }

  /** Starting from a browser that never counted, the counter after `n`
      sessions reads `n`: every session adds exactly one visit. */
  lemma {:induction false} CountsEverySession(local: map<string, string>, times: seq<string>)
    requires CounterKey !in local
    ensures Get(AfterSessions(local, times), CounterKey) ==
      if times == [] then None else Some(ToString(Int(|times|)))
  {
    if times != [] {
      var before := times[..|times| - 1];
      CountsEverySession(local, before);
      var prior := AfterSessions(local, before);
      NextCountCases(prior);
      if before != [] {
        ParseIntOfToString(Int(|before|));
        assert ToString(Int(|before|)) != "";
      }
      assert NextCount(prior) == Int(|times|);
    }
  }
}
