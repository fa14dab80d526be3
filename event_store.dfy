/** The back end's event store and its HTTP handlers: request bodies are
    normalised (snake_case or camelCase names, defaults), validated as the
    schema demands, and applied to a collection modelled as a map from id to
    record. Server instants are milliseconds since the epoch; what `new
    Date(text)` makes of a time string is carried with the string. */
module EventStore {
  import opened Seqs

  const DefaultServerColor := "#4285f4"

  const NotFound := "Event not found"
  const FetchFailed := "Failed to fetch events"
  const CreateFailed := "Failed to create event"
  const UpdateFailed := "Failed to update event"

  /** A time field of a request: its text, and the instant `new Date(text)`
      gives (`None` for an invalid date). */
  datatype TimeText = TimeText(text: string, parsed: Option<int>)

  /** A request body; `None` is a field the body does not have. */
  datatype Body = Body(
    title: Option<string>,
    description: Option<string>,
    start_time: Option<TimeText>,
    end_time: Option<TimeText>,
    startTime: Option<TimeText>,
    endTime: Option<TimeText>,
    all_day: Option<bool>,
    allDay: Option<bool>,
    color: Option<string>)

  /** A stored document. */
  datatype Record = Record(
    title: string,
    description: string,
    start: int,
    end: int,
    allDay: bool,
    color: string,
    createdAt: int,
    updatedAt: int)

  datatype Payload = Records(records: seq<(nat, Record)>) | One(id: nat, record: Record) | Message(text: string) | Error(text: string)

  datatype Response = Response(status: int, payload: Payload)

  /** JavaScript truthiness of an optional string: present and non-empty. */
  predicate Truthy(s: Option<string>) {
    s.Some? && s.value != ""
  }

  function TextOf(t: Option<TimeText>): Option<string> {
    if t.Some? then Some(t.value.text) else None
  }

  /** `a || b` on two time fields. */
  function EitherTime(a: Option<TimeText>, b: Option<TimeText>): (r: Option<TimeText>)
    ensures Truthy(TextOf(a)) ==> r == a
    ensures !Truthy(TextOf(a)) ==> r == b
  {
    if Truthy(TextOf(a)) then a else b
  }

  /** `new Date(x)`: an absent value and the empty string are invalid dates. */
  function CastDate(t: Option<TimeText>): (r: Option<int>)
    ensures t.None? || t.value.text == "" ==> r.None?
    ensures t.Some? && t.value.text != "" ==> r == t.value.parsed
  {
    if t.None? || t.value.text == "" then None else t.value.parsed
  }

  /** The values a create or update writes, before validation. */
  datatype Fields = Fields(title: Option<string>, description: string, start: Option<int>, end: Option<int>,
                           allDay: bool, color: string)

  /** The handlers' normalisation: the snake_case time when it is truthy,
      else the camelCase one; `all_day` whenever it is present, even when
      false, else `allDay`, else false; "" and "#4285f4" for a missing (or
      empty) description and colour. */
  function Normalize(b: Body): (f: Fields)
    ensures f.title == b.title
    ensures f.start == CastDate(if Truthy(TextOf(b.start_time)) then b.start_time else b.startTime)
    ensures f.end == CastDate(if Truthy(TextOf(b.end_time)) then b.end_time else b.endTime)
    ensures b.all_day.Some? ==> f.allDay == b.all_day.value
    ensures b.all_day.None? ==> (f.allDay <==> b.allDay == Some(true))
    ensures f.description == if Truthy(b.description) then b.description.value else ""
    ensures f.color == if Truthy(b.color) then b.color.value else DefaultServerColor
  {
    var startDate := EitherTime(b.start_time, b.startTime);
    var endDate := EitherTime(b.end_time, b.endTime);
    var allDayEvent := if b.all_day.Some? then b.all_day.value else (b.allDay.Some? && b.allDay.value);
    Fields(b.title, if Truthy(b.description) then b.description.value else "", CastDate(startDate), CastDate(endDate),
           allDayEvent, if Truthy(b.color) then b.color.value else DefaultServerColor)
  }

  /** The schema's required fields: a non-empty title and two valid dates. */
  predicate Acceptable(f: Fields) {
    Truthy(f.title) && f.start.Some? && f.end.Some?
  }

  /** A request is accepted exactly when it names a non-empty title and one
      of each pair of time fields yields a valid date; the camelCase time is
      consulted only when the snake_case one is missing or empty. */
  lemma AcceptableIff(b: Body)
    ensures Acceptable(Normalize(b)) <==>
              Truthy(b.title)
              && CastDate(EitherTime(b.start_time, b.startTime)).Some?
              && CastDate(EitherTime(b.end_time, b.endTime)).Some?
    ensures Truthy(TextOf(b.start_time)) && b.start_time.value.parsed.None? ==> !Acceptable(Normalize(b))
  {
  }

  /** The record written for accepted fields. */
  function RecordOf(f: Fields, createdAt: int, updatedAt: int): Record
    requires Acceptable(f)
  {
    Record(f.title.value, f.description, f.start.value, f.end.value, f.allDay, f.color, createdAt, updatedAt)
  }

  /** The list filter: `$gte` and `$lte` on the start. */
  predicate InRange(r: Record, lo: int, hi: int) {
    lo <= r.start <= hi
  }

  predicate SortedByStart(s: seq<(nat, Record)>) {
    forall i, j :: 0 <= i < j < |s| ==> s[i].1.start <= s[j].1.start
  }

  /** Inserting into a list sorted by start keeps it sorted, adds the
      element and keeps every other one. */
  function Insert(x: (nat, Record), s: seq<(nat, Record)>): (r: seq<(nat, Record)>)
    requires SortedByStart(s)
    ensures SortedByStart(r)
    ensures |r| == |s| + 1
    ensures forall y :: y in r <==> y == x || y in s
  {
    if s == [] then [x]
    else if x.1.start <= s[0].1.start then [x] + s
    else
      var rest := Insert(x, s[1..]);
      assert forall y :: y in s ==> y == s[0] || y in s[1..];
      assert forall y :: y in rest ==> s[0].1.start <= y.1.start by {
        forall y | y in rest
          ensures s[0].1.start <= y.1.start
        {
          if y != x {
            var j :| 0 <= j < |s[1..]| && s[1..][j] == y;
            assert s[j + 1] == y;
          }
        }
      }
      [s[0]] + rest
  }

  /** No id occurs twice in the list. */
  predicate UniqueIds(s: seq<(nat, Record)>) {
    forall i, j :: 0 <= i < j < |s| ==> s[i].0 != s[j].0
  }

  /** Inserting an entry whose id is not yet listed keeps the ids unique. */
  lemma {:induction false} InsertKeepsIdsUnique(x: (nat, Record), s: seq<(nat, Record)>)
    requires SortedByStart(s) && UniqueIds(s)
    requires forall y :: y in s ==> y.0 != x.0
    ensures UniqueIds(Insert(x, s))
  {
    if s == [] || x.1.start <= s[0].1.start {
      PrependUnique(x, s);
    } else {
      var tail := s[1..];
      assert UniqueIds(tail) by {
        forall i, j | 0 <= i < j < |tail|
          ensures tail[i].0 != tail[j].0
        {
          assert tail[i] == s[i + 1] && tail[j] == s[j + 1];
        }
      }
      assert forall y :: y in tail ==> y in s;
      InsertKeepsIdsUnique(x, tail);
      var rest := Insert(x, tail);
      forall y | y in rest
        ensures y.0 != s[0].0
      {
        if y != x {
          var j :| 0 <= j < |tail| && tail[j] == y;
          assert s[j + 1] == y;
        }
      }
      PrependUnique(s[0], rest);
    }
  }

  /** An entry whose id the list does not have can go in front. */
  lemma PrependUnique(h: (nat, Record), t: seq<(nat, Record)>)
    requires UniqueIds(t)
    requires forall y :: y in t ==> y.0 != h.0
    ensures UniqueIds([h] + t)
  {
    var l := [h] + t;
    forall i, j | 0 <= i < j < |l|
      ensures l[i].0 != l[j].0
    {
      assert l[j] == t[j - 1];
      if i > 0 {
        assert l[i] == t[i - 1];
      }
    }
  }

  /** The entries a query selects: stored, and inside the bounds when the
      query is filtered. */
  predicate Selected(events: map<nat, Record>, filtered: bool, lo: int, hi: int, id: nat, r: Record) {
    id in events && events[id] == r && (filtered ==> InRange(r, lo, hi))
  }

  /** `Event.find(query).sort({ start_time: 1 })` over the stored map: the
      selected entries, each once, sorted by start. */
  method Query(events: map<nat, Record>, filtered: bool, lo: int, hi: int) returns (sorted: seq<(nat, Record)>)
    ensures SortedByStart(sorted)
    ensures UniqueIds(sorted)
    ensures forall id: nat, r :: (id, r) in sorted <==> Selected(events, filtered, lo, hi, id, r)
  {
    sorted := [];
    var remaining := events.Keys;
    while remaining != {}
      invariant remaining <= events.Keys
      invariant SortedByStart(sorted)
      invariant UniqueIds(sorted)
      invariant forall y :: y in sorted ==> y.0 !in remaining
      invariant forall id: nat, r :: (id, r) in sorted <==> id !in remaining && Selected(events, filtered, lo, hi, id, r)
      decreases |remaining|
    {
      var id :| id in remaining;
      if !filtered || InRange(events[id], lo, hi) {
        InsertKeepsIdsUnique((id, events[id]), sorted);
        sorted := Insert((id, events[id]), sorted);
      }
      remaining := remaining - {id};
    }
  }

  class Store {
    var events: map<nat, Record>
    var nextId: nat

    /** Ids are handed out in increasing order, so every stored id is below
        the next one. */
    predicate Valid()
      reads this
    {
      forall id :: id in events ==> id < nextId
    }

    constructor ()
      ensures Valid() && events == map[] && nextId == 0
    {
      events := map[];
      nextId := 0;
    }

    /** `GET /api/events`: when both bounds are given (truthy), only the
        events whose start lies between them, both ends included; always
        sorted by start. A bound that is not a valid date fails the query. */
    method List(startDate: Option<TimeText>, endDate: Option<TimeText>) returns (res: Response)
      requires Valid()
      ensures Truthy(TextOf(startDate)) && Truthy(TextOf(endDate)) &&
              (CastDate(startDate).None? || CastDate(endDate).None?) ==>
                res == Response(500, Error(FetchFailed))
      ensures res.status == 200 <==>
                !(Truthy(TextOf(startDate)) && Truthy(TextOf(endDate)) &&
                  (CastDate(startDate).None? || CastDate(endDate).None?))
      ensures res.status == 200 ==> res.payload.Records?
      ensures res.status == 200 ==>
                var filtered := Truthy(TextOf(startDate)) && Truthy(TextOf(endDate));
                && SortedByStart(res.payload.records)
                && UniqueIds(res.payload.records)
                && (forall id, r :: (id, r) in res.payload.records <==>
                      id in events && events[id] == r
                      && (filtered ==> InRange(r, CastDate(startDate).value, CastDate(endDate).value)))
    {
      var filtered := Truthy(TextOf(startDate)) && Truthy(TextOf(endDate));
      var lo, hi := 0, 0;
      if filtered {
        if CastDate(startDate).None? || CastDate(endDate).None? {
          return Response(500, Error(FetchFailed));
        }
        lo, hi := CastDate(startDate).value, CastDate(endDate).value;
      }
      var sorted := Query(events, filtered, lo, hi);
      res := Response(200, Records(sorted));
    }

    /** `POST /api/events`: an accepted body is stored under a fresh id with
        both timestamps `now` and returned with status 201; anything else is
        a 500 and the store is unchanged. */
    method Create(body: Body, now: int) returns (res: Response)
      requires Valid()
      modifies this
      ensures Valid()
      ensures !Acceptable(Normalize(body)) ==>
                res == Response(500, Error(CreateFailed)) && events == old(events) && nextId == old(nextId)
      ensures Acceptable(Normalize(body)) ==>
                var id := old(nextId);
                && id !in old(events)
                && events == old(events)[id := RecordOf(Normalize(body), now, now)]
                && res == Response(201, One(id, RecordOf(Normalize(body), now, now)))
                && nextId == old(nextId) + 1
    {
      var f := Normalize(body);
      if !Acceptable(f) {
        return Response(500, Error(CreateFailed));
      }
      var id := nextId;
      var saved := RecordOf(f, now, now);
      events := events[id := saved];
      nextId := nextId + 1;
      res := Response(201, One(id, saved));
    }

    /** `PUT /api/events/:id`: a body that fails validation is a 500; an
        unknown id is a 404; otherwise every field is replaced, the creation
        time kept and the update time set to `now`. Only that record
        changes. */
    method Update(id: nat, body: Body, now: int) returns (res: Response)
      requires Valid()
      modifies this`events
      ensures Valid()
      ensures !Acceptable(Normalize(body)) ==> res == Response(500, Error(UpdateFailed)) && events == old(events)
      ensures Acceptable(Normalize(body)) && id !in old(events) ==>
                res == Response(404, Error(NotFound)) && events == old(events)
      ensures Acceptable(Normalize(body)) && id in old(events) ==>
                var updated := RecordOf(Normalize(body), old(events)[id].createdAt, now);
                && events == old(events)[id := updated]
                && res == Response(200, One(id, updated))
    {
      var f := Normalize(body);
      if !Acceptable(f) {
        return Response(500, Error(UpdateFailed));
      }
      if id !in events {
        return Response(404, Error(NotFound));
      }
      var updated := RecordOf(f, events[id].createdAt, now);
      events := events[id := updated];
      res := Response(200, One(id, updated));
    }

    /** `DELETE /api/events/:id`: removes exactly that record, or answers
        404 for an unknown id and changes nothing. */
    method Delete(id: nat) returns (res: Response)
      requires Valid()
      modifies this`events
      ensures Valid()
      ensures id in old(events) ==> events == old(events) - {id} && res == Response(200, Message("Event deleted"))
      ensures id !in old(events) ==> events == old(events) && res == Response(404, Error(NotFound))
    {
      if id !in events {
        return Response(404, Error(NotFound));
      }
      events := events - {id};
      res := Response(200, Message("Event deleted"));
    }

    /** `DELETE /api/events`: the store is emptied. */
    method DeleteAll() returns (res: Response)
      requires Valid()
      modifies this`events
      ensures Valid()
      ensures events == map[] && res == Response(200, Message("All events deleted"))
    {
      events := map[];
      res := Response(200, Message("All events deleted"));
    }
  }

  /** Deleting the record a successful create just stored (under the next
      id, which no stored record has) restores the store. */
  lemma DeleteUndoesCreate(events: map<nat, Record>, nextId: nat, body: Body, now: int)
    requires forall id :: id in events ==> id < nextId
    requires Acceptable(Normalize(body))
    ensures nextId !in events
    ensures events[nextId := RecordOf(Normalize(body), now, now)] - {nextId} == events
  {
  }

  /** An update keeps the set of ids and the other records. Repeating the
      same update at a later time is the same as updating once at that
      time, and differs from the first result only in the update time. */
  lemma RepeatedUpdate(events: map<nat, Record>, id: nat, body: Body, now1: int, now2: int)
    requires id in events && Acceptable(Normalize(body))
    ensures var once := events[id := RecordOf(Normalize(body), events[id].createdAt, now1)];
            var twice := once[id := RecordOf(Normalize(body), once[id].createdAt, now2)];
            && once.Keys == events.Keys
            && (forall k :: k in events && k != id ==> once[k] == events[k])
            && twice == events[id := RecordOf(Normalize(body), events[id].createdAt, now2)]
            && twice[id] == once[id].(updatedAt := now2)
            && twice[id].createdAt == events[id].createdAt
  {
  }
}
