/**
 * `get_structured_agenda`: the child events of an event grouped by the day
 * they start, then by start time, then by place. Python's sets hand out
 * their elements in no promised order, so the order of days and of places
 * is left open here: each is picked by `:|` from what is left.
 */
module Agenda {
  import opened Wrappers
  import opened Recurrence
  import opened Occurrences

  /** `event.place`, which may be empty. */
  type Place = Option<string>

  /** The parts of a child event the agenda looks at. */
  datatype ChildEvent = ChildEvent(id: EventId, start: Instant, place: Place)

  /** One entry of the agenda: a day, its places, and for each start time one cell per place. */
  datatype DayAgenda = DayAgenda(date: int, places: seq<Place>, agenda: map<int, seq<Option<ChildEvent>>>)

  const SecondsPerDay := 86400

  /** `start.date()`, as a day number. */
  function DateOf(t: Instant): int
  {
    t / SecondsPerDay
  }

  /** `start.time()`, as seconds since midnight. */
  function TimeOf(t: Instant): (s: int)
    ensures 0 <= s < SecondsPerDay
  {
    t % SecondsPerDay
  }

  /** The days on which some child event starts. */
  function Days(events: seq<ChildEvent>): set<int>
  {
    set e | e in events :: DateOf(e.start)
  }

  /** The places of the events starting on `day`. */
  function PlacesOn(events: seq<ChildEvent>, day: int): set<Place>
  {
    set e | e in events && DateOf(e.start) == day :: e.place
  }

  /** The start times of the events starting on `day`. */
  function TimesOn(events: seq<ChildEvent>, day: int): set<int>
  {
    set e | e in events && DateOf(e.start) == day :: TimeOf(e.start)
  }

  /** Does `e` start on `day` at `time` in `place`? */
  predicate Matches(e: ChildEvent, day: int, time: int, place: Place)
  {
    DateOf(e.start) == day && TimeOf(e.start) == time && e.place == place
  }

  /**
   * The position of the last of `events` that starts on `day` at `time` in
   * `place`, or -1 when there is none.
   */
  function LastIndex(events: seq<ChildEvent>, day: int, time: int, place: Place): (k: int)
    ensures -1 <= k < |events|
    ensures k >= 0 ==> Matches(events[k], day, time, place)
    ensures forall m :: k < m < |events| ==> !Matches(events[m], day, time, place)
  {
    if events == [] then -1
    else
      var n := |events| - 1;
      if Matches(events[n], day, time, place) then n
      else
        var k := LastIndex(events[..n], day, time, place);
        assert forall m :: k < m < n ==> events[..n][m] == events[m];
        k
  }

  /** The cell for `day`, `time` and `place`: the last matching event, if any. */
  function LastAt(events: seq<ChildEvent>, day: int, time: int, place: Place): Option<ChildEvent>
  {
    var k := LastIndex(events, day, time, place);
    if k < 0 then None else Some(events[k])
  }

  /** No element occurs twice in `s`. */
  predicate Distinct<T(==)>(s: seq<T>)
  {
    forall p, q :: 0 <= p < q < |s| ==> s[p] != s[q]
  }

  /** A well-formed entry for `a.date`: its places, its start times, and the last matching event in every cell. */
  ghost predicate EntryFor(events: seq<ChildEvent>, a: DayAgenda)
  {
    Distinct(a.places) && (forall p :: p in a.places <==> p in PlacesOn(events, a.date)) &&
    a.agenda.Keys == TimesOn(events, a.date) &&
    forall t :: t in a.agenda ==>
      |a.agenda[t]| == |a.places| &&
      forall k :: 0 <= k < |a.places| ==> a.agenda[t][k] == LastAt(events, a.date, t, a.places[k])
  }

  /** A finite set of integers holding `x` has a least element. */
  lemma {:induction false} MinExists(s: set<int>, x: int)
    requires x in s
    ensures exists m :: m in s && forall u :: u in s ==> m <= u
    decreases s
  {
    if y :| y in s && y != x {
      MinExists(s - {x}, y);
      var m :| m in s - {x} && forall u :: u in s - {x} ==> m <= u;
      var least := if x < m then x else m;
      forall u | u in s ensures least <= u {
        if u != x {
          assert u in s - {x};
        }
      }
    } else {
      assert forall u :: u in s ==> x <= u;
    }
  }

  /** `list(places)`: the elements of a set, each once, in an order the set chooses. */
  method ListOf(s: set<Place>) returns (l: seq<Place>)
    ensures Distinct(l) && forall p :: p in l <==> p in s
  {
    l := [];
    var rest := s;
    while rest != {}
      invariant Distinct(l) && rest !! set p | p in l
      invariant forall p :: p in s <==> p in l || p in rest
      decreases rest
    {
      var p :| p in rest;
      l := l + [p];
      rest := rest - {p};
    }
  }

  /** The first scan of one day: the places and the start times of its events. */
  method CollectDay(events: seq<ChildEvent>, day: int) returns (places: set<Place>, startTimes: set<int>)
    ensures places == PlacesOn(events, day) && startTimes == TimesOn(events, day)
  {
    places, startTimes := {}, {};
    for i := 0 to |events|
      invariant places == PlacesOn(events[..i], day) && startTimes == TimesOn(events[..i], day)
    {
      var event := events[i];
      assert events[..i + 1] == events[..i] + [event];
      if DateOf(event.start) == day {
        places := places + {event.place};
        startTimes := startTimes + {TimeOf(event.start)};
      }
    }
    assert events[..|events|] == events;
  }

  /** The innermost scan: the last event of `day` at `time` in `place`, or `None`. */
  method FindCell(events: seq<ChildEvent>, day: int, time: int, place: Place) returns (add: Option<ChildEvent>)
    ensures add == LastAt(events, day, time, place)
  {
    add := None;
    for i := 0 to |events|
      invariant add == LastAt(events[..i], day, time, place)
    {
      var event := events[i];
      assert events[..i + 1][..i] == events[..i];
      if DateOf(event.start) == day && TimeOf(event.start) == time && event.place == place {
        add := Some(event);
      }
    }
    assert events[..|events|] == events;
  }

  /** The row for one start time: one cell per place, in the order of `places`. */
  method FillRow(events: seq<ChildEvent>, day: int, time: int, places: seq<Place>) returns (row: seq<Option<ChildEvent>>)
    ensures |row| == |places| && forall k :: 0 <= k < |places| ==> row[k] == LastAt(events, day, time, places[k])
  {
    row := [];
    for k := 0 to |places|
      invariant |row| == k && forall m :: 0 <= m < k ==> row[m] == LastAt(events, day, time, places[m])
    {
      var add := FindCell(events, day, time, places[k]);
      row := row + [add];
    }
  }

  /** The agenda entry for one day; start times are taken in ascending order. */
  method DayEntry(events: seq<ChildEvent>, day: int) returns (entry: DayAgenda)
    ensures entry.date == day && EntryFor(events, entry)
  {
    var placeSet, startTimes := CollectDay(events, day);
    var places := ListOf(placeSet);
    var agenda: map<int, seq<Option<ChildEvent>>> := map[];
    var remaining := startTimes;
    while remaining != {}
      invariant remaining <= startTimes
      invariant agenda.Keys == startTimes - remaining
      invariant forall t :: t in agenda ==>
        |agenda[t]| == |places| && forall k :: 0 <= k < |places| ==> agenda[t][k] == LastAt(events, day, t, places[k])
      invariant forall t, u :: t in agenda && u in remaining ==> t < u
      decreases remaining
    {
      var some :| some in remaining;
      MinExists(remaining, some);
      var time :| time in remaining && forall u :: u in remaining ==> time <= u;
      var row := FillRow(events, day, time, places);
      agenda := agenda[time := row];
      remaining := remaining - {time};
    }
    entry := DayAgenda(day, places, agenda);
  }

  /** `get_structured_agenda` over the child events: one entry per day on which one of them starts. */
  method StructuredAgenda(events: seq<ChildEvent>) returns (agenda: seq<DayAgenda>)
    ensures forall d :: d in Days(events) <==> exists a :: a in agenda && a.date == d
    ensures forall p, q :: 0 <= p < q < |agenda| ==> agenda[p].date != agenda[q].date
    ensures forall a :: a in agenda ==> EntryFor(events, a)
  {
    var days := Days(events);
    agenda := [];
    var remaining := days;
    while remaining != {}
      invariant remaining <= days
      invariant forall a :: a in agenda ==> a.date in days && a.date !in remaining
      invariant forall d :: d in days && d !in remaining ==> exists a :: a in agenda && a.date == d
      invariant forall p, q :: 0 <= p < q < |agenda| ==> agenda[p].date != agenda[q].date
      invariant forall a :: a in agenda ==> EntryFor(events, a)
      decreases remaining
    {
      var day :| day in remaining;
      var dayAgenda := DayEntry(events, day);
      ghost var before, left := agenda, remaining;
      agenda := agenda + [dayAgenda];
      remaining := remaining - {day};
      forall d | d in days && d !in remaining ensures exists a :: a in agenda && a.date == d {
        if d == day {
          assert dayAgenda in agenda;
        } else {
          assert d !in left;
          var a :| a in before && a.date == d;
          assert a in agenda;
        }
      }
    }
  }
}
