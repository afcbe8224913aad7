/** The parts of the calendar library's object model the converter touches:
    events (VEVENT components) and calendars (VCALENDAR documents). Parsing,
    serialising and validating are done by the library and are not modelled;
    a parsed document is handed to the model as a CalendarData value. */
module ICal {
  import opened Wrappers

  /** The value of one event: its UID, its start (DTSTART) and its effective
      end as Unix timestamps, and its LOCATION and ORGANIZER properties
      (None when the property is not set). */
  datatype EventData = EventData(
    uid: string,
    start: int,
    end: int,
    location: Option<string>,
    organizer: Option<string>)

  /** A calendar document as a value: its VTIMEZONE definitions (opaque text)
      and its events in document order. */
  datatype CalendarData = CalendarData(timezones: seq<string>, events: seq<EventData>)

  /** One entry of the list returned by the library's validate(). */
  datatype Problem = Problem(level: int, message: string)

  /** isInTimeRange for a non-recurring event: the event overlaps the open
      window (lo, hi), with end the effective end the library computes from
      DTEND, DURATION or an all-day DTSTART. */
  predicate InTimeRange(e: EventData, lo: int, hi: int) {
    lo < e.end && hi > e.start
  }

  /** The event takes up second x: start <= x < end. */
  predicate Occupies(e: EventData, x: int) {
    e.start <= x < e.end
  }

  /** For an event of positive length and a window of positive length,
      isInTimeRange is the existence of a second that both take up. */
  lemma InTimeRangeOverlap(e: EventData, lo: int, hi: int)
    requires e.start < e.end && lo < hi
    ensures InTimeRange(e, lo, hi) <==> exists x :: Occupies(e, x) && lo <= x < hi
  {
    if InTimeRange(e, lo, hi) {
      var x := if e.start < lo then lo else e.start;
      assert Occupies(e, x) && lo <= x < hi;
    }
  }

  /** The magic property $calendar->VTIMEZONE: the first VTIMEZONE child,
      if there is one. Assigning it to another calendar leaves that
      calendar with this one time zone. */
  function FirstTimeZone(timezones: seq<string>): (r: seq<string>)
    ensures |r| <= 1 && |r| <= |timezones| && r == timezones[..|r|]
    ensures timezones != [] ==> |r| == 1
  {
    if timezones == [] then [] else [timezones[0]]
  }

  /** A VEVENT component. The converter only ever assigns LOCATION and
      ORGANIZER, so the other properties are constants. */
  class VEvent {
    const uid: string
    const start: int
    const end: int
    var location: Option<string>
    var organizer: Option<string>

    constructor (d: EventData)
      ensures Data() == d
    {
      uid, start, end := d.uid, d.start, d.end;
      location, organizer := d.location, d.organizer;
    }

    function Data(): EventData
      reads this
    {
      EventData(uid, start, end, location, organizer)
    }
  }

  /** The values of a sequence of event objects. */
  function Snapshot(evs: seq<VEvent>): (ds: seq<EventData>)
    reads evs
    ensures |ds| == |evs|
    ensures forall i :: 0 <= i < |evs| ==> ds[i] == evs[i].Data()
  {
    seq(|evs|, i reads evs requires 0 <= i < |evs| => evs[i].Data())
  }

  predicate Distinct(evs: seq<VEvent>) {
    forall i, j :: 0 <= i < j < |evs| ==> evs[i] != evs[j]
  }

  /** A VCALENDAR document. */
  class VCalendar {
    var timezones: seq<string>
    var events: seq<VEvent>

    /** new VObject\Component\VCalendar(): a document with no components. */
    constructor Empty()
      ensures timezones == [] && events == []
    {
      timezones, events := [], [];
    }

    /** The document VObject\Reader::read builds from parsed data: one fresh
        event object per event, in document order. */
    constructor Read(d: CalendarData)
      ensures timezones == d.timezones
      ensures Snapshot(events) == d.events
      ensures Distinct(events)
      ensures forall e :: e in events ==> fresh(e)
    {
      timezones := d.timezones;
      var evs: seq<VEvent> := [];
      var i := 0;
      while i < |d.events|
        invariant 0 <= i <= |d.events|
        invariant |evs| == i
        invariant forall k :: 0 <= k < i ==> evs[k].Data() == d.events[k]
        invariant Distinct(evs)
        invariant forall e :: e in evs ==> fresh(e)
      {
        var e := new VEvent(d.events[i]);
        evs := evs + [e];
        i := i + 1;
      }
      events := evs;
    }

    function Contents(): CalendarData
      reads this, events
    {
      CalendarData(timezones, Snapshot(events))
    }
  }
}
