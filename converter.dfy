/** Converter.php: the object that owns the import and export calendars and
    the modifier registry, and runs prepare, convert and save. */
module Conversion {
  import opened Wrappers
  import opened Errors
  import opened ICal
  import opened Modifiers
  import opened Pipeline

  /** The two counters convert() keeps (the PHP code only logs them). */
  datatype Counters = Counters(filteredOut: nat, changed: nat)

  /** The import file as prepare() finds it: missing, present but not
      openable, or read and parsed into a document. */
  datatype ImportFile = Missing | Unopenable | Parsed(data: CalendarData)

  /** openImportFile followed by the reader: the parsed document, or the
      exception for a file that is missing or cannot be opened. */
  function OpenImportFile(importFile: string, file: ImportFile): (r: Result<CalendarData, Error>)
    ensures r.Success? <==> file.Parsed?
    ensures file.Missing? ==> r == Failure(InvalidArgument(importFile + " does not exist."))
    ensures file.Unopenable? ==> r == Failure(IOError(importFile + " could not be opened for reading."))
  {
    match file
    case Missing => Failure(InvalidArgument(importFile + " does not exist."))
    case Unopenable => Failure(IOError(importFile + " could not be opened for reading."))
    case Parsed(data) => Success(data)
  }

  /** The position of the first level-3 (fatal) problem, if any. */
  function FirstFatal(problems: seq<Problem>): (r: Option<nat>)
    ensures r.Some? ==> r.value < |problems| && problems[r.value].level == 3
    ensures r.Some? ==> forall j :: 0 <= j < r.value ==> problems[j].level != 3
    ensures r.None? ==> forall j :: 0 <= j < |problems| ==> problems[j].level != 3
  {
    if problems == [] then None
    else if problems[0].level == 3 then Some(0)
    else match FirstFatal(problems[1..])
      case None => None
      case Some(k) => Some(k + 1)
  }

  function InvalidCalendar(p: Problem): Error {
    InvalidArgument("Invalid calendar data: " + p.message)
  }

  /** The outcome of validateCalendar: only a fatal problem stops it. */
  function Validation(problems: seq<Problem>): Result<bool, Error> {
    match FirstFatal(problems)
    case None => Success(true)
    case Some(k) => Failure(InvalidCalendar(problems[k]))
  }

  /** What convert() ends with: the exception of the event that threw, or
      the two counters. */
  function Report(os: seq<Outcome>): Result<Counters, Error> {
    if Stopped(os) then Failure(os[|os| - 1].verdict.error)
    else Success(Counters(CountFiltered(os), CountChanged(os)))
  }

  /** The values of the exported event objects are the exported values. */
  lemma {:induction false} SnapshotOfSurvivors(evs: seq<VEvent>, os: seq<Outcome>)
    requires |os| <= |evs|
    requires forall i :: 0 <= i < |os| ==> evs[i].Data() == os[i].event
    ensures Snapshot(Survivors(evs, os)) == Survivors(Finals(os), os)
  {
    if os != [] {
      var front := os[..|os| - 1];
      SnapshotOfSurvivors(evs, front);
      assert Finals(os)[|os| - 1] == os[|os| - 1].event;
      assert forall i :: 0 <= i < |front| ==> Finals(front)[i] == Finals(os)[i];
      assert Survivors(Finals(os), front) == Survivors(Finals(front), front) by {
        SurvivorsAgree(Finals(os), Finals(front), front);
      }
    }
  }

  /** Survivors looks only at the positions that have an outcome. */
  lemma {:induction false} SurvivorsAgree<T>(xs: seq<T>, ys: seq<T>, os: seq<Outcome>)
    requires |os| <= |xs| && |os| <= |ys|
    requires forall i :: 0 <= i < |os| ==> xs[i] == ys[i]
    ensures Survivors(xs, os) == Survivors(ys, os)
  {
    if os != [] {
      SurvivorsAgree(xs, ys, os[..|os| - 1]);
    }
  }

  /** The values convert()'s outer loop has computed after the first i
      events: their outcomes, in order and with no failure before the last,
      the events exported and the two counters. */
  ghost predicate Tally(mods: seq<ModifierSpec>, ds: seq<EventData>, evs: seq<VEvent>, i: nat,
                        os: seq<Outcome>, exported: seq<VEvent>, filteredOut: nat, changed: nat)
  {
    && i <= |evs| && |ds| == |evs| && |os| == i
    && (forall j :: 0 <= j < i ==> os[j] == Chain(mods, ds[j]))
    && (forall j :: 0 <= j < i - 1 ==> !os[j].verdict.Failed?)
    && exported == Survivors(evs, os)
    && filteredOut == CountFiltered(os) && changed == CountChanged(os)
  }

  /** One more event processed, after no failure so far. */
  lemma Advance(mods: seq<ModifierSpec>, ds: seq<EventData>, evs: seq<VEvent>, i: nat, os: seq<Outcome>, o: Outcome,
                exported: seq<VEvent>, filteredOut: nat, changed: nat,
                exported': seq<VEvent>, filteredOut': nat, changed': nat)
    requires Tally(mods, ds, evs, i, os, exported, filteredOut, changed)
    requires i < |evs| && !Stopped(os) && o == Chain(mods, ds[i])
    requires exported' == exported + (if o.verdict.Kept? then [evs[i]] else [])
    requires filteredOut' == filteredOut + (if o.verdict.Filtered? then 1 else 0)
    requires changed' == changed + (if o.verdict == Kept(true) then 1 else 0)
    ensures Tally(mods, ds, evs, i + 1, os + [o], exported', filteredOut', changed')
  {
    var os' := os + [o];
    assert forall j :: 0 <= j < i ==> os'[j] == os[j];
    assert os'[i] == o;
    Extend(evs, os, o);
  }

  /** The events before position i hold their outcomes, the others their
      values from before the loop. */
  ghost predicate Touched(evs: seq<VEvent>, ds: seq<EventData>, i: nat, os: seq<Outcome>)
    reads evs
  {
    && i <= |evs| && |ds| == |evs| && |os| == i
    && (forall j :: 0 <= j < i ==> evs[j].Data() == os[j].event)
    && (forall j :: i <= j < |evs| ==> evs[j].Data() == ds[j])
  }

  lemma DistinctAt(evs: seq<VEvent>, i: nat)
    requires Distinct(evs) && i < |evs|
    ensures forall j :: 0 <= j < |evs| && j != i ==> evs[j] != evs[i]
  {
  }

  /** The state of convert()'s outer loop after the first i events, for the
      registry mods: their outcomes, the events as the modifiers left them,
      the events exported (after the ones in base) and the two counters. */
  ghost predicate Progress(mods: seq<ModifierSpec>, evs: seq<VEvent>, ds: seq<EventData>, target: VCalendar,
                           base: seq<VEvent>, i: nat, os: seq<Outcome>, exported: seq<VEvent>,
                           filteredOut: nat, changed: nat)
    reads evs, target
  {
    && Tally(mods, ds, evs, i, os, exported, filteredOut, changed)
    && Touched(evs, ds, i, os)
    && target.events == base + exported
  }

  /** Before the first event: nothing processed, nothing exported. */
  lemma ProgressStart(mods: seq<ModifierSpec>, evs: seq<VEvent>, ds: seq<EventData>, target: VCalendar)
    requires |ds| == |evs| && forall j :: 0 <= j < |evs| ==> evs[j].Data() == ds[j]
    ensures Progress(mods, evs, ds, target, target.events, 0, [], [], 0, 0)
  {
    assert target.events == target.events + [];
  }

  /** What the loop state says once the loop is left after i events. */
  lemma ProgressEnd(mods: seq<ModifierSpec>, evs: seq<VEvent>, ds: seq<EventData>, target: VCalendar,
                    base: seq<VEvent>, i: nat, os: seq<Outcome>, exported: seq<VEvent>,
                    filteredOut: nat, changed: nat)
    requires Progress(mods, evs, ds, target, base, i, os, exported, filteredOut, changed)
    ensures |os| == i <= |evs|
    ensures forall j :: 0 <= j < |os| ==> os[j] == Chain(mods, ds[j])
    ensures forall j :: 0 <= j < |os| - 1 ==> !os[j].verdict.Failed?
    ensures forall j :: 0 <= j < |os| ==> evs[j].Data() == os[j].event
    ensures forall j :: |os| <= j < |evs| ==> evs[j].Data() == ds[j]
    ensures target.events == base + Survivors(evs, os)
    ensures filteredOut == CountFiltered(os) && changed == CountChanged(os)
  {
  }

  class Converter {
    var modifierRegistry: seq<Modifier>
    const importFileName: string
    const exportFileName: string
    var importCal: VCalendar?
    var exportCal: VCalendar?

    constructor (importFile: string, exportFile: string)
      ensures importFileName == importFile && exportFileName == exportFile
      ensures modifierRegistry == [] && importCal == null && exportCal == null
    {
      importFileName, exportFileName := importFile, exportFile;
      modifierRegistry := [];
      importCal, exportCal := null, null;
    }

    /** The registry as values. */
    function Registry(): seq<ModifierSpec>
      reads this
    {
      Specs(modifierRegistry)
    }

    /** Both calendars are there and the registry is not empty. */
    predicate Ready()
      reads this
    {
      importCal != null && exportCal != null && modifierRegistry != []
    }

    /** pushRegistry: appends, keeping the modifiers already registered. */
    method PushRegistry(m: Modifier)
      modifies this`modifierRegistry
      ensures modifierRegistry == old(modifierRegistry) + [m]
    {
      modifierRegistry := modifierRegistry + [m];
    }

    method SetImportCal(cal: VCalendar)
      modifies this`importCal
      ensures importCal == cal
    {
      importCal := cal;
    }

    method SetExportCal(cal: VCalendar)
      modifies this`exportCal
      ensures exportCal == cal
    {
      exportCal := cal;
    }

    /** validateCalendar on the problems the library's validate() returned:
        throws on the first level-3 problem, and otherwise returns true
        whatever the levels of the others. */
    method ValidateCalendar(problems: seq<Problem>) returns (r: Result<bool, Error>)
      ensures r.Failure? <==> exists i :: 0 <= i < |problems| && problems[i].level == 3
      ensures r.Failure? ==>
        exists i :: (0 <= i < |problems| && problems[i].level == 3
                     && r.error == InvalidCalendar(problems[i])
                     && forall j :: 0 <= j < i ==> problems[j].level != 3)
      ensures r.Success? ==> r.value
      ensures r == Validation(problems)
    {
      if problems == [] {
        return Success(true);
      }
      var i := 0;
      while i < |problems|
        invariant 0 <= i <= |problems|
        invariant forall j :: 0 <= j < i ==> problems[j].level != 3
      {
        if problems[i].level == 3 {
          return Failure(InvalidCalendar(problems[i]));
        }
        // levels 2 and 1 are only logged
        i := i + 1;
      }
      return Success(true);
    }

    /** prepare(), with the file system and the reader as the parameter
        file, and problems being what validate() returns for the document:
        the calendars are set only once the file has been read. */
    method Prepare(file: ImportFile, problems: seq<Problem>) returns (r: Result<(), Error>)
      modifies this`importCal, this`exportCal
      ensures !file.Parsed? ==> r == Failure(OpenImportFile(importFileName, file).error)
      ensures !file.Parsed? ==> importCal == old(importCal) && exportCal == old(exportCal)
      ensures file.Parsed? ==> importCal != null && exportCal != null && importCal != exportCal
      ensures file.Parsed? ==> fresh(importCal) && fresh(exportCal)
      ensures file.Parsed? ==> importCal.Contents() == file.data
      ensures file.Parsed? ==> Distinct(importCal.events) && forall e :: e in importCal.events ==> fresh(e)
      ensures file.Parsed? ==> exportCal.timezones == [] && exportCal.events == []
      ensures file.Parsed? ==> r == (if Validation(problems).Success? then Success(()) else Failure(Validation(problems).error))
    {
      var read := OpenImportFile(importFileName, file);
      if read.Failure? {
        return Failure(read.error);
      }
      importCal := new VCalendar.Read(read.value);
      exportCal := new VCalendar.Empty();
      var valid := ValidateCalendar(problems);
      if valid.Failure? {
        return Failure(valid.error);
      }
      return Success(());
    }

    /** checkPreconditionsToConvert. */
    method CheckPreconditionsToConvert() returns (r: Result<(), Error>)
      ensures r.Success? <==> Ready()
      ensures (importCal == null || exportCal == null) ==> r == Failure(DomainError(NotPreparedMessage))
      ensures importCal != null && exportCal != null && modifierRegistry == [] ==>
        r == Failure(DomainError(NoModifiersMessage))
    {
      if importCal == null || exportCal == null {
        return Failure(DomainError(NotPreparedMessage));
      }
      if modifierRegistry == [] {
        return Failure(DomainError(NoModifiersMessage));
      }
      return Success(());
    }

    /** The inner loop of convert() for one event: every modifier in
        registry order until a filter answers true or a modifier throws. */
    method ProcessEvent(e: VEvent) returns (v: Verdict)
      modifies e
      ensures Outcome(e.Data(), v) == Chain(Registry(), old(e.Data()))
    {
      ghost var mods := Registry();
      var changed := false;
      var k := 0;
      while k < |modifierRegistry|
        invariant 0 <= k <= |modifierRegistry|
        invariant RunFrom(mods[k..], e.Data(), changed) == Chain(mods, old(e.Data()))
      {
        var modifier := modifierRegistry[k];
        assert mods[k..][0] == modifier.Spec() && mods[k..][1..] == mods[k + 1..];
        var result := modifier.Process(e);
        match result {
          case Failure(err) =>
            return Failed(err);
          case Success(b) =>
            // true from a filter: the event is dropped, later modifiers are skipped
            if b && IsFilter(modifier.kind) {
              return Filtered;
            }
            // a later false must not clear the flag
            if b {
              changed := true;
            }
        }
        k := k + 1;
      }
      return Kept(changed);
    }

    /** convert() without recurrence expansion: gives the export calendar
        the first time zone of the import calendar, counts the import
        events (PHP 8 throws a TypeError for a calendar without any), then
        runs every modifier on every event and adds the events no filter
        dropped to the export calendar. */
    method Convert() returns (r: Result<Counters, Error>)
      requires importCal != null ==> Distinct(importCal.events)
      modifies exportCal, if importCal == null then {} else set e | e in importCal.events
      ensures !Ready() ==> r.Failure? && r.error.DomainError?
      ensures (importCal == null || exportCal == null) ==> r == Failure(DomainError(NotPreparedMessage))
      ensures importCal != null && exportCal != null && modifierRegistry == [] ==>
        r == Failure(DomainError(NoModifiersMessage))
      ensures !Ready() && exportCal != null ==> unchanged(exportCal)
      ensures !Ready() && importCal != null ==> unchanged(importCal.events)
      ensures Ready() ==> exportCal.timezones == FirstTimeZone(old(importCal.timezones))
      ensures Ready() && old(importCal.events) == [] ==>
        r == Failure(TypeError(CountNullMessage)) && exportCal.events == old(exportCal.events)
      ensures Ready() && old(importCal.events) != [] ==>
        var evs := old(importCal.events);
        var os := Outcomes(Registry(), old(Snapshot(importCal.events)));
        && exportCal.events == old(exportCal.events) + Survivors(evs, os)
        && (forall i :: 0 <= i < |os| ==> evs[i].Data() == os[i].event)
        && (forall i :: |os| <= i < |evs| ==> evs[i].Data() == old(evs[i].Data()))
        && r == Report(os)
      // the document save() writes, for an export calendar that started empty
      ensures Ready() && old(importCal.events) != [] && old(exportCal.events) == [] ==>
        var os := Outcomes(Registry(), old(Snapshot(importCal.events)));
        exportCal.Contents() == CalendarData(FirstTimeZone(old(importCal.timezones)), Survivors(Finals(os), os))
    {
      var pre := CheckPreconditionsToConvert();
      if pre.Failure? {
        return Failure(pre.error);
      }
      var evs := importCal.events;
      ghost var ds := Snapshot(evs);
      // the VTIMEZONE property: the first time zone only
      exportCal.timezones := FirstTimeZone(importCal.timezones);
      assert Snapshot(evs) == ds;
      if evs == [] {
        // count() of the missing VEVENT property
        return Failure(TypeError(CountNullMessage));
      }
      ghost var os;
      ghost var mods := Registry();
      ghost var before := exportCal.events;
      r, os := ProcessEvents(evs, exportCal, ds, mods);
      assert Registry() == mods && Ready();
      OutcomesUnique(mods, ds, os);
      if before == [] {
        assert exportCal.events == Survivors(evs, os);
        SnapshotOfSurvivors(evs, os);
      }
    }

    /** The body of convert()'s outer loop, for the event at position i. */
    method ConvertEvent(evs: seq<VEvent>, target: VCalendar, i: nat, filteredOut: nat, changed: nat,
                        ghost mods: seq<ModifierSpec>, ghost ds: seq<EventData>, ghost base: seq<VEvent>,
                        ghost os: seq<Outcome>, ghost exported: seq<VEvent>)
      returns (v: Verdict, filteredOut': nat, changed': nat, ghost os': seq<Outcome>, ghost exported': seq<VEvent>)
      requires mods == Registry()
      requires i < |evs| && !Stopped(os)
      requires forall j :: 0 <= j < |evs| && j != i ==> evs[j] != evs[i]
      requires Progress(mods, evs, ds, target, base, i, os, exported, filteredOut, changed)
      modifies evs[i], target`events
      ensures os' == os + [Outcome(evs[i].Data(), v)]
      ensures Progress(mods, evs, ds, target, base, i + 1, os', exported', filteredOut', changed')
    {
      var event := evs[i];
      v := ProcessEvent(event);
      ghost var o := Outcome(event.Data(), v);
      os', exported' := os + [o], exported;
      filteredOut', changed' := filteredOut, changed;
      if v.Filtered? {
        filteredOut' := filteredOut + 1;
      } else if v.Kept? {
        // a kept event goes to the export calendar
        target.events := target.events + [event];
        exported' := exported + [event];
        if v.changed {
          changed' := changed + 1;
        }
      }
      // only the event at position i was processed
      assert forall j :: 0 <= j < |evs| && j != i ==> evs[j].Data() == old(evs[j].Data());
      Advance(mods, ds, evs, i, os, o, exported, filteredOut, changed, exported', filteredOut', changed');
    }

    /** The outer loop of convert(): each event in document order, counting
        the events filtered out and the exported events reported changed,
        until a modifier throws. os is the outcome of every event processed;
        ds holds the values the events had before, and mods is the
        registry. */
    method ProcessEvents(evs: seq<VEvent>, target: VCalendar, ghost ds: seq<EventData>, ghost mods: seq<ModifierSpec>)
      returns (r: Result<Counters, Error>, ghost os: seq<Outcome>)
      requires mods == Registry()
      requires Distinct(evs) && |ds| == |evs|
      requires forall j :: 0 <= j < |evs| ==> evs[j].Data() == ds[j]
      modifies target`events, evs
      ensures target.timezones == old(target.timezones)
      ensures |os| <= |evs| && (Stopped(os) || |os| == |evs|)
      ensures forall j :: 0 <= j < |os| ==> os[j] == Chain(mods, ds[j])
      ensures forall j :: 0 <= j < |os| - 1 ==> !os[j].verdict.Failed?
      ensures forall j :: 0 <= j < |os| ==> evs[j].Data() == os[j].event
      ensures forall j :: |os| <= j < |evs| ==> evs[j].Data() == ds[j]
      ensures target.events == old(target.events) + Survivors(evs, os)
      ensures r == Report(os)
    {
      var numEventsChanged, numEventsFilteredOut := 0, 0;
      var failure: Option<Error> := None;
      os := [];
      ghost var exported: seq<VEvent> := [];
      var i := 0;
      ProgressStart(mods, evs, ds, target);
      while i < |evs| && failure.None?
        invariant Progress(mods, evs, ds, target, old(target.events), i, os, exported, numEventsFilteredOut, numEventsChanged)
        invariant failure.None? <==> !Stopped(os)
        invariant failure.Some? ==> failure.value == os[i - 1].verdict.error
      {
        DistinctAt(evs, i);
        var v;
        v, numEventsFilteredOut, numEventsChanged, os, exported :=
          ConvertEvent(evs, target, i, numEventsFilteredOut, numEventsChanged, mods, ds, old(target.events), os, exported);
        if v.Failed? {
          // the exception leaves the loop and convert()
          failure := Some(v.error);
        }
        i := i + 1;
      }
      ProgressEnd(mods, evs, ds, target, old(target.events), i, os, exported, numEventsFilteredOut, numEventsChanged);
      r := if failure.Some? then Failure(failure.value)
           else Success(Counters(numEventsFilteredOut, numEventsChanged));
    }

    /** save(), with the serialising and writing done by the library: the
        document that would be written, or the exception when the converter
        holds no data or (counting the export events) when no event is left
        to write. */
    method Save() returns (r: Result<CalendarData, Error>)
      ensures (importCal == null || exportCal == null) ==> r == Failure(DomainError(NotPreparedMessage))
      ensures importCal != null && exportCal != null && exportCal.events == [] ==>
        r == Failure(TypeError(CountNullMessage))
      ensures importCal != null && exportCal != null && exportCal.events != [] ==>
        r == Success(exportCal.Contents())
    {
      if importCal == null || exportCal == null {
        return Failure(DomainError(NotPreparedMessage));
      }
      if exportCal.events == [] {
        return Failure(TypeError(CountNullMessage));
      }
      return Success(exportCal.Contents());
    }

    /** getEarliestStartDateOfCal: the earliest of now and every event
        start, computed as a running minimum. */
    method EarliestStartDate(now: int, calendar: VCalendar) returns (earliest: int)
      ensures earliest <= now
      ensures forall e :: e in calendar.events ==> earliest <= e.start
      ensures earliest == now || exists e :: e in calendar.events && earliest == e.start
    {
      earliest := now;
      var k := 0;
      while k < |calendar.events|
        invariant 0 <= k <= |calendar.events|
        invariant earliest <= now
        invariant forall j :: 0 <= j < k ==> earliest <= calendar.events[j].start
        invariant earliest == now || exists j :: 0 <= j < k && earliest == calendar.events[j].start
      {
        if calendar.events[k].start < earliest {
          earliest := calendar.events[k].start;
        }
        k := k + 1;
      }
    }
  }
}
