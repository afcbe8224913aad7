# iCalConverter conversion core in Dafny

iCalConverter reads an iCalendar file and applies a configured chain of
*modifiers* to every VEVENT. A modifier is a filter that drops events, or a
Set/Replace modifier that rewrites one property. The program then writes
the surviving events to a new calendar file. This project models the part
that decides what happens to each event:

- `Application::run` and `Application::addModifiersToConverter`. The
  configuration array becomes a registry of modifier objects, one per inner
  key, with the classes taken from `config/ModifierClassMap.php`.
- The `Converter` state machine: `pushRegistry`, `prepare`,
  `validateCalendar`, `checkPreconditionsToConvert`, `convert` (the nested
  loop over events and modifiers, with the `continue 2` exit and the two
  counters), `save`, `getEarliestStartDateOfCal`, and the two setters.
- The three modifiers: `Filter\TimeBefore`, `Set\Organizer` and
  `Replace\Location`. They share the `AbstractModifier` constructor and the
  `process` contract.

The model keeps the source's form. `Converter`, `Modifier`, `VEvent` and
`VCalendar` are classes whose methods update their fields in place. The
loops of `convert`, `validateCalendar`, `getEarliestStartDateOfCal` and
`addModifiersToConverter` are `while` loops with invariants. Each method is
proved against a function on values:

- `Step` is one `process()` call.
- `RunFrom`/`Chain` is the modifier loop for one event.
- `Outcomes` is the event loop, which stops at the first exception.
- `Register` is the registry that the configuration yields.
- `Expected` is what `run()` ends with, with the corrected `Filter\TimeBefore` (see "Findings"). It differs from the code only for a `DateTimeImmutable` cutoff.

The model assumes PHP 8.2 or later. From that version on, `strtolower`
ignores the locale, and `count(null)` throws a `TypeError`.

The lemmas about those functions state the properties the code promises:
- A filter short-circuits the remaining modifiers.
- The changed flag is sticky.
- The counters add up.
- The export keeps the import order.
- `Set\Organizer` is idempotent.
- `Replace\Location` replaces whole values only.
- An unknown configuration key aborts before the import file is read.

Files:

| file | models |
|---|---|
| `wrappers.dfy` | `Option` and `Result` |
| `errors.dfy` | the exception classes and their messages |
| `php_string.dfy` | `trim`, `strtolower`, `empty()` on strings |
| `ical.dfy` | VEVENT and VCALENDAR objects and their values |
| `config.dfy` | the PHP values a configuration can hold |
| `filter_time_before.dfy` | `Modifier/Event/Filter/TimeBefore.php` |
| `set_organizer.dfy` | `Modifier/Event/Set/Organizer.php` |
| `replace_location.dfy` | `Modifier/Event/Replace/Location.php` |
| `modifiers.dfy` | `Modifier/AbstractModifier.php` and the dispatch to the three classes |
| `modifier_class_map.dfy` | `config/ModifierClassMap.php` |
| `pipeline.dfy` | the per-event algorithm of `convert()` on values |
| `converter.dfy` | `Converter.php` |
| `application.dfy` | `Application.php` |

The third column of the table below says what each member's contract
states. A member inside a class is qualified by module and class.

## Model

| member | source | states |
|---|---|---|
| PhpString.Trim | Modifier/Event/Replace/Location.php:51 | `trim()` removes exactly the leading and trailing characters of " \t\n\r\0\x0B" and keeps the middle of the string as it is |
| PhpString.Lower | Modifier/Event/Set/Organizer.php:44 | `strtolower()` keeps the length and lowers each ASCII capital, leaving every other character alone |
| PhpString.EmptyAfterTrim | Modifier/Event/Replace/Location.php:60 | `empty(trim($s))` holds exactly when s is made only of the characters trim() strips, or of those around a single "0" |
| PhpString.EmptyKept | Modifier/Event/Replace/Location.php:51-60 | the same for any middle piece of a string between trimmed characters whose ends are kept characters: it is empty or "0" exactly when the string is all trimmed characters or a lone "0" among them |
| ICal.InTimeRangeOverlap | Modifier/Event/Filter/TimeBefore.php:60 | for an event and a window of positive length, `isInTimeRange` holds exactly when some second lies in both |
| ICal.FirstTimeZone | Converter.php:112 | the VTIMEZONE property yields at most one time zone, the first, and yields one whenever the calendar has any |
| ICal.VCalendar.Read | Converter.php:89 | the reader builds one new event object per event of the document, distinct and in document order, with the document's time zones |
| ICal.VCalendar.Empty | Converter.php:92 | a new calendar has no time zones and no events |
| FilterTimeBefore.ParseDateTime | Modifier/Event/Filter/TimeBefore.php:48 | the DateTime constructor, as modelled, accepts exactly "@", an optional minus sign and one or more digits, and the sign of the timestamp is the sign written |
| FilterTimeBefore.ParseFormatRoundTrip | Modifier/Event/Filter/TimeBefore.php:48 | a timestamp written as "@<seconds>" is read back as the same timestamp by the modelled DateTime constructor |
| FilterTimeBefore.Cutoff | Modifier/Event/Filter/TimeBefore.php:44-52 | a DateTime or DateTimeImmutable config is the cutoff itself; a string config is parsed; any other config throws, and only these fail |
| FilterTimeBefore.ExcludesAsWritten | Modifier/Event/Filter/TimeBefore.php:42-61 | process() as written: it throws exactly when the config has the wrong shape; with a DateTimeImmutable cutoff t it answers true unless the event runs across t; otherwise true exactly when the event ends by the cutoff or starts two years or more after it |
| FilterTimeBefore.Excludes | Modifier/Event/Filter/TimeBefore.php:42-61 | process() corrected, as the rest of the model uses it: it throws exactly when the config has the wrong shape; otherwise it answers true exactly when the event ends by the cutoff or starts two years or more after it, for every kind of cutoff |
| FilterTimeBefore.AsWrittenAgrees | Modifier/Event/Filter/TimeBefore.php:55-57 | the correction changes nothing except for a DateTimeImmutable cutoff |
| FilterTimeBefore.ImmutableCutoffDropsEvent | Modifier/Event/Filter/TimeBefore.php:56-57 | with a DateTimeImmutable cutoff at 1000, the code as written drops an event from 1500 to 2000, which the intended two-year window keeps |
| FilterTimeBefore.DependsOnlyOnPeriod | Modifier/Event/Filter/TimeBefore.php:42-61 | the answer depends on the configuration and on the event's start and end only, so the location and organizer never influence it |
| FilterTimeBefore.FarFutureExcluded | Modifier/Event/Filter/TimeBefore.php:54-60 | an event starting two years or more after the cutoff is filtered out as well |
| FilterTimeBefore.RunningEventKept | Modifier/Event/Filter/TimeBefore.php:59-60 | an event that started before the cutoff and is still running at it is kept |
| SetOrganizer.Assignment | Modifier/Event/Set/Organizer.php:36-52 | throws exactly for a non-string config; reports a change exactly when ORGANIZER is unset or differs after lowering; afterwards ORGANIZER equals the config up to case, and is untouched when no change is reported |
| SetOrganizer.Idempotent | Modifier/Event/Set/Organizer.php:43-51 | a second application leaves ORGANIZER as the first left it and returns false |
| SetOrganizer.Process | Modifier/Event/Set/Organizer.php:36-52 | the method assigns the event's ORGANIZER field as Assignment says, returns its result, and touches no other field |
| ReplaceLocation.Replacement | Modifier/Event/Replace/Location.php:44-69 | throws exactly for a config that is not a non-empty array (only string tables are modelled, see "Left out"); a trimmed LOCATION found in the table is replaced first; otherwise an empty or "0" location takes the 'empty' entry; otherwise nothing changes and the result is false |
| ReplaceLocation.WholeValuesOnly | Modifier/Event/Replace/Location.php:51-64 | a change happens exactly when the whole trimmed location is a key (or is empty with an 'empty' key), and the new location is always one whole value of the table |
| ReplaceLocation.Process | Modifier/Event/Replace/Location.php:44-69 | the method assigns LOCATION as Replacement says, returns its result, and touches no other field |
| Modifiers.Step | Modifier/AbstractModifier.php:47-53 | process() throws exactly for a malformed config; a TimeBefore filter answers as the corrected `FilterTimeBefore.Excludes` (see "Left out"); it never changes the UID or the period; false means the event is unchanged; a filter only reads the event; each Set/Replace modifier changes its own property only |
| Modifiers.Modifier.constructor | Modifier/AbstractModifier.php:42-45 | the constructor stores the configuration as given, without checking its shape |
| Modifiers.Modifier.Process | Modifier/AbstractModifier.php:47-53 | the dispatched process() on an event object throws or updates the object exactly as Step says |
| ModifierClassMap.ClassMapShape | config/ModifierClassMap.php:30-34 | the table has exactly the three keys, one per class, and only 'filter_time_before' names a filter |
| Pipeline.RunFrom | Converter.php:129-148 | the modifier loop never changes the UID or the period; once the changed flag is set it stays set; an exported event reported unchanged is the event as it came in |
| Pipeline.ShortCircuit | Converter.php:137-141 | once a filter drops the event or a modifier throws, appending more modifiers to the registry changes nothing |
| Pipeline.Compose | Converter.php:132-148 | running a registry in two parts equals running the second on the event and the flag the first left |
| Pipeline.FlagIrrelevant | Converter.php:143-147 | the event the loop produces and whether it is kept do not depend on the flag's starting value |
| Pipeline.ChangedIffSomeReported | Converter.php:145-147 | for an exported event, the changed flag is true exactly when some modifier returned true on its turn |
| Pipeline.ChangedFrom | Converter.php:129-148 | the same, for the loop started from any flag: the flag ends true exactly when it started true or some modifier returned true |
| Pipeline.KeptIffNoFilterExcludes | Converter.php:132-151 | with well-configured modifiers, an event is exported exactly when no TimeBefore filter of the registry excludes it |
| Pipeline.FailsOnlyWhenMalformed | Converter.php:134 | the loop throws only if some modifier of the registry is malformed |
| Pipeline.Prefix | Converter.php:128-156 | of a sequence of per-event outcomes, the part the loop reaches: in order, up to and including the first failure, and everything when nothing fails |
| Pipeline.PrefixUnique | Converter.php:128-156 | any part of the outcomes that stops at its first failure, and otherwise covers them all, is that part |
| Pipeline.Chains | Converter.php:128-148 | one outcome per event, each the whole modifier chain applied to that event alone |
| Pipeline.Outcomes | Converter.php:128-156 | the events are processed in order, each with the whole chain and independently of the others, up to and including the first one that throws, and all of them when none throws |
| Pipeline.StoppedStays | Converter.php:128-156 | after the first exception no further event is processed, whatever follows |
| Pipeline.OutcomesStep | Converter.php:128-156 | one more event processed after no exception appends its own chain outcome |
| Pipeline.OutcomesUnique | Converter.php:128-156 | any per-event sequence of chain outcomes that stops at its first failure, and otherwise covers every event, is the outcome of the loop |
| Pipeline.PrefixStep | Converter.php:128-156 | after no failure, one more outcome extends the part the loop reaches by exactly that outcome |
| Pipeline.ChainsPrefix | Converter.php:128-148 | the outcomes of the first n events do not depend on the events after them |
| Pipeline.Survivors | Converter.php:151 | no more events are exported than were processed |
| Pipeline.Extend | Converter.php:139-155 | one more event adds one to the filtered counter when filtered, one to the changed counter when exported as changed, and itself to the export when kept |
| Pipeline.CountsAddUp | Converter.php:121-156 | filtered-out plus exported equals the number of events processed, and changed is at most exported |
| Pipeline.SurvivorsSplit | Converter.php:128-151 | the events exported from an earlier part of the calendar come before those from a later part, so the import order is kept |
| Pipeline.SurvivorsMembers | Converter.php:151 | an event is exported exactly when it is at a position whose outcome is kept |
| Conversion.OpenImportFile | Converter.php:195-206 | a missing file throws InvalidArgumentException "… does not exist.", a file that cannot be opened throws Exception "… could not be opened for reading.", and only a read file goes on |
| Conversion.FirstFatal | Converter.php:216-222 | finds the first problem of level 3, or says that there is none |
| Conversion.SnapshotOfSurvivors | Converter.php:151 | the exported event objects carry the values the modifiers gave them |
| Conversion.Converter.constructor | Converter.php:71-75 | stores the two file names; the registry is empty and both calendars are null |
| Conversion.Converter.PushRegistry | Converter.php:189-190 | appends the modifier at the end, the earlier ones kept in order |
| Conversion.Converter.SetImportCal | Converter.php:301-304 | sets the import calendar only |
| Conversion.Converter.SetExportCal | Converter.php:312-315 | sets the export calendar only |
| Conversion.Converter.ValidateCalendar | Converter.php:208-237 | throws exactly when some problem has level 3, with the message of the first such problem; levels 1, 2 and others never stop it, and otherwise it returns true |
| Conversion.Converter.Prepare | Converter.php:86-97 | throws the file's exception before setting any calendar; otherwise the import calendar holds the document as new, distinct objects, the export calendar is new and empty, and validation decides the result |
| Conversion.Converter.CheckPreconditionsToConvert | Converter.php:239-247 | succeeds exactly when both calendars are set and the registry is non-empty; otherwise throws the DomainException naming the missing part |
| Conversion.Converter.ProcessEvent | Converter.php:129-148 | the inner loop leaves the event object and returns the verdict exactly as Chain computes them from the event's previous value |
| Conversion.Converter.ConvertEvent | Converter.php:128-156 | one round of the outer loop keeps the loop's invariant: the outcomes so far, the events processed or untouched, the exported events and the two counters |
| Conversion.Converter.ProcessEvents | Converter.php:121-156 | the outer loop processes events in order until one throws, each object ends as its chain left it, the export calendar gets the kept objects in import order, and the result is the exception or the two counters |
| Conversion.Converter.Convert | Converter.php:108-162 | throws DomainException without a calendar or without modifiers; otherwise gives the export calendar the first import time zone; it throws TypeError for an import calendar without events; otherwise it exports the kept events, and the result is the counters or the exception of the event that threw; into an empty export calendar it writes exactly that time zone and the kept events as modified |
| Conversion.Converter.Save | Converter.php:170-179 | throws DomainException when a calendar is missing and TypeError when the export calendar has no event, and otherwise yields the export document |
| Conversion.Converter.EarliestStartDate | Converter.php:249-263 | the result is at most now and at most every event start, and it is now or some event's start |
| Application.Register | Application.php:72-83 | never more modifiers than pairs, and one per pair when every key is known |
| Application.RegisterMeaning | Application.php:72-83 | the pairs before the stop get, in order, the modifier their key names with their own value; the stop is an unknown key, and its OutOfRangeException is the one thrown |
| Application.RegisterFailsIffUnknown | Application.php:75-77 | registration throws exactly when some key is unknown to the class map |
| Application.RegisterStep | Application.php:73-81 | one more known pair appends its modifier, and one more unknown pair throws its exception |
| Application.RegisterStops | Application.php:75-77 | once a key is unknown, the pairs after it change nothing |
| Application.UnknownKeyStops | Application.php:72-77 | an unknown key at item a, position b decides the whole outcome of the nested loop, whatever comes after it |
| Application.AddModifiersToConverter | Application.php:70-85 | pushes new objects, one per pair, in configuration order after the modifiers already registered, and throws exactly when a key is unknown; the modifiers pushed before the throw stay |
| Application.UnknownKeyAbortsRun | Application.php:54-56 | an unknown configuration key makes run() throw for the first such key, whatever the import file holds |
| Application.ExampleConfigurationFails | config/Configuration_Example.php:39-41 | a configuration that starts like the example, with 'expandEnd', makes run() throw OutOfRangeException for 'expandEnd' |
| Application.ProcessedValue | Application.php:56-58 | the chained calls succeed only for a read file, a non-empty registry and some import event, with no event throwing and some event kept; the document is then the first time zone and the kept events as modified |
| Application.WrittenWasKept | Converter.php:128-156 | every written event is the result of some import event whose chain kept it |
| Application.KeptIsWritten | Converter.php:128-156 | every import event whose chain keeps it is written, as modified |
| Application.WrittenEvents | Converter.php:121-156 | when no event throws: an event is written exactly when its chain keeps it, as modified, and written plus filtered equals the number of events |
| Application.ProcessedWrites | Application.php:56-58 | a successful prepare, convert and save wrote the first time zone and at least one event; no event threw; an event is written exactly when its chain keeps it; written plus filtered equals the number of events |
| Application.SuccessfulRun | Application.php:48-61 | after a successful run() the file was read and the registry is non-empty; no event threw; the written document has the first import time zone and at least one event; an event is written exactly when its chain keeps it, as modified; written plus filtered equals the number of events |
| Application.PrepareConvertSave | Application.php:56-58 | the chained prepare, convert and save end exactly as Processed says for the converter's registry |
| Application.Run | Application.php:48-61 | run() ends exactly as Expected says: the configuration error, the file error, the validation error, the missing-modifier error, the TypeError for no events to count, the first modifier exception, or the written document |

## Left out

- File I/O is left out: reading the import file, `fclose`, and writing the export file (`saveExportFile`). An `ImportFile` value stands for the file system and the reader, and `Save`/`Run` return the document that would be written. The export file's own error (Converter.php:265-275) is therefore not modelled.
- `Run` returns the document or the exception in place of the PHP return value 0.
- The Sabre VObject library is not modelled: parsing, serialising and `validate()`. `validate()`'s result is the `problems` parameter, and a parse error of the reader is not modelled. The effective end of an event (from DTEND, DURATION or an all-day DTSTART) is given as an integer.
- `isInTimeRange` is modelled as strict overlap of the event with the open window. This is the library's rule for a non-recurring event; recurring events are not modelled.
- Recurrence expansion (`convert($expandEnd)`, Converter.php:114-118) is left out, since `run()` never passes an end time. `EarliestStartDate` is modelled on its own.
- Time zones are only copied as opaque text, and timezone conversion in `getEarliestStartDateOfCal` is left out: all times are Unix timestamps.
- `DateInterval('P2Y')` is the fixed offset `TwoYears` (2 × 365 days), so leap days are ignored.
- `FilterTimeBefore.Cutoff`: the DateTime constructor accepts only the "@<seconds>" format, and every other string is a parse error. PHP accepts many more formats.
- `PhpString.Lower` lowers ASCII letters only, as `strtolower` does from PHP 8.2 on. Locale-dependent lowering in older PHP versions is not modelled.
- ReplaceLocation.Replacement: a table is modelled as a map from string keys to string values only. Location.php:45 accepts every non-empty array, and a table holding some other value (a number, a nested array) then assigns that value to LOCATION. The model has no value for such a table (it falls under `OtherValue`, which throws), because the library's conversion of a non-string value into a property is not modelled.
- When the import calendar has no VTIMEZONE, Converter.php:112 assigns null to the export calendar's VTIMEZONE property. The library's handling of that assignment is not modelled; the model leaves the export calendar without a time zone.
- The level-2 branch of `validateCalendar` (Converter.php:224-227) calls `warn()` on the logger, which LoggerInterface does not declare. The model takes that call to be logging only, as a logger that provides `warn()` does.
- Application.Run: the class map is loaded with `require_once` (Application.php:87-89). A second `run()` in the same process would get `true` instead of the array. The model describes the first call, which is the only one the command line makes (iCalConverter.php:64).
- Logging is left out (it has no effect on control flow). The two counters of `convert()`, which PHP only logs, are returned as `Counters`.
- `Application.Register`: every configuration item is modelled as an array of key => value pairs. An item that is not an array (such as a top-level `'set_organizer' => 'x'`) makes the `foreach` at Application.php:73 warn and skip it, so PHP silently registers no modifier for it. The model has no such input.
- `Application.Register`: an inner PHP array cannot hold the same key twice. The model takes the inner keys as a sequence of pairs and does not rule out duplicates.
- Dynamic class instantiation by name (Application.php:79-80) is a match on `ModifierKind`.
- `Conversion.Converter.Convert` requires the import calendar's events to be distinct objects. A parsed document always has distinct objects, and `Prepare` and `VCalendar.Read` guarantee it. When the same object is added twice through `setImportCal`, PHP would process it twice; that case is not modelled.
- `Modifiers.Step`: the TimeBefore case uses the corrected `FilterTimeBefore.Excludes`, not `FilterTimeBefore.ExcludesAsWritten`. For a `DateTimeImmutable` cutoff, `Chain`, `Outcomes`, `Convert`, `Expected` and `Run` therefore describe the intended two-year window, not the instant [t, t] that TimeBefore.php:56-57 computes. Example: a `DateTimeImmutable` cutoff at 1000 and one event from 1500 to 2000. The model writes the event; PHP filters it out, and `save()` then throws a TypeError. `FilterTimeBefore.AsWrittenAgrees` shows that this is the only kind of config where the two differ.
- `Modifiers.Step`: "true" does not imply "changed". `Replace\Location` returns true when a table entry maps a location to itself, and the model keeps that.
- `getImportCal`/`getExportCal` are plain getters with nothing to prove, and `iCalConverter.php` (command line, configuration loading) is not part of this model.

## Findings

| source | as written | input that shows it | evidently intended | confidence | as-written member | corrected member |
|---|---|---|---|---|---|---|
| Modifier/Event/Filter/TimeBefore.php:56-57 | the window end is a clone of the cutoff, moved by calling add(). For a DateTimeImmutable cutoff, add() returns a new object and the clone stays at the cutoff, so the window is the single instant t | a DateTimeImmutable cutoff at timestamp 1000 and an event from 1500 to 2000: the event is filtered out | the two years after the cutoff, for every DateTimeInterface accepted at line 44 (the comment at line 59 says so) | high that the code behaves so; not executed | FilterTimeBefore.ExcludesAsWritten, FilterTimeBefore.ImmutableCutoffDropsEvent | FilterTimeBefore.Excludes |

`Modifiers.Step` and everything built on it use the corrected
`FilterTimeBefore.Excludes`. `FilterTimeBefore.AsWrittenAgrees` shows that
this differs from the code only for a DateTimeImmutable cutoff. The
shipped configurations pass a mutable `\DateTime`.

`Filter\TimeBefore` is modelled as the code behaves, not as its name and doc comment suggest ("starting before a certain date"). The code drops every event outside the two years after the cutoff, including events far in the future, and keeps an event that started before the cutoff but is still running at it (`FarFutureExcluded`, `RunningEventKept`).
