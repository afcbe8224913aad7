/** Application.php: turns the configuration array into registered modifier
    objects and runs prepare, convert and save on a new converter. */
module Application {
  import opened Wrappers
  import opened Errors
  import opened Config
  import opened ICal
  import opened Modifiers
  import opened ModifierClassMap
  import opened Pipeline
  import opened Conversion

  /** The exception for a configuration key the class map does not know. */
  function UnknownClass(key: string): Error {
    OutOfRange("Class map does not know of a PHP class for " + key)
  }

  /** The configuration's key => value pairs in the order the nested foreach
      visits them: item by item, and inside an item in written order. */
  function Flatten(configuration: seq<ConfigItem>): (pairs: seq<(string, ConfigValue)>)
    decreases |configuration|
  {
    if configuration == [] then []
    else Flatten(configuration[..|configuration| - 1]) + configuration[|configuration| - 1]
  }

  /** What addModifiersToConverter pushes: the modifiers for the pairs
      before the first unknown key, and the exception for that key. */
  datatype Plan = Plan(specs: seq<ModifierSpec>, error: Option<Error>)

  function Register(classMap: map<string, ModifierKind>, pairs: seq<(string, ConfigValue)>): (p: Plan)
    ensures |p.specs| <= |pairs|
    ensures p.error.None? ==> |p.specs| == |pairs|
    decreases |pairs|
  {
    if pairs == [] then Plan([], None)
    else
      var prev := Register(classMap, pairs[..|pairs| - 1]);
      var (key, value) := pairs[|pairs| - 1];
      if prev.error.Some? then prev
      else if key in classMap then Plan(prev.specs + [ModifierSpec(classMap[key], value)], None)
      else Plan(prev.specs, Some(UnknownClass(key)))
  }

  /** Every pair before the stop gets the modifier its key names, with its
      own value; the stop is the first unknown key, and its exception is the
      one thrown. */
  lemma {:induction false} RegisterMeaning(classMap: map<string, ModifierKind>, pairs: seq<(string, ConfigValue)>)
    ensures var p := Register(classMap, pairs);
      && (forall k :: 0 <= k < |p.specs| ==>
            pairs[k].0 in classMap && p.specs[k] == ModifierSpec(classMap[pairs[k].0], pairs[k].1))
      && (p.error.Some? ==>
            |p.specs| < |pairs| && pairs[|p.specs|].0 !in classMap && p.error.value == UnknownClass(pairs[|p.specs|].0))
    decreases |pairs|
  {
    if pairs != [] {
      var front := pairs[..|pairs| - 1];
      RegisterMeaning(classMap, front);
      assert forall k :: 0 <= k < |front| ==> front[k] == pairs[k];
    }
  }

  /** Registration fails exactly when some key is unknown. */
  lemma RegisterFailsIffUnknown(classMap: map<string, ModifierKind>, pairs: seq<(string, ConfigValue)>)
    ensures Register(classMap, pairs).error.Some? <==> exists k :: 0 <= k < |pairs| && pairs[k].0 !in classMap
  {
    RegisterMeaning(classMap, pairs);
    var p := Register(classMap, pairs);
    if p.error.Some? {
      assert pairs[|p.specs|].0 !in classMap;
    }
  }

  /** One more pair, after no unknown key so far. */
  lemma {:induction false} RegisterStep(classMap: map<string, ModifierKind>, pairs: seq<(string, ConfigValue)>,
                                        pair: (string, ConfigValue))
    requires Register(classMap, pairs).error.None?
    ensures Register(classMap, pairs + [pair]) ==
      if pair.0 in classMap then Plan(Register(classMap, pairs).specs + [ModifierSpec(classMap[pair.0], pair.1)], None)
      else Plan(Register(classMap, pairs).specs, Some(UnknownClass(pair.0)))
  {
    assert (pairs + [pair])[..|pairs|] == pairs;
  }

  /** Once a key is unknown, nothing after it changes the outcome. */
  lemma {:induction false} RegisterStops(classMap: map<string, ModifierKind>, pairs: seq<(string, ConfigValue)>,
                                         rest: seq<(string, ConfigValue)>)
    requires Register(classMap, pairs).error.Some?
    ensures Register(classMap, pairs + rest) == Register(classMap, pairs)
    decreases |rest|
  {
    if rest != [] {
      var front := rest[..|rest| - 1];
      RegisterStops(classMap, pairs, front);
      assert (pairs + rest)[..|pairs + rest| - 1] == pairs + front;
    } else {
      assert pairs + rest == pairs;
    }
  }

  /** One more configuration item. */
  lemma FlattenStep(configuration: seq<ConfigItem>, a: nat)
    requires a < |configuration|
    ensures Flatten(configuration[..a + 1]) == Flatten(configuration[..a]) + configuration[a]
  {
    assert configuration[..a + 1][..a] == configuration[..a];
  }

  lemma {:induction false} FlattenAppend(p: seq<ConfigItem>, q: seq<ConfigItem>)
    ensures Flatten(p + q) == Flatten(p) + Flatten(q)
    decreases |q|
  {
    if q == [] {
      assert p + q == p;
    } else {
      var front := q[..|q| - 1];
      FlattenAppend(p, front);
      assert (p + q)[..|p + q| - 1] == p + front;
    }
  }

  /** An unknown key in item a at position b decides the whole plan. */
  lemma UnknownKeyStops(classMap: map<string, ModifierKind>, configuration: seq<ConfigItem>, a: nat, b: nat)
    requires a < |configuration| && b < |configuration[a]|
    requires Register(classMap, Flatten(configuration[..a]) + configuration[a][..b]).error.None?
    requires configuration[a][b].0 !in classMap
    ensures Register(classMap, Flatten(configuration)) ==
      Plan(Register(classMap, Flatten(configuration[..a]) + configuration[a][..b]).specs,
           Some(UnknownClass(configuration[a][b].0)))
  {
    var item := configuration[a];
    var done := Flatten(configuration[..a]) + item[..b];
    var rest := item[b + 1..] + Flatten(configuration[a + 1..]);
    RegisterStep(classMap, done, item[b]);
    FlattenAt(configuration, a, b);
    RegisterStops(classMap, done + [item[b]], rest);
  }

  /** The flattened configuration around the pair at position b of item a. */
  lemma FlattenAt(configuration: seq<ConfigItem>, a: nat, b: nat)
    requires a < |configuration| && b < |configuration[a]|
    ensures Flatten(configuration) ==
      (Flatten(configuration[..a]) + configuration[a][..b] + [configuration[a][b]])
      + (configuration[a][b + 1..] + Flatten(configuration[a + 1..]))
  {
    var item := configuration[a];
    assert configuration == configuration[..a + 1] + configuration[a + 1..];
    FlattenAppend(configuration[..a + 1], configuration[a + 1..]);
    FlattenStep(configuration, a);
    assert item == item[..b] + [item[b]] + item[b + 1..];
  }

  /** The registry reg is base followed by one object per pair of done, so
      far all known to the class map, each with the value its pair names. */
  ghost predicate Registered(reg: seq<Modifier>, base: seq<Modifier>, classMap: map<string, ModifierKind>,
                             done: seq<(string, ConfigValue)>, specs: seq<ModifierSpec>)
  {
    && |reg| == |base| + |specs| && reg[..|base|] == base
    && (forall k :: |base| <= k < |reg| ==> reg[k].Spec() == specs[k - |base|])
    && Register(classMap, done) == Plan(specs, None)
  }

  /** Pushing the modifier for one more known pair. */
  lemma RegisteredPush(reg: seq<Modifier>, base: seq<Modifier>, classMap: map<string, ModifierKind>,
                       done: seq<(string, ConfigValue)>, specs: seq<ModifierSpec>,
                       pair: (string, ConfigValue), m: Modifier)
    requires Registered(reg, base, classMap, done, specs)
    requires pair.0 in classMap && m.Spec() == ModifierSpec(classMap[pair.0], pair.1)
    ensures Registered(reg + [m], base, classMap, done + [pair], specs + [m.Spec()])
  {
    RegisterStep(classMap, done, pair);
    assert (reg + [m])[..|base|] == reg[..|base|];
  }

  /** The values of such a registry. */
  lemma RegisteredSpecs(reg: seq<Modifier>, base: seq<Modifier>, classMap: map<string, ModifierKind>,
                        done: seq<(string, ConfigValue)>, specs: seq<ModifierSpec>)
    requires Registered(reg, base, classMap, done, specs)
    ensures Specs(reg) == Specs(base) + specs
  {
    assert forall k :: 0 <= k < |base| ==> reg[k] == base[k];
  }

  /** addModifiersToConverter: one new modifier object per configuration pair,
      pushed in order, until a key the class map does not know. The modifiers
      already registered stay in front. */
  method AddModifiersToConverter(converter: Converter, classMap: map<string, ModifierKind>,
                                 configuration: seq<ConfigItem>)
    returns (r: Result<(), Error>)
    modifies converter`modifierRegistry
    ensures var p := Register(classMap, Flatten(configuration));
      && converter.Registry() == old(converter.Registry()) + p.specs
      && (r.Failure? <==> p.error.Some?)
      && (r.Failure? ==> r.error == p.error.value)
    ensures |converter.modifierRegistry| >= |old(converter.modifierRegistry)|
    ensures converter.modifierRegistry[..|old(converter.modifierRegistry)|] == old(converter.modifierRegistry)
    ensures forall k :: |old(converter.modifierRegistry)| <= k < |converter.modifierRegistry| ==>
      fresh(converter.modifierRegistry[k])
  {
    ghost var base := converter.modifierRegistry;
    ghost var done: seq<(string, ConfigValue)> := [];
    ghost var specs: seq<ModifierSpec> := [];
    var a := 0;
    while a < |configuration|
      invariant 0 <= a <= |configuration|
      invariant done == Flatten(configuration[..a])
      invariant Registered(converter.modifierRegistry, base, classMap, done, specs)
      invariant forall k :: |base| <= k < |converter.modifierRegistry| ==> fresh(converter.modifierRegistry[k])
    {
      var item := configuration[a];
      FlattenStep(configuration, a);
      var b := 0;
      while b < |item|
        invariant 0 <= b <= |item|
        invariant done == Flatten(configuration[..a]) + item[..b]
        invariant Registered(converter.modifierRegistry, base, classMap, done, specs)
        invariant forall k :: |base| <= k < |converter.modifierRegistry| ==> fresh(converter.modifierRegistry[k])
      {
        var (key, value) := item[b];
        if key !in classMap {
          // the exception ends both loops: the pairs after this one are never read
          UnknownKeyStops(classMap, configuration, a, b);
          RegisteredSpecs(converter.modifierRegistry, base, classMap, done, specs);
          return Failure(UnknownClass(key));
        }
        var modifier := new Modifier(classMap[key], value);
        RegisteredPush(converter.modifierRegistry, base, classMap, done, specs, item[b], modifier);
        converter.PushRegistry(modifier);
        assert item[..b + 1] == item[..b] + [item[b]];
        done, specs := done + [item[b]], specs + [modifier.Spec()];
        b := b + 1;
      }
      assert item[..b] == item;
      a := a + 1;
    }
    assert configuration[..a] == configuration;
    RegisteredSpecs(converter.modifierRegistry, base, classMap, done, specs);
    return Success(());
  }

  /** What prepare()->convert()->save() ends with on a new converter whose
      registry holds specs: the first exception thrown, or the document
      save() writes. file is the import file as the file system and the
      reader present it, and problems is what validate() reports for it. */
  function Processed(specs: seq<ModifierSpec>, importFile: string, file: ImportFile,
                     problems: seq<Problem>): Result<CalendarData, Error>
  {
    if OpenImportFile(importFile, file).Failure? then Failure(OpenImportFile(importFile, file).error)
    else if Validation(problems).Failure? then Failure(Validation(problems).error)
    else if specs == [] then Failure(DomainError(NoModifiersMessage))
    // convert() counts the import events
    else if file.data.events == [] then Failure(TypeError(CountNullMessage))
    else
      var os := Outcomes(specs, file.data.events);
      if Stopped(os) then Failure(os[|os| - 1].verdict.error)
      // save() counts the export events
      else if Survivors(Finals(os), os) == [] then Failure(TypeError(CountNullMessage))
      else Success(CalendarData(FirstTimeZone(file.data.timezones), Survivors(Finals(os), os)))
  }

  /** What run() ends with: the exception for an unknown configuration key,
      or what the chained calls end with. */
  function Expected(configuration: seq<ConfigItem>, importFile: string, file: ImportFile,
                    problems: seq<Problem>): Result<CalendarData, Error>
  {
    var plan := Register(ClassMap, Flatten(configuration));
    if plan.error.Some? then Failure(plan.error.value)
    else Processed(plan.specs, importFile, file, problems)
  }

  /** A configuration key the class map does not know aborts run() before
      the import file is touched: the exception names the first such key,
      whatever the file holds. */
  lemma UnknownKeyAbortsRun(configuration: seq<ConfigItem>, importFile: string, file: ImportFile,
                            problems: seq<Problem>)
    requires exists k :: 0 <= k < |Flatten(configuration)| && Flatten(configuration)[k].0 !in ClassMap
    ensures var pairs := Flatten(configuration);
      exists k :: 0 <= k < |pairs| && pairs[k].0 !in ClassMap && (forall j :: 0 <= j < k ==> pairs[j].0 in ClassMap)
        && Expected(configuration, importFile, file, problems) == Failure(UnknownClass(pairs[k].0))
  {
    var pairs := Flatten(configuration);
    RegisterFailsIffUnknown(ClassMap, pairs);
    RegisterMeaning(ClassMap, pairs);
    var k := |Register(ClassMap, pairs).specs|;
    assert pairs[k].0 !in ClassMap && forall j :: 0 <= j < k ==> pairs[j].0 in ClassMap;
  }

  /** The example configuration begins with the item 'calendar' =>
      ['expandEnd' => $end], and 'expandEnd' is not a key of the class map:
      run() with it throws before any modifier is registered. */
  lemma ExampleConfigurationFails(expandEnd: ConfigValue, rest: seq<ConfigItem>, importFile: string,
                                  file: ImportFile, problems: seq<Problem>)
    ensures Expected([[("expandEnd", expandEnd)]] + rest, importFile, file, problems)
      == Failure(UnknownClass("expandEnd"))
  {
    var configuration := [[("expandEnd", expandEnd)]] + rest;
    var pairs := Flatten(configuration);
    assert pairs[0] == ("expandEnd", expandEnd) by {
      FlattenAppend([[("expandEnd", expandEnd)]], rest);
      assert [[("expandEnd", expandEnd)]][..0] == [];
    }
    assert pairs[0].0 !in ClassMap;
    RegisterFailsIffUnknown(ClassMap, pairs);
    RegisterMeaning(ClassMap, pairs);
    assert |Register(ClassMap, pairs).specs| == 0;
  }

  /** What the chained calls write when they succeed: the first time zone
      of the import file and, in import order, the events no filter dropped,
      as the modifiers left them; there was at least one such event, no
      modifier threw, and every event is either written or counted as
      filtered out. */
  lemma ProcessedWrites(specs: seq<ModifierSpec>, importFile: string, file: ImportFile, problems: seq<Problem>)
    requires Processed(specs, importFile, file, problems).Success?
    ensures file.Parsed?
    ensures var doc := Processed(specs, importFile, file, problems).value;
      var evs := file.data.events;
      && specs != [] && doc.events != []
      && doc.timezones == FirstTimeZone(file.data.timezones)
      && (forall i :: 0 <= i < |evs| ==> !Chain(specs, evs[i]).verdict.Failed?)
      && (forall d :: d in doc.events <==>
            exists i :: 0 <= i < |evs| && Chain(specs, evs[i]).verdict.Kept? && Chain(specs, evs[i]).event == d)
      && |doc.events| + CountFiltered(Outcomes(specs, evs)) == |evs|
  {
    ProcessedValue(specs, importFile, file, problems);
    WrittenEvents(specs, file.data.events);
  }

  /** The value the chained calls end with when they succeed. */
  lemma ProcessedValue(specs: seq<ModifierSpec>, importFile: string, file: ImportFile, problems: seq<Problem>)
    requires Processed(specs, importFile, file, problems).Success?
    ensures file.Parsed? && specs != [] && file.data.events != []
    ensures var os := Outcomes(specs, file.data.events);
      && !Stopped(os) && Survivors(Finals(os), os) != []
      && Processed(specs, importFile, file, problems)
           == Success(CalendarData(FirstTimeZone(file.data.timezones), Survivors(Finals(os), os)))
  {
    assert OpenImportFile(importFile, file).Success?;
    assert Validation(problems).Success?;
  }

  /** The events a run without exceptions exports: those whose chain keeps
      them, as the chain left them, and every other event is filtered out. */
  lemma WrittenEvents(specs: seq<ModifierSpec>, evs: seq<EventData>)
    requires !Stopped(Outcomes(specs, evs))
    ensures var os := Outcomes(specs, evs);
      var written := Survivors(Finals(os), os);
      && (forall i :: 0 <= i < |evs| ==> !Chain(specs, evs[i]).verdict.Failed?)
      && (forall d :: d in written <==>
            exists i :: 0 <= i < |evs| && Chain(specs, evs[i]).verdict.Kept? && Chain(specs, evs[i]).event == d)
      && |written| + CountFiltered(os) == |evs|
  {
    var os := Outcomes(specs, evs);
    var written := Survivors(Finals(os), os);
    assert |os| == |evs|;
    assert forall i :: 0 <= i < |evs| ==> !os[i].verdict.Failed?;
    forall d
      ensures d in written <==>
        exists i :: 0 <= i < |evs| && Chain(specs, evs[i]).verdict.Kept? && Chain(specs, evs[i]).event == d
    {
      if d in written {
        WrittenWasKept(specs, evs, d);
      } else if exists i :: 0 <= i < |evs| && Chain(specs, evs[i]).verdict.Kept? && Chain(specs, evs[i]).event == d {
        var i :| 0 <= i < |evs| && Chain(specs, evs[i]).verdict.Kept? && Chain(specs, evs[i]).event == d;
        KeptIsWritten(specs, evs, i);
      }
    }
    CountsAddUp(Finals(os), os);
  }

  /** An exported event is one some chain kept. */
  lemma WrittenWasKept(specs: seq<ModifierSpec>, evs: seq<EventData>, d: EventData)
    requires !Stopped(Outcomes(specs, evs))
    requires d in Survivors(Finals(Outcomes(specs, evs)), Outcomes(specs, evs))
    ensures exists i :: 0 <= i < |evs| && Chain(specs, evs[i]).verdict.Kept? && Chain(specs, evs[i]).event == d
  {
    var os := Outcomes(specs, evs);
    SurvivorsMembers(Finals(os), os, d);
    var i :| 0 <= i < |os| && os[i].verdict.Kept? && Finals(os)[i] == d;
    assert Chain(specs, evs[i]) == os[i];
  }

  /** An event its chain keeps is exported, as the chain left it. */
  lemma KeptIsWritten(specs: seq<ModifierSpec>, evs: seq<EventData>, i: int)
    requires !Stopped(Outcomes(specs, evs))
    requires 0 <= i < |evs| && Chain(specs, evs[i]).verdict.Kept?
    ensures Chain(specs, evs[i]).event in Survivors(Finals(Outcomes(specs, evs)), Outcomes(specs, evs))
  {
    var os := Outcomes(specs, evs);
    assert |os| == |evs| && os[i] == Chain(specs, evs[i]);
    SurvivorsMembers(Finals(os), os, os[i].event);
    assert Finals(os)[i] == os[i].event;
  }

  /** What a successful run() writes: every key of the configuration was
      known, and the document is what ProcessedWrites describes for the
      registry the configuration yields. */
  lemma SuccessfulRun(configuration: seq<ConfigItem>, importFile: string, file: ImportFile,
                      problems: seq<Problem>)
    requires Expected(configuration, importFile, file, problems).Success?
    ensures file.Parsed? && Register(ClassMap, Flatten(configuration)).error.None?
    ensures var doc := Expected(configuration, importFile, file, problems).value;
      var specs := Register(ClassMap, Flatten(configuration)).specs;
      var evs := file.data.events;
      && specs != [] && doc.events != []
      && doc.timezones == FirstTimeZone(file.data.timezones)
      && (forall i :: 0 <= i < |evs| ==> !Chain(specs, evs[i]).verdict.Failed?)
      && (forall d :: d in doc.events <==>
            exists i :: 0 <= i < |evs| && Chain(specs, evs[i]).verdict.Kept? && Chain(specs, evs[i]).event == d)
      && |doc.events| + CountFiltered(Outcomes(specs, evs)) == |evs|
  {
    var plan := Register(ClassMap, Flatten(configuration));
    assert plan.error.None?;
    assert Expected(configuration, importFile, file, problems) == Processed(plan.specs, importFile, file, problems);
    ProcessedWrites(plan.specs, importFile, file, problems);
  }

  /** $converter->prepare()->convert()->save(): each call throws or hands
      the converter on to the next. */
  method PrepareConvertSave(converter: Converter, file: ImportFile, problems: seq<Problem>)
    returns (r: Result<CalendarData, Error>)
    requires converter.importCal == null && converter.exportCal == null
    modifies converter`importCal, converter`exportCal
    ensures r == Processed(converter.Registry(), converter.importFileName, file, problems)
  {
    ghost var specs := converter.Registry();
    var prepared := converter.Prepare(file, problems);
    assert converter.Registry() == specs;
    if prepared.Failure? {
      return Failure(prepared.error);
    }
    ghost var os := Outcomes(specs, file.data.events);
    var converted := converter.Convert();
    assert converter.Registry() == specs;
    if converted.Failure? {
      if specs != [] && file.data.events != [] {
        assert converted == Report(os);
      }
      return Failure(converted.error);
    }
    assert specs != [] && file.data.events != [] && !Stopped(os);
    r := converter.Save();
  }

  /** run(): a new converter, the modifiers of the configuration, then the
      chained calls. */
  method Run(configuration: seq<ConfigItem>, importFile: string, exportFile: string,
             file: ImportFile, problems: seq<Problem>)
    returns (r: Result<CalendarData, Error>)
    ensures r == Expected(configuration, importFile, file, problems)
  {
    var converter := new Converter(importFile, exportFile);
    var added := AddModifiersToConverter(converter, ClassMap, configuration);
    if added.Failure? {
      return Failure(added.error);
    }
    assert converter.Registry() == Register(ClassMap, Flatten(configuration)).specs;
    assert converter.importFileName == importFile;
    r := PrepareConvertSave(converter, file, problems);
    assert converter.Registry() == Register(ClassMap, Flatten(configuration)).specs;
  }
}
