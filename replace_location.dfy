/** Modifier\Event\Replace\Location: replaces the whole trimmed LOCATION by
    the value a table gives for it, with the key 'empty' naming the value for
    an empty or unset location. */
module ReplaceLocation {
  import opened Wrappers
  import opened Errors
  import opened Config
  import opened PhpString
  import opened ICal

  const NotArrayMessage := "GemeindeIT\\iCalConverter\\Modifier\\Event\\Replace\\Location was not configured using an array of values."

  /** The table key whose value replaces an empty location. */
  const EmptyKey := "empty"

  predicate WellConfigured(config: ConfigValue) {
    config.ArrayValue? && |config.entries| > 0
  }

  /** PHP's string value of the property: an unset LOCATION reads as null,
      which trim() turns into "". */
  function Text(location: Option<string>): string {
    if location.Some? then location.value else ""
  }

  /** What process() does to LOCATION: its new value and the result. */
  function Replacement(config: ConfigValue, location: Option<string>): (r: Result<FieldUpdate, Error>)
    ensures r.Failure? <==> !WellConfigured(config)
    ensures r.Failure? ==> r.error == InvalidArgument(NotArrayMessage)
    ensures r.Success? ==> var table, key := config.entries, Trim(Text(location));
      // the direct lookup of the whole trimmed text comes first
      && (key in table ==> r.value == FieldUpdate(Some(table[key]), true))
      // then the 'empty' fallback
      && (key !in table && IsEmpty(key) && EmptyKey in table ==>
            r.value == FieldUpdate(Some(table[EmptyKey]), true))
      // otherwise nothing happens
      && (key !in table && !(IsEmpty(key) && EmptyKey in table) ==>
            r.value == FieldUpdate(location, false))
  {
    if !config.ArrayValue? || |config.entries| == 0 then Failure(InvalidArgument(NotArrayMessage))
    else
      var table, key := config.entries, Trim(Text(location));
      if key in table then Success(FieldUpdate(Some(table[key]), true))
      else if IsEmpty(key) && EmptyKey in table then Success(FieldUpdate(Some(table[EmptyKey]), true))
      else Success(FieldUpdate(location, false))
  }

  /** A replacement is always a whole value of the table, chosen by the whole
      trimmed text: no part of a location is ever replaced. */
  lemma WholeValuesOnly(config: ConfigValue, location: Option<string>)
    requires WellConfigured(config)
    ensures var u := Replacement(config, location).value;
      u.modified <==> Trim(Text(location)) in config.entries
                      || (IsEmpty(Trim(Text(location))) && EmptyKey in config.entries)
    ensures var u := Replacement(config, location).value;
      u.modified ==> u.value.Some? && u.value.value in config.entries.Values
  {
  }

  /** Location::process on an event object. */
  method Process(config: ConfigValue, e: VEvent) returns (r: Result<bool, Error>)
    modifies e`location
    ensures match Replacement(config, old(e.location))
      case Failure(err) => r == Failure(err) && e.location == old(e.location)
      case Success(u) => r == Success(u.modified) && e.location == u.value
  {
    if !config.ArrayValue? || |config.entries| == 0 {
      return Failure(InvalidArgument(NotArrayMessage));
    }
    var key := Trim(Text(e.location));
    if key in config.entries {
      e.location := Some(config.entries[key]);
      return Success(true);
    }
    if IsEmpty(key) && EmptyKey in config.entries {
      e.location := Some(config.entries[EmptyKey]);
      return Success(true);
    }
    return Success(false);
  }
}
