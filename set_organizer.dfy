/** Modifier\Event\Set\Organizer: forces ORGANIZER to the configured string,
    unless it already equals it up to letter case. */
module SetOrganizer {
  import opened Wrappers
  import opened Errors
  import opened Config
  import opened PhpString
  import opened ICal

  const NotStringMessage := "GemeindeIT\\iCalConverter\\Modifier\\Event\\Set\\Organizer was not configured using a string value."

  predicate WellConfigured(config: ConfigValue) {
    config.StringValue?
  }

  /** What process() does to ORGANIZER: its new value and the result. */
  function Assignment(config: ConfigValue, organizer: Option<string>): (r: Result<FieldUpdate, Error>)
    ensures r.Failure? <==> !WellConfigured(config)
    ensures r.Failure? ==> r.error == InvalidArgument(NotStringMessage)
    ensures r.Success? ==>
      (r.value.modified <==> organizer.None? || Lower(organizer.value) != Lower(config.text))
    ensures r.Success? && r.value.modified ==> r.value.value == Some(config.text)
    ensures r.Success? && !r.value.modified ==> r.value.value == organizer
    ensures r.Success? ==> r.value.value.Some? && Lower(r.value.value.value) == Lower(config.text)
  {
    if !config.StringValue? then Failure(InvalidArgument(NotStringMessage))
    else if organizer.None? || Lower(organizer.value) != Lower(config.text) then
      Success(FieldUpdate(Some(config.text), true))
    else Success(FieldUpdate(organizer, false))
  }

  /** A second application changes nothing and reports no change. */
  lemma Idempotent(config: ConfigValue, organizer: Option<string>)
    requires WellConfigured(config)
    ensures var once := Assignment(config, organizer).value.value;
      Assignment(config, once) == Success(FieldUpdate(once, false))
  {
  }

  /** Organizer::process on an event object. */
  method Process(config: ConfigValue, e: VEvent) returns (r: Result<bool, Error>)
    modifies e`organizer
    ensures match Assignment(config, old(e.organizer))
      case Failure(err) => r == Failure(err) && e.organizer == old(e.organizer)
      case Success(u) => r == Success(u.modified) && e.organizer == u.value
  {
    if !config.StringValue? {
      return Failure(InvalidArgument(NotStringMessage));
    }
    var modified := false;
    if e.organizer.None? || Lower(e.organizer.value) != Lower(config.text) {
      e.organizer := Some(config.text);
      modified := true;
    }
    return Success(modified);
  }
}
