/** Modifier\AbstractModifier and the closed family of its subclasses. A
    modifier is configured once, in its constructor, and then answers
    process(event) for every event: true means "modified" for a Set or
    Replace modifier and "filter out" for a filter. */
module Modifiers {
  import opened Wrappers
  import opened Errors
  import opened Config
  import opened ICal
  import FilterTimeBefore
  import SetOrganizer
  import ReplaceLocation

  /** The concrete modifier classes. */
  datatype ModifierKind = TimeBefore | Organizer | Location

  /** instanceof AbstractFilter: TimeBefore is the only filter. */
  predicate IsFilter(kind: ModifierKind) {
    kind == TimeBefore
  }

  /** A modifier as a value: its class and its configuration. */
  datatype ModifierSpec = ModifierSpec(kind: ModifierKind, config: ConfigValue)

  /** The configuration has the shape the class's process() accepts. */
  predicate WellConfigured(m: ModifierSpec) {
    match m.kind
    case TimeBefore => FilterTimeBefore.WellConfigured(m.config)
    case Organizer => SetOrganizer.WellConfigured(m.config)
    case Location => ReplaceLocation.WellConfigured(m.config)
  }

  /** The event after process() and the boolean process() returned. */
  datatype Reply = Reply(event: EventData, result: bool)

  /** One call of process(): the exception it throws, or the new event and
      the result. */
  function Step(m: ModifierSpec, e: EventData): (s: Result<Reply, Error>)
    // a shape error is thrown exactly when the configuration is malformed
    ensures s.Failure? <==> !WellConfigured(m)
    // the identifier and the period of an event are never touched
    ensures s.Success? ==> var d := s.value.event;
      d.uid == e.uid && d.start == e.start && d.end == e.end
    // false means the event was not changed
    ensures s.Success? && !s.value.result ==> s.value.event == e
    // a filter only reads the event
    ensures s.Success? && IsFilter(m.kind) ==> s.value.event == e
    // each Set or Replace modifier changes its own property only
    ensures s.Success? && m.kind == Organizer ==> s.value.event.location == e.location
    ensures s.Success? && m.kind == Location ==> s.value.event.organizer == e.organizer
  {
    match m.kind
    case TimeBefore =>
      (match FilterTimeBefore.Excludes(m.config, e)
       case Failure(err) => Failure(err)
       case Success(b) => Success(Reply(e, b)))
    case Organizer =>
      (match SetOrganizer.Assignment(m.config, e.organizer)
       case Failure(err) => Failure(err)
       case Success(u) => Success(Reply(e.(organizer := u.value), u.modified)))
    case Location =>
      (match ReplaceLocation.Replacement(m.config, e.location)
       case Failure(err) => Failure(err)
       case Success(u) => Success(Reply(e.(location := u.value), u.modified)))
  }

  /** A modifier object. Its class and configuration are fixed by the
      constructor, which stores the configuration without checking its
      shape; a malformed shape surfaces only when process() runs. */
  class Modifier {
    const kind: ModifierKind
    const config: ConfigValue

    constructor (kind: ModifierKind, config: ConfigValue)
      ensures this.kind == kind && this.config == config
    {
      this.kind := kind;
      this.config := config;
    }

    function Spec(): ModifierSpec {
      ModifierSpec(kind, config)
    }

    /** process($component), dispatched to the class of the modifier. */
    method Process(e: VEvent) returns (r: Result<bool, Error>)
      modifies e
      ensures match Step(Spec(), old(e.Data()))
        case Failure(err) => r == Failure(err) && e.Data() == old(e.Data())
        case Success(reply) => r == Success(reply.result) && e.Data() == reply.event
    {
      match kind
      case TimeBefore =>
        r := FilterTimeBefore.Excludes(config, e.Data());
      case Organizer =>
        r := SetOrganizer.Process(config, e);
      case Location =>
        r := ReplaceLocation.Process(config, e);
    }
  }

  /** The values of a registry of modifier objects. */
  function Specs(ms: seq<Modifier>): (ss: seq<ModifierSpec>)
    ensures |ss| == |ms|
    ensures forall i :: 0 <= i < |ms| ==> ss[i] == ms[i].Spec()
  {
    seq(|ms|, i requires 0 <= i < |ms| => ms[i].Spec())
  }
}
