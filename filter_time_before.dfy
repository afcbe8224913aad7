/** Modifier\Event\Filter\TimeBefore: the only filter. process() answers true
    when the event lies outside the two years that follow the configured
    cutoff, so that the pipeline drops it. */
module FilterTimeBefore {
  import opened Wrappers
  import opened Errors
  import opened Config
  import opened ICal

  /** new DateInterval('P2Y') as a fixed number of seconds. */
  const TwoYears: int := 2 * 365 * 24 * 60 * 60

  const NoDateTimeMessage := "Config contains no valid DateTime value for comparison."

  predicate IsDigit(c: char) { '0' <= c <= '9' }

  predicate AllDigits(s: string) {
    forall i :: 0 <= i < |s| ==> IsDigit(s[i])
  }

  function DigitsValue(s: string): (n: nat)
    requires AllDigits(s)
  {
    if s == [] then 0 else DigitsValue(s[..|s| - 1]) * 10 + (s[|s| - 1] as int - '0' as int)
  }

  function Digits(n: nat): (s: string)
    ensures |s| >= 1 && AllDigits(s)
  {
    var d := ((n % 10) + '0' as int) as char;
    if n < 10 then [d] else Digits(n / 10) + [d]
  }

  lemma {:induction false} DigitsRoundTrip(n: nat)
    ensures DigitsValue(Digits(n)) == n
  {
    var s := Digits(n);
    if n >= 10 {
      DigitsRoundTrip(n / 10);
      assert s[..|s| - 1] == Digits(n / 10);
    }
  }

  /** new DateTime($text) for the one format the model recognises, PHP's
      "@<seconds since the epoch>" (with an optional minus sign). */
  function ParseDateTime(text: string): (r: Option<int>)
    // accepted exactly: '@', an optional minus sign, one or more digits
    ensures r.Some? <==>
      (|text| >= 2 && text[0] == '@' &&
       (if text[1] == '-' then |text| >= 3 && AllDigits(text[2..]) else AllDigits(text[1..])))
    // the sign of the timestamp is the sign written
    ensures r.Some? && r.value < 0 ==> text[1] == '-'
    ensures r.Some? && text[1] != '-' ==> r.value >= 0
  {
    if |text| >= 2 && text[0] == '@' then
      var body := text[1..];
      if body[0] == '-' then
        if |body| >= 2 && AllDigits(body[1..]) then Some(0 - DigitsValue(body[1..]) as int) else None
      else if AllDigits(body) then Some(DigitsValue(body)) else None
    else None
  }

  function FormatDateTime(t: int): string {
    "@" + (if t < 0 then "-" + Digits(-t) else Digits(t))
  }

  lemma ParseFormatRoundTrip(t: int)
    ensures ParseDateTime(FormatDateTime(t)) == Some(t)
  {
    var text := FormatDateTime(t);
    if t < 0 {
      DigitsRoundTrip(-t);
      assert text[1..][1..] == Digits(-t);
    } else {
      DigitsRoundTrip(t);
      assert text[1..] == Digits(t);
    }
  }

  /** The configured start of the window: the DateTime or
      DateTimeImmutable itself, or a string parsed by the DateTime
      constructor; anything else is refused. */
  function Cutoff(config: ConfigValue): (r: Result<int, Error>)
    ensures config.DateTimeValue? || config.DateTimeImmutableValue? ==> r == Success(config.timestamp)
    ensures config.StringValue? && ParseDateTime(config.text).Some? ==> r == Success(ParseDateTime(config.text).value)
    ensures r.Failure? <==> !(config.DateTimeValue? || config.DateTimeImmutableValue?
                              || (config.StringValue? && ParseDateTime(config.text).Some?))
  {
    match config
    case DateTimeValue(t) => Success(t)
    case DateTimeImmutableValue(t) => Success(t)
    case StringValue(text) =>
      (match ParseDateTime(text)
       case Some(t) => Success(t)
       case None => Failure(ParseError("DateTime::__construct(): Failed to parse time string (" + text + ")")))
    case _ => Failure(InvalidArgument(NoDateTimeMessage))
  }

  predicate WellConfigured(config: ConfigValue) {
    Cutoff(config).Success?
  }

  /** TimeBefore::process as the code is written: $end is a clone of the
      cutoff and $end->add() moves it two years on. add() on a
      DateTimeImmutable returns a new object and leaves $end where it was,
      so for such a cutoff the window is the single instant t. */
  function ExcludesAsWritten(config: ConfigValue, e: EventData): (r: Result<bool, Error>)
    ensures r.Failure? <==> !WellConfigured(config)
    ensures r.Failure? ==> r.error == Cutoff(config).error
    ensures r.Success? && !config.DateTimeImmutableValue? ==> var t := Cutoff(config).value;
      (r.value <==> e.end <= t || e.start >= t + TwoYears)
    ensures r.Success? && config.DateTimeImmutableValue? ==> var t := config.timestamp;
      (r.value <==> !(e.start < t < e.end))
  {
    match Cutoff(config)
    case Failure(err) => Failure(err)
    case Success(t) =>
      var end := if config.DateTimeImmutableValue? then t else t + TwoYears;
      Success(!InTimeRange(e, t, end))
  }

  /** TimeBefore::process as intended: true (filter out) iff the event does
      not overlap the two years that follow the cutoff, whichever kind of
      DateTime the cutoff is. */
  function Excludes(config: ConfigValue, e: EventData): (r: Result<bool, Error>)
    ensures r.Failure? <==> !WellConfigured(config)
    ensures r.Failure? ==> r.error == Cutoff(config).error
    ensures r.Success? ==> var t := Cutoff(config).value;
      (r.value <==> e.end <= t || e.start >= t + TwoYears)
  {
    match Cutoff(config)
    case Failure(err) => Failure(err)
    case Success(t) => Success(!InTimeRange(e, t, t + TwoYears))
  }

  /** The two agree on every configuration but a DateTimeImmutable. */
  lemma AsWrittenAgrees(config: ConfigValue, e: EventData)
    requires !config.DateTimeImmutableValue?
    ensures ExcludesAsWritten(config, e) == Excludes(config, e)
  {
  }

  /** With a DateTimeImmutable cutoff at 1000, the code as written filters
      out an event from 1500 to 2000, well inside the two years. */
  lemma ImmutableCutoffDropsEvent()
    ensures var config, e := DateTimeImmutableValue(1000), EventData("uid", 1500, 2000, None, None);
      ExcludesAsWritten(config, e) == Success(true) && Excludes(config, e) == Success(false)
  {
  }

  /** Only the period of the event matters: two events with the same start
      and end get the same answer whatever their other properties. */
  lemma DependsOnlyOnPeriod(config: ConfigValue, e: EventData, e': EventData)
    requires e.start == e'.start && e.end == e'.end
    ensures Excludes(config, e) == Excludes(config, e')
  {
  }

  /** An event starting two years or more after the cutoff is filtered out
      too, although it is not "before" the cutoff. */
  lemma FarFutureExcluded(config: ConfigValue, e: EventData)
    requires WellConfigured(config)
    requires e.start >= Cutoff(config).value + TwoYears
    ensures Excludes(config, e) == Success(true)
  {
  }

  /** An event still running at the cutoff is kept, although it started
      before it. */
  lemma RunningEventKept(config: ConfigValue, e: EventData)
    requires WellConfigured(config)
    requires e.start < Cutoff(config).value < e.end
    ensures Excludes(config, e) == Success(false)
  {
  }
}
