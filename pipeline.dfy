/** The per-event algorithm of Converter::convert as functions on values,
    and what it guarantees: filters short-circuit, the changed flag only
    ever goes up, and the counters add up. */
module Pipeline {
  import opened Wrappers
  import opened Errors
  import opened ICal
  import opened Modifiers
  import FilterTimeBefore

  /** How the modifier loop ended for one event: the event is exported
      (and was or was not reported changed), was dropped by a filter, or a
      modifier threw. */
  datatype Verdict = Kept(changed: bool) | Filtered | Failed(error: Error)

  datatype Outcome = Outcome(event: EventData, verdict: Verdict)

  /** The inner loop from some modifier on, with the changed flag so far. */
  function RunFrom(mods: seq<ModifierSpec>, e: EventData, changed: bool): (o: Outcome)
    ensures o.event.uid == e.uid && o.event.start == e.start && o.event.end == e.end
    // once set, the flag stays set
    ensures changed && o.verdict.Kept? ==> o.verdict.changed
    // an exported event nobody reported changed is the event unchanged
    ensures o.verdict == Kept(false) ==> o.event == e
    decreases |mods|
  {
    if mods == [] then Outcome(e, Kept(changed))
    else
      match Step(mods[0], e)
      case Failure(err) => Outcome(e, Failed(err))
      case Success(reply) =>
        if reply.result && IsFilter(mods[0].kind) then Outcome(reply.event, Filtered)
        else RunFrom(mods[1..], reply.event, changed || reply.result)
  }

  /** The whole modifier loop for one event, starting with changed = false. */
  function Chain(mods: seq<ModifierSpec>, e: EventData): Outcome {
    RunFrom(mods, e, false)
  }

  /** Once a filter drops the event (or a modifier throws), the modifiers
      after it are never invoked: whatever follows changes nothing. */
  lemma {:induction false} ShortCircuit(mods: seq<ModifierSpec>, rest: seq<ModifierSpec>, e: EventData, changed: bool)
    requires !RunFrom(mods, e, changed).verdict.Kept?
    ensures RunFrom(mods + rest, e, changed) == RunFrom(mods, e, changed)
  {
    assert mods != [];
    assert (mods + rest)[0] == mods[0];
    match Step(mods[0], e)
    case Failure(_) =>
    case Success(reply) =>
      if !(reply.result && IsFilter(mods[0].kind)) {
        assert (mods + rest)[1..] == mods[1..] + rest;
        ShortCircuit(mods[1..], rest, reply.event, changed || reply.result);
      }
  }

  /** Running a registry in two parts: the second part starts from the event
      and the flag the first part left. */
  lemma {:induction false} Compose(p: seq<ModifierSpec>, q: seq<ModifierSpec>, e: EventData, changed: bool)
    requires RunFrom(p, e, changed).verdict.Kept?
    ensures var o := RunFrom(p, e, changed);
      RunFrom(p + q, e, changed) == RunFrom(q, o.event, o.verdict.changed)
  {
    if p == [] {
      assert p + q == q;
    } else {
      assert (p + q)[0] == p[0];
      assert (p + q)[1..] == p[1..] + q;
      match Step(p[0], e)
      case Failure(_) =>
      case Success(reply) =>
        Compose(p[1..], q, reply.event, changed || reply.result);
    }
  }

  /** The event the loop produces does not depend on the flag it starts
      with, and neither does whether the event is kept. */
  lemma {:induction false} FlagIrrelevant(mods: seq<ModifierSpec>, e: EventData, c: bool, c': bool)
    ensures RunFrom(mods, e, c).event == RunFrom(mods, e, c').event
    ensures RunFrom(mods, e, c).verdict.Kept? == RunFrom(mods, e, c').verdict.Kept?
    decreases |mods|
  {
    if mods != [] {
      match Step(mods[0], e)
      case Failure(_) =>
      case Success(reply) =>
        if !(reply.result && IsFilter(mods[0].kind)) {
          FlagIrrelevant(mods[1..], reply.event, c || reply.result, c' || reply.result);
        }
    }
  }

  /** Modifier k reports true on the event the first k modifiers produced. */
  predicate Reported(mods: seq<ModifierSpec>, e: EventData, k: nat)
    requires k < |mods|
  {
    var s := Step(mods[k], Chain(mods[..k], e).event);
    s.Success? && s.value.result
  }

  /** For an exported event, the changed flag is true exactly when some
      modifier reported true on its turn. */
  lemma ChangedIffSomeReported(mods: seq<ModifierSpec>, e: EventData)
    requires Chain(mods, e).verdict.Kept?
    ensures Chain(mods, e).verdict.changed <==> exists k :: 0 <= k < |mods| && Reported(mods, e, k)
  {
    ChangedFrom(mods, e, false);
  }

  lemma {:induction false} ChangedFrom(mods: seq<ModifierSpec>, e: EventData, c: bool)
    requires RunFrom(mods, e, c).verdict.Kept?
    ensures RunFrom(mods, e, c).verdict.changed <==> c || exists k :: 0 <= k < |mods| && Reported(mods, e, k)
    decreases |mods|
  {
    if mods != [] {
      var reply := Step(mods[0], e).value;
      var tail := mods[1..];
      var e1, c1 := reply.event, c || reply.result;
      assert Chain(mods[..0], e).event == e;
      assert Reported(mods, e, 0) == reply.result;
      ChangedFrom(tail, e1, c1);
      forall k | 0 <= k < |tail|
        ensures Reported(tail, e1, k) == Reported(mods, e, k + 1)
      {
        ReportedShift(mods, e, k);
      }
      if exists k :: 0 <= k < |mods| && Reported(mods, e, k) {
        var k :| 0 <= k < |mods| && Reported(mods, e, k);
        if k > 0 {
          assert Reported(tail, e1, k - 1);
        }
      }
    }
  }

  /** After a first modifier that neither threw nor dropped the event, the
      rest of the registry sees the event it produced. */
  lemma ReportedShift(mods: seq<ModifierSpec>, e: EventData, k: nat)
    requires k + 1 < |mods| && Step(mods[0], e).Success?
    requires !(Step(mods[0], e).value.result && IsFilter(mods[0].kind))
    ensures Reported(mods[1..], Step(mods[0], e).value.event, k) == Reported(mods, e, k + 1)
  {
    var reply := Step(mods[0], e).value;
    var tail := mods[1..];
    assert mods[..k + 1][0] == mods[0] && mods[..k + 1][1..] == tail[..k];
    assert mods[k + 1] == tail[k];
    FlagIrrelevant(tail[..k], reply.event, reply.result, false);
  }

  /** With every modifier well configured, an event is exported exactly when
      no filter of the registry excludes it. */
  lemma {:induction false} KeptIffNoFilterExcludes(mods: seq<ModifierSpec>, e: EventData, changed: bool)
    requires forall i :: 0 <= i < |mods| ==> WellConfigured(mods[i])
    ensures RunFrom(mods, e, changed).verdict.Kept? <==>
      forall i :: 0 <= i < |mods| && IsFilter(mods[i].kind) ==>
        FilterTimeBefore.Excludes(mods[i].config, e) == Success(false)
    decreases |mods|
  {
    if mods != [] {
      var reply := Step(mods[0], e).value;
      var tail := mods[1..];
      forall i | 0 <= i < |tail|
        ensures FilterTimeBefore.Excludes(tail[i].config, reply.event) == FilterTimeBefore.Excludes(mods[i + 1].config, e)
      {
        FilterTimeBefore.DependsOnlyOnPeriod(tail[i].config, reply.event, e);
      }
      if reply.result && IsFilter(mods[0].kind) {
        assert FilterTimeBefore.Excludes(mods[0].config, e) == Success(true);
      } else {
        KeptIffNoFilterExcludes(tail, reply.event, changed || reply.result);
        if IsFilter(mods[0].kind) {
          assert FilterTimeBefore.Excludes(mods[0].config, e) == Success(false);
        }
        assert forall i :: 1 <= i < |mods| ==> mods[i] == tail[i - 1];
      }
    }
  }

  /** A modifier throws only when one of them is malformed, and a registry
      of well-configured modifiers never throws. */
  lemma {:induction false} FailsOnlyWhenMalformed(mods: seq<ModifierSpec>, e: EventData, changed: bool)
    requires RunFrom(mods, e, changed).verdict.Failed?
    ensures exists i :: 0 <= i < |mods| && !WellConfigured(mods[i])
    decreases |mods|
  {
    match Step(mods[0], e)
    case Failure(_) =>
      assert !WellConfigured(mods[0]);
    case Success(reply) =>
      FailsOnlyWhenMalformed(mods[1..], reply.event, changed || reply.result);
      var i :| 0 <= i < |mods[1..]| && !WellConfigured(mods[1..][i]);
      assert !WellConfigured(mods[i + 1]);
  }

  /** The import calendar's events are processed in order until a modifier
      throws; in the PHP code the exception leaves the loop. */
  predicate Stopped(os: seq<Outcome>) {
    |os| > 0 && os[|os| - 1].verdict.Failed?
  }

  /** The outcomes up to and including the first failure, or all of them
      when none fails. */
  function Prefix(cs: seq<Outcome>): (os: seq<Outcome>)
    ensures |os| <= |cs|
    ensures Stopped(os) || |os| == |cs|
    ensures forall i :: 0 <= i < |os| ==> os[i] == cs[i]
    ensures forall i :: 0 <= i < |os| - 1 ==> !os[i].verdict.Failed?
    decreases |cs|
  {
    if cs == [] then []
    else
      var prev := Prefix(cs[..|cs| - 1]);
      if Stopped(prev) then prev
      else
        var os := prev + [cs[|cs| - 1]];
        assert |os| == |cs|;
        os
  }

  /** A sequence of outcomes that stops at its first failure, and otherwise
      covers all of cs, is the prefix of cs up to that failure. */
  lemma {:induction false} PrefixUnique(cs: seq<Outcome>, os: seq<Outcome>)
    requires |os| <= |cs|
    requires forall j :: 0 <= j < |os| ==> os[j] == cs[j]
    requires forall j :: 0 <= j < |os| - 1 ==> !os[j].verdict.Failed?
    requires Stopped(os) || |os| == |cs|
    ensures Prefix(cs) == os
    decreases |cs|
  {
    if cs != [] {
      var front := cs[..|cs| - 1];
      if |os| == |cs| {
        var prev := os[..|os| - 1];
        assert !Stopped(prev);
        PrefixUnique(front, prev);
        assert os == prev + [cs[|cs| - 1]];
      } else {
        PrefixUnique(front, os);
      }
    }
  }

  /** The chain outcome of every event, as if none threw. */
  function Chains(mods: seq<ModifierSpec>, ds: seq<EventData>): (cs: seq<Outcome>)
    ensures |cs| == |ds|
    ensures forall i :: 0 <= i < |ds| ==> cs[i] == Chain(mods, ds[i])
  {
    seq(|ds|, i requires 0 <= i < |ds| => Chain(mods, ds[i]))
  }

  /** The outer loop: the outcome of every event processed, in order. */
  function Outcomes(mods: seq<ModifierSpec>, ds: seq<EventData>): (os: seq<Outcome>)
    ensures |os| <= |ds|
    ensures Stopped(os) || |os| == |ds|
    // every event gets the same chain, independently of the others
    ensures forall i :: 0 <= i < |os| ==> os[i] == Chain(mods, ds[i])
    ensures forall i :: 0 <= i < |os| - 1 ==> !os[i].verdict.Failed?
  {
    Prefix(Chains(mods, ds))
  }

  /** Outcomes is the only sequence of chain outcomes, one per event in
      order, that stops at its first failure and otherwise covers every
      event. */
  lemma OutcomesUnique(mods: seq<ModifierSpec>, ds: seq<EventData>, os: seq<Outcome>)
    requires |os| <= |ds|
    requires forall j :: 0 <= j < |os| ==> os[j] == Chain(mods, ds[j])
    requires forall j :: 0 <= j < |os| - 1 ==> !os[j].verdict.Failed?
    requires Stopped(os) || |os| == |ds|
    ensures Outcomes(mods, ds) == os
  {
    PrefixUnique(Chains(mods, ds), os);
  }

  /** After the first exception no further event is processed. */
  lemma StoppedStays(mods: seq<ModifierSpec>, ds: seq<EventData>, n: nat)
    requires n <= |ds|
    requires Stopped(Outcomes(mods, ds[..n]))
    ensures Outcomes(mods, ds) == Outcomes(mods, ds[..n])
  {
    var os := Outcomes(mods, ds[..n]);
    assert forall j :: 0 <= j < |os| ==> ds[..n][j] == ds[j];
    OutcomesUnique(mods, ds, os);
  }

  /** One more outcome after no failure so far is appended. */
  lemma PrefixStep(cs: seq<Outcome>, n: nat)
    requires n < |cs| && !Stopped(Prefix(cs[..n]))
    ensures Prefix(cs[..n + 1]) == Prefix(cs[..n]) + [cs[n]]
  {
    assert cs[..n + 1][..n] == cs[..n];
  }

  /** The chains of a prefix of the events are a prefix of the chains. */
  lemma ChainsPrefix(mods: seq<ModifierSpec>, ds: seq<EventData>, n: nat)
    requires n <= |ds|
    ensures Chains(mods, ds[..n]) == Chains(mods, ds)[..n]
  {
    assert forall j :: 0 <= j < n ==> ds[..n][j] == ds[j];
  }

  /** One more event processed after no exception so far. */
  lemma OutcomesStep(mods: seq<ModifierSpec>, ds: seq<EventData>, i: nat)
    requires i < |ds|
    requires !Stopped(Outcomes(mods, ds[..i]))
    ensures Outcomes(mods, ds[..i + 1]) == Outcomes(mods, ds[..i]) + [Chain(mods, ds[i])]
  {
    var cs := Chains(mods, ds);
    ChainsPrefix(mods, ds, i);
    ChainsPrefix(mods, ds, i + 1);
    PrefixStep(cs, i);
  }

  function CountFiltered(os: seq<Outcome>): nat {
    if os == [] then 0
    else CountFiltered(os[..|os| - 1]) + (if os[|os| - 1].verdict.Filtered? then 1 else 0)
  }

  function CountChanged(os: seq<Outcome>): nat {
    if os == [] then 0
    else CountChanged(os[..|os| - 1]) + (if os[|os| - 1].verdict == Kept(true) then 1 else 0)
  }

  /** The elements of xs whose outcome is Kept, in their original order. */
  function Survivors<T>(xs: seq<T>, os: seq<Outcome>): (ys: seq<T>)
    requires |os| <= |xs|
    ensures |ys| <= |os|
  {
    if os == [] then []
    else Survivors(xs, os[..|os| - 1]) + (if os[|os| - 1].verdict.Kept? then [xs[|os| - 1]] else [])
  }

  /** The events of the outcomes, as the modifiers left them. */
  function Finals(os: seq<Outcome>): (ds: seq<EventData>)
    ensures |ds| == |os|
    ensures forall i :: 0 <= i < |os| ==> ds[i] == os[i].event
  {
    seq(|os|, i requires 0 <= i < |os| => os[i].event)
  }

  /** What one more outcome adds to the counters and to the survivors. */
  lemma Extend<T>(xs: seq<T>, os: seq<Outcome>, o: Outcome)
    requires |os| < |xs|
    ensures var os' := os + [o];
      && CountFiltered(os') == CountFiltered(os) + (if o.verdict.Filtered? then 1 else 0)
      && CountChanged(os') == CountChanged(os) + (if o.verdict == Kept(true) then 1 else 0)
      && Survivors(xs, os') == Survivors(xs, os) + (if o.verdict.Kept? then [xs[|os|]] else [])
  {
    assert (os + [o])[..|os|] == os;
  }

  /** Every event processed is either filtered out or exported, and only
      exported events are counted as changed. */
  lemma {:induction false} CountsAddUp<T>(xs: seq<T>, os: seq<Outcome>)
    requires |os| <= |xs|
    requires forall i :: 0 <= i < |os| ==> !os[i].verdict.Failed?
    ensures CountFiltered(os) + |Survivors(xs, os)| == |os|
    ensures CountChanged(os) <= |Survivors(xs, os)|
  {
    if os != [] {
      CountsAddUp(xs, os[..|os| - 1]);
    }
  }

  /** The events exported from the first n outcomes come before those from
      the rest: the export keeps the import order. */
  lemma {:induction false} SurvivorsSplit<T>(xs: seq<T>, os: seq<Outcome>, n: nat)
    requires |os| <= |xs| && n <= |os|
    ensures Survivors(xs, os) == Survivors(xs, os[..n]) + Survivors(xs[n..], os[n..])
    decreases |os|
  {
    if n == |os| {
      assert os[..n] == os;
      assert os[n..] == [];
    } else {
      var front := os[..|os| - 1];
      SurvivorsSplit(xs, front, n);
      assert front[..n] == os[..n];
      assert os[n..][..|os[n..]| - 1] == front[n..];
      assert os[n..][|os[n..]| - 1] == os[|os| - 1];
      assert xs[n..][|os[n..]| - 1] == xs[|os| - 1];
    }
  }

  /** An element is exported exactly when it is at a position whose outcome
      is Kept. */
  lemma {:induction false} SurvivorsMembers<T>(xs: seq<T>, os: seq<Outcome>, x: T)
    requires |os| <= |xs|
    ensures x in Survivors(xs, os) <==> exists i :: 0 <= i < |os| && os[i].verdict.Kept? && xs[i] == x
  {
    if os != [] {
      var front := os[..|os| - 1];
      SurvivorsMembers(xs, front, x);
      assert forall i :: 0 <= i < |front| ==> front[i] == os[i];
    }
  }
}
