/**
 * Event detection over a signal history, as values: which signal yields an
 * event, and the event list the detector produces.
 */
module Events {
  import opened Floats
  import opened Framework
  import opened Signals

  /**
   * The event a signal yields: one exactly when it has a delta whose
   * magnitude exceeds the threshold; Strengthened for a positive delta,
   * Weakened otherwise, stamped with the signal's window start.
   */
  function EventFor(s: CoherenceSignal, threshold: real): (r: Option<CoherenceEvent>)
    ensures r.Some? <==> s.delta.Some? && Greater(Abs(s.delta.value), threshold)
    ensures r.Some? ==> r.value.magnitude == Abs(s.delta.value)
    ensures r.Some? ==> r.value.timestamp == s.window.start && r.value.nodes == s.cutNodes
    ensures r.Some? ==> (r.value.eventType.Strengthened? || r.value.eventType.Weakened?)
    ensures r.Some? ==> (r.value.eventType.Strengthened? <==> Greater(s.delta.value, 0.0))
  {
    match s.delta
    case None => None
    case Some(d) =>
      if Greater(Abs(d), threshold) then
        var kind := if Greater(d, 0.0) then Strengthened else Weakened;
        Some(CoherenceEvent(kind, s.window.start, s.cutNodes, Abs(d)))
      else None
  }

  function AsSeq<T>(o: Option<T>): seq<T>
  {
    if o.Some? then [o.value] else []
  }

  /** The events of signals 1 .. |history|-1, in history order (the first signal is never examined) */
  function DetectedEvents(history: seq<CoherenceSignal>, threshold: real): seq<CoherenceEvent>
  {
    if |history| <= 1 then []
    else DetectedEvents(history[..|history| - 1], threshold) + AsSeq(EventFor(history[|history| - 1], threshold))
  }

  /** At most one event per consecutive pair of signals; none for a history of fewer than two. */
  lemma {:induction false} DetectedEventsLength(history: seq<CoherenceSignal>, threshold: real)
    ensures |history| <= 1 ==> DetectedEvents(history, threshold) == []
    ensures |history| >= 1 ==> |DetectedEvents(history, threshold)| <= |history| - 1
  {
    if |history| > 1 {
      DetectedEventsLength(history[..|history| - 1], threshold);
    }
  }

  /** The positions 1 .. |history|-1 whose signal yields an event, ascending */
  function EventSources(history: seq<CoherenceSignal>, threshold: real): (idx: seq<nat>)
    ensures forall k :: 0 <= k < |idx| ==> 1 <= idx[k] < |history| && EventFor(history[idx[k]], threshold).Some?
    ensures forall k, l :: 0 <= k < l < |idx| ==> idx[k] < idx[l]
    ensures forall i :: 1 <= i < |history| && EventFor(history[i], threshold).Some? ==> i in idx
  {
    if |history| <= 1 then []
    else
      var prefix := history[..|history| - 1];
      var earlier := EventSources(prefix, threshold);
      assert forall k :: 0 <= k < |earlier| ==> history[earlier[k]] == prefix[earlier[k]];
      if EventFor(history[|history| - 1], threshold).Some? then earlier + [|history| - 1] else earlier
  }

  /**
   * The detected events are exactly the events of the signals at
   * EventSources, one each, in the same order.
   */
  lemma {:induction false} DetectedEventsExact(history: seq<CoherenceSignal>, threshold: real)
    ensures |DetectedEvents(history, threshold)| == |EventSources(history, threshold)|
    ensures forall k :: 0 <= k < |EventSources(history, threshold)| ==>
      DetectedEvents(history, threshold)[k] == EventFor(history[EventSources(history, threshold)[k]], threshold).value
  {
    if |history| > 1 {
      var prefix := history[..|history| - 1];
      DetectedEventsExact(prefix, threshold);
      var earlier, sources := EventSources(prefix, threshold), EventSources(history, threshold);
      var before, events := DetectedEvents(prefix, threshold), DetectedEvents(history, threshold);
      var last := EventFor(history[|history| - 1], threshold);
      assert events == before + AsSeq(last);
      assert sources == if last.Some? then earlier + [|history| - 1] else earlier;
      forall k | 0 <= k < |sources|
        ensures events[k] == EventFor(history[sources[k]], threshold).value
      {
        if k < |earlier| {
          assert sources[k] == earlier[k] && events[k] == before[k];
          assert history[earlier[k]] == prefix[earlier[k]];
        }
      }
    }
  }

  /** A higher threshold never yields more events. */
  lemma {:induction false} DetectedEventsAntitone(history: seq<CoherenceSignal>, low: real, high: real)
    requires low <= high
    ensures |DetectedEvents(history, high)| <= |DetectedEvents(history, low)|
  {
    if |history| > 1 {
      DetectedEventsAntitone(history[..|history| - 1], low, high);
      var last := history[|history| - 1];
      if EventFor(last, high).Some? {
        assert EventFor(last, low).Some?;
      }
    }
  }

  /**
   * On an engine history the decision for signal i depends only on the two
   * cut values: |cut_i - cut_(i-1)| > threshold. Two consecutive single-node
   * signals (both cuts infinite) never yield an event; a change between a
   * single-node and a larger graph always does: growing from one node
   * gives delta -inf and a Weakened event, shrinking to one node gives
   * +inf and a Strengthened event, both of infinite magnitude.
   */
  lemma HistoryEvents(history: seq<CoherenceSignal>, approximate: bool, threshold: real, i: nat)
    requires IsHistory(history, approximate)
    requires 1 <= i < |history|
    ensures EventFor(history[i], threshold).Some?
      <==> Greater(Abs(Sub(history[i].minCutValue, history[i - 1].minCutValue)), threshold)
    ensures history[i].minCutValue.PosInf? && history[i - 1].minCutValue.PosInf? ==>
      EventFor(history[i], threshold).None?
    ensures history[i].minCutValue.PosInf? != history[i - 1].minCutValue.PosInf? ==>
      EventFor(history[i], threshold).Some?
    ensures history[i - 1].minCutValue.PosInf? && history[i].minCutValue.Finite? ==>
      && EventFor(history[i], threshold).Some?
      && EventFor(history[i], threshold).value.eventType == Weakened
      && EventFor(history[i], threshold).value.magnitude == PosInf
    ensures history[i - 1].minCutValue.Finite? && history[i].minCutValue.PosInf? ==>
      && EventFor(history[i], threshold).Some?
      && EventFor(history[i], threshold).value.eventType == Strengthened
      && EventFor(history[i], threshold).value.magnitude == PosInf
  {
    assert SignalAt(history[i], i, approximate) && SignalAt(history[i - 1], i - 1, approximate);
  }

  /** The first signal of an engine history has no delta, so no event. */
  lemma FirstSignalNoEvent(history: seq<CoherenceSignal>, approximate: bool, threshold: real)
    requires IsHistory(history, approximate) && history != []
    ensures EventFor(history[0], threshold).None?
  {
  }
}
