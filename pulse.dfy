/**
  What both revisions of the heart-rate detector share: the input they poll
  (one ADC reading and one timer reading per loop iteration), the
  threshold-crossing edge test, the indicator LED, and a reference
  description of a sample stream in terms of its threshold crossings, against
  which the detectors' state machines are proved.
 */
module Pulse {
  import opened CInt

  /**
    One iteration of a polling loop: the raw ADC count and the value of the
    microsecond timer (time since boot) during that iteration.
   */
  datatype Sample = Sample(raw: int, now: int)

  /** The LED output: `GPIO_NUM_NC` (no LED) or a GPIO number. */
  datatype Pin = NotConnected | Gpio(num: nat)

  /** What a sample does to the two-state pulse machine. */
  datatype Edge = Rising | Falling | NoEdge

  /**
    The branch a sample takes: a rising edge when no pulse is active and the
    reading is at or above the threshold, a falling edge when a pulse is
    active and the reading is below it, and neither otherwise.
   */
  function EdgeOf(pulseStarted: bool, raw: int, threshold: int): (e: Edge)
    ensures e == Rising <==> !pulseStarted && raw >= threshold
    ensures e == Falling <==> pulseStarted && raw < threshold
    // no edge exactly when the phase already agrees with the reading
    ensures e == NoEdge <==> (pulseStarted <==> raw >= threshold)
  {
    if !pulseStarted && raw >= threshold then Rising
    else if pulseStarted && raw < threshold then Falling
    else NoEdge
  }

  /** The levels a `gpio_set_level` on the LED writes: none when there is no LED. */
  function SetLed(led: Pin, level: int): (w: seq<int>)
    ensures led.NotConnected? <==> w == []
    ensures led.Gpio? ==> w == [level]
  {
    if led.NotConnected? then [] else [level]
  }

  /** The LED writes of an edge: on for a rising edge, off for a falling edge. */
  function EdgeLed(led: Pin, e: Edge): (w: seq<int>)
    ensures |w| <= 1
    ensures w != [] <==> led.Gpio? && e != NoEdge
    ensures w != [] ==> w[0] == (if e == Rising then 1 else 0)
  {
    match e
    case Rising => SetLed(led, 1)
    case Falling => SetLed(led, 0)
    case NoEdge => []
  }

  /**
    The timer as the detectors see it: the reading on entry is positive and
    earlier than every sample's, and the samples' readings strictly increase
    (the loop sleeps between samples).
   */
  predicate ClockOk(entry: int, s: seq<Sample>)
  {
    && 0 < entry
    && (forall i :: 0 <= i < |s| ==> entry < s[i].now)
    && (forall i, j :: 0 <= i < j < |s| ==> s[i].now < s[j].now)
  }

  /**
    The BPM of a run: `required_beats * 60000000` divided by the duration in
    microseconds, truncated, and stored into a `u_int8_t` (modulo 256).
   */
  function Bpm(requiredBeats: int, duration: int): (bpm: int)
    requires 0 <= requiredBeats && 0 < duration
    ensures IsU8(bpm)
  {
    ToU8(Div(requiredBeats * 60000000, duration))
  }

  /**
    How a call ends: with a measurement, with the timeout (the function
    returns 0), or, because the model's sample sequence is finite, with the
    samples used up while the function would still be polling. A measurement
    returns its BPM and a timeout returns 0.
   */
  datatype Outcome = Measured(bpm: int) | TimedOut | SamplesExhausted

  /**
    The end of a call: the outcome, the detector's final state, how many
    samples were taken, the last timer reading, and the levels written to the
    LED.
   */
  datatype Finish<D> = Finish(outcome: Outcome, state: D, consumed: nat, exitTime: int, leds: seq<int>)

  /** The last timer reading after j samples have been taken: the entry reading when j is 0. */
  function ExitTime(entry: int, s: seq<Sample>, j: nat): int
    requires j <= |s|
  {
    if j == 0 then entry else s[j - 1].now
  }

  // ---------------------------------------------------------------------
  // A sample stream described by its threshold crossings

  predicate Above(x: Sample, threshold: int)
  {
    x.raw >= threshold
  }

  /** Sample i starts a pulse: it is above the threshold and its predecessor (if any) is not. */
  predicate RisesAt(s: seq<Sample>, i: int, threshold: int)
    requires 0 <= i < |s|
  {
    Above(s[i], threshold) && (i == 0 || !Above(s[i - 1], threshold))
  }

  /** Sample i ends a pulse: it is below the threshold and its predecessor is above it. */
  predicate FallsAt(s: seq<Sample>, i: int, threshold: int)
    requires 0 <= i < |s|
  {
    0 < i && Above(s[i - 1], threshold) && !Above(s[i], threshold)
  }

  /** The number of completed pulses (above-then-below pairs of neighbours) in s. */
  function Falls(s: seq<Sample>, threshold: int): nat
  {
    if |s| < 2 then 0
    else (if Above(s[0], threshold) && !Above(s[1], threshold) then 1 else 0) + Falls(s[1..], threshold)
  }

  /** The time of the first sample at or above the threshold, 0 if there is none. */
  function FirstAboveTime(s: seq<Sample>, threshold: int): int
  {
    if |s| == 0 then 0
    else if Above(s[0], threshold) then s[0].now
    else FirstAboveTime(s[1..], threshold)
  }

  /** The time of the last sample that starts a pulse, or `entry` if none does. */
  function LastRiseTime(s: seq<Sample>, threshold: int, entry: int): int
  {
    if |s| == 0 then entry
    else if RisesAt(s, |s| - 1, threshold) then s[|s| - 1].now
    else LastRiseTime(s[..|s| - 1], threshold, entry)
  }

  /** The LED levels written while s is processed: 1 at each pulse start, 0 at each pulse end. */
  function EdgeLeds(led: Pin, s: seq<Sample>, threshold: int): seq<int>
  {
    if |s| == 0 then []
    else
      EdgeLeds(led, s[..|s| - 1], threshold)
      + (if RisesAt(s, |s| - 1, threshold) then SetLed(led, 1)
         else if FallsAt(s, |s| - 1, threshold) then SetLed(led, 0)
         else [])
  }

  // ---------------------------------------------------------------------
  // The reference functions extended by one sample at the end

  lemma {:induction false} FallsSnoc(s: seq<Sample>, x: Sample, threshold: int)
    ensures Falls(s + [x], threshold)
         == Falls(s, threshold) + (if |s| > 0 && Above(s[|s| - 1], threshold) && !Above(x, threshold) then 1 else 0)
  {
    if |s| >= 2 {
      assert (s + [x])[1..] == s[1..] + [x];
      FallsSnoc(s[1..], x, threshold);
    } else if |s| == 1 {
      assert (s + [x])[1..] == [x];
    }
  }

  lemma {:induction false} FirstAboveSnoc(s: seq<Sample>, x: Sample, threshold: int)
    requires forall i :: 0 <= i < |s| ==> s[i].now != 0
    ensures FirstAboveTime(s + [x], threshold)
         == if FirstAboveTime(s, threshold) != 0 then FirstAboveTime(s, threshold)
            else if Above(x, threshold) then x.now else 0
  {
    if |s| > 0 {
      assert (s + [x])[1..] == s[1..] + [x];
      FirstAboveSnoc(s[1..], x, threshold);
    }
  }

  /** With non-zero times, FirstAboveTime is 0 exactly when no sample is above the threshold. */
  lemma {:induction false} FirstAboveUnset(s: seq<Sample>, threshold: int)
    requires forall i :: 0 <= i < |s| ==> s[i].now != 0
    ensures FirstAboveTime(s, threshold) == 0 <==> forall i :: 0 <= i < |s| ==> !Above(s[i], threshold)
  {
    if |s| > 0 {
      FirstAboveUnset(s[1..], threshold);
      assert forall i :: 1 <= i < |s| ==> s[i] == s[1..][i - 1];
    }
  }

  /** A stream that never reaches the threshold has no completed pulse. */
  lemma {:induction false} FlatHasNoFalls(s: seq<Sample>, threshold: int)
    requires forall i :: 0 <= i < |s| ==> !Above(s[i], threshold)
    ensures Falls(s, threshold) == 0
  {
    if |s| >= 2 {
      FlatHasNoFalls(s[1..], threshold);
    }
  }

  /** A stream that never reaches the threshold starts no pulse and writes nothing to the LED. */
  lemma {:induction false} FlatHasNoRise(s: seq<Sample>, threshold: int, entry: int, led: Pin)
    requires forall i :: 0 <= i < |s| ==> !Above(s[i], threshold)
    ensures LastRiseTime(s, threshold, entry) == entry
    ensures EdgeLeds(led, s, threshold) == []
  {
    if |s| > 0 {
      FlatHasNoRise(s[..|s| - 1], threshold, entry, led);
    }
  }
}
