/**
  The heart-rate pulse detector of src/heartrate.c (the current revision).

  The detector polls an ADC channel, treats readings at or above a threshold
  as "pulse active", counts a beat at every falling edge, and returns
  `required_beats * 60000000 / duration` (in a `u_int8_t`) once enough beats
  are counted, or 0 when no rising edge has been seen for longer than the
  timeout. The ADC and the timer are replaced by a sequence of samples, each
  holding the reading and the timer value of one loop iteration.
 */
module HeartRate {
  import opened CInt
  import opened Pulse

  /** The deployment constants of include/config.h. */
  const HEARTBEAT_THRESHOLD: int := 3000
  const REQUIRED_HEARTBEATS: int := 7
  const HEARTBEAT_TIMEOUT_MS: int := 2000

  /** The parameters of one call (the ADC handle and channel are folded into the samples). */
  datatype Config = Config(threshold: int, requiredBeats: int, timeoutMs: int, led: Pin)

  /**
    The parameters fit their C types (`u_int16_t`, `u_int8_t`, `u_int32_t`),
    and `required_beats * 60000000`, computed in a 32-bit `int`, does not
    overflow (true up to 35 beats).
   */
  predicate ValidConfig(c: Config)
  {
    && IsU16(c.threshold)
    && IsU8(c.requiredBeats)
    && IsU32(c.timeoutMs)
    && c.requiredBeats * 60000000 <= INT_MAX
  }

  /** The configuration the firmware is deployed with. */
  function Deployment(led: Pin): (c: Config)
    ensures ValidConfig(c)
    ensures TimeoutUs(c.timeoutMs) == 2000000
  {
    Config(HEARTBEAT_THRESHOLD, REQUIRED_HEARTBEATS, HEARTBEAT_TIMEOUT_MS, led)
  }

  /**
    The timeout in microseconds. `timeout_ms * 1000` is evaluated in unsigned
    32-bit arithmetic, so it wraps for timeouts above 4294967 ms.
   */
  function TimeoutUs(timeoutMs: int): (t: int)
    requires IsU32(timeoutMs)
    ensures IsU32(t)
    ensures timeoutMs <= 4294967 ==> t == timeoutMs * 1000
    ensures timeoutMs == 4294968 ==> t == 704
  {
    ToU32(timeoutMs * 1000)
  }

  // ---------------------------------------------------------------------
  // The loop's state and one iteration of its edge logic

  /** The loop's local variables `pulse_started`, `beats_detected`, `start_time`, `timeout_time`. */
  datatype Detector = Detector(pulseStarted: bool, beats: int, startTime: int, timeoutTime: int)

  /** The state on entry: `timeout_time` is the timer reading taken on entry, `start_time` is unset (0). */
  function Init(entry: int): (d: Detector)
    ensures !d.pulseStarted && d.beats == 0 && d.startTime == 0
    ensures d.timeoutTime == entry
  {
    Detector(false, 0, 0, entry)
  }

  /**
    One sample through the edge logic. A rising edge activates the pulse,
    stamps `start_time` if it is still unset and resets the timeout reference;
    a falling edge deactivates it and counts one beat; any other sample
    changes nothing.
   */
  function Step(d: Detector, x: Sample, threshold: int): (d': Detector)
    // after any sample the phase records whether that sample was above the threshold
    ensures d'.pulseStarted == Above(x, threshold)
    // a beat is counted exactly when an active pulse ends
    ensures d'.beats == if d.pulseStarted && !Above(x, threshold) then d.beats + 1 else d.beats
    // the start time, once set, is never moved; a rising edge sets it while it is unset
    ensures d.startTime != 0 ==> d'.startTime == d.startTime
    ensures d'.startTime != d.startTime ==> d.startTime == 0 && d'.startTime == x.now && EdgeOf(d.pulseStarted, x.raw, threshold) == Rising
    ensures EdgeOf(d.pulseStarted, x.raw, threshold) == Rising && d.startTime == 0 ==> d'.startTime == x.now
    // the timeout reference moves exactly on a rising edge, to the sample's time
    ensures d'.timeoutTime == if EdgeOf(d.pulseStarted, x.raw, threshold) == Rising then x.now else d.timeoutTime
  {
    match EdgeOf(d.pulseStarted, x.raw, threshold)
    case Rising =>
      d.(pulseStarted := true,
         startTime := if d.startTime == 0 then x.now else d.startTime,
         timeoutTime := x.now)
    case Falling =>
      d.(pulseStarted := false, beats := d.beats + 1)
    case NoEdge =>
      d
  }

  /** The state after the samples of s, in order. */
  function Fold(d: Detector, s: seq<Sample>, threshold: int): Detector
  {
    if |s| == 0 then d else Step(Fold(d, s[..|s| - 1], threshold), s[|s| - 1], threshold)
  }

  // ---------------------------------------------------------------------
  // The whole call

  /** The end of a call of this revision. */
  type Finish = Pulse.Finish<Detector>

  /** What holds of the loop's state when it is about to check its guard with k samples taken. */
  predicate Consistent(c: Config, entry: int, s: seq<Sample>, k: nat, d: Detector, lastNow: int)
  {
    && ClockOk(entry, s)
    && k <= |s|
    && 0 < lastNow
    && (k < |s| ==> lastNow < s[k].now)
    && 0 <= d.beats
    && 0 <= d.startTime <= lastNow
    && (d.beats >= c.requiredBeats ==> d.startTime == 0 || d.startTime < lastNow)
  }

  /** The loop from its guard with k samples taken, as a function. */
  function RunFrom(c: Config, entry: int, s: seq<Sample>, k: nat, d: Detector, lastNow: int, leds: seq<int>): (f: Finish)
    requires ValidConfig(c) && Consistent(c, entry, s, k, d, lastNow)
    ensures k <= f.consumed <= |s|
    decreases |s| - k
  {
    if d.beats >= c.requiredBeats then
      Finish(Measured(Bpm(c.requiredBeats, lastNow - d.startTime)), d, k, lastNow, leds)
    else if k == |s| then
      Finish(SamplesExhausted, d, k, lastNow, leds)
    else
      var x := s[k];
      var d' := Step(d, x, c.threshold);
      var leds' := leds + EdgeLed(c.led, EdgeOf(d.pulseStarted, x.raw, c.threshold));
      if x.now - d'.timeoutTime > TimeoutUs(c.timeoutMs) then
        Finish(TimedOut, d', k + 1, x.now, leds' + SetLed(c.led, 0))
      else
        RunFrom(c, entry, s, k + 1, d', x.now, leds')
  }

  /** A call that reads the timer as `entry` on entry and then polls the samples s. */
  function Run(c: Config, entry: int, s: seq<Sample>): (f: Finish)
    requires ValidConfig(c) && ClockOk(entry, s)
    ensures f.consumed <= |s|
  {
    RunFrom(c, entry, s, 0, Init(entry), entry, [])
  }

  /**
    `get_heart_rate`: the polling loop. Returns the outcome (the C function returns
    the BPM of a measurement and 0 on timeout) and the levels written to the
    LED, in order.
   */
  method GetHeartRate(c: Config, entry: int, s: seq<Sample>) returns (outcome: Outcome, leds: seq<int>)
    requires ValidConfig(c) && ClockOk(entry, s)
    ensures outcome == Run(c, entry, s).outcome
    ensures leds == Run(c, entry, s).leds
  {
    var timeoutTime := entry;
    var startTime := 0;
    var pulseStarted := false;
    var beatsDetected := 0;
    var now := entry;
    var k := 0;
    leds := [];
    while beatsDetected < c.requiredBeats
      invariant Consistent(c, entry, s, k, Detector(pulseStarted, beatsDetected, startTime, timeoutTime), now)
      invariant RunFrom(c, entry, s, k, Detector(pulseStarted, beatsDetected, startTime, timeoutTime), now, leds)
             == Run(c, entry, s)
      decreases |s| - k
    {
      if k == |s| {
        return SamplesExhausted, leds;
      }
      ghost var d := Detector(pulseStarted, beatsDetected, startTime, timeoutTime);
      ghost var leds0 := leds;
      var raw := s[k].raw;
      now := s[k].now;
      k := k + 1;
      if !pulseStarted && raw >= c.threshold {
        if c.led != NotConnected {
          leds := leds + [1];
        }
        if startTime == 0 {
          startTime := now;
        }
        pulseStarted := true;
        timeoutTime := now;
      } else if pulseStarted && raw < c.threshold {
        if c.led != NotConnected {
          leds := leds + [0];
        }
        pulseStarted := false;
        beatsDetected := beatsDetected + 1;
      }
      assert Detector(pulseStarted, beatsDetected, startTime, timeoutTime) == Step(d, s[k - 1], c.threshold);
      assert leds == leds0 + EdgeLed(c.led, EdgeOf(d.pulseStarted, raw, c.threshold));
      if now - timeoutTime > TimeoutUs(c.timeoutMs) {
        if c.led != NotConnected {
          leds := leds + [0];
        }
        return TimedOut, leds;
      }
    }
    var duration := now - startTime;
    outcome := Measured(ToU8(Div(c.requiredBeats * 60000000, duration)));
  }

  // ---------------------------------------------------------------------
  // The state machine against the reference description of the stream

  /**
    After any prefix of a stream, the detector's state is determined by the
    stream's threshold crossings: the pulse is active iff the last sample was
    above the threshold, the beat count is the number of completed pulses,
    the start time is that of the first sample above the threshold, and the
    timeout reference is the time of the last pulse start (or of entry).
   */
  lemma {:induction false} FoldCharacterised(entry: int, s: seq<Sample>, threshold: int)
    requires forall i :: 0 <= i < |s| ==> s[i].now > 0
    ensures Fold(Init(entry), s, threshold)
         == Detector(|s| > 0 && Above(s[|s| - 1], threshold), Falls(s, threshold),
                     FirstAboveTime(s, threshold), LastRiseTime(s, threshold, entry))
  {
    if |s| > 0 {
      var p, x := s[..|s| - 1], s[|s| - 1];
      assert s == p + [x];
      FoldCharacterised(entry, p, threshold);
      FallsSnoc(p, x, threshold);
      FirstAboveSnoc(p, x, threshold);
      FirstAboveUnset(p, threshold);
      if FirstAboveTime(p, threshold) == 0 && |p| > 0 {
        assert !Above(p[|p| - 1], threshold);
      }
    }
  }

  /** The state after the first j samples. */
  function StateAt(c: Config, entry: int, s: seq<Sample>, j: nat): Detector
    requires j <= |s|
  {
    Fold(Init(entry), s[..j], c.threshold)
  }

  /**
    The loop guard fails after j samples: enough beats are counted. Before
    the first sample it fails only when no beats are required.
   */
  predicate DoneAt(c: Config, entry: int, s: seq<Sample>, j: nat)
    requires j <= |s|
    ensures j == 0 ==> (DoneAt(c, entry, s, j) <==> c.requiredBeats <= 0)
  {
    assert s[..0] == [];
    StateAt(c, entry, s, j).beats >= c.requiredBeats
  }

  /** After j samples the guard fails exactly when j samples hold `required_beats` completed pulses. */
  lemma DoneAtCharacterised(c: Config, entry: int, s: seq<Sample>, j: nat)
    requires ClockOk(entry, s) && j <= |s|
    ensures DoneAt(c, entry, s, j) <==> Falls(s[..j], c.threshold) >= c.requiredBeats
  {
    FoldCharacterised(entry, s[..j], c.threshold);
  }

  /**
    The timeout check fires in the iteration that takes sample j - 1; it can
    fire only once the timer has passed the timeout reference.
   */
  predicate TimedOutAt(c: Config, entry: int, s: seq<Sample>, j: nat)
    requires 1 <= j <= |s| && IsU32(c.timeoutMs)
    ensures TimedOutAt(c, entry, s, j) ==> s[j - 1].now > StateAt(c, entry, s, j).timeoutTime
  {
    s[j - 1].now - StateAt(c, entry, s, j).timeoutTime > TimeoutUs(c.timeoutMs)
  }

  /**
    The check fires after j samples exactly when the j-th comes more than
    the timeout after the last rising edge among them, or after entry when
    there was none.
   */
  lemma TimedOutAtCharacterised(c: Config, entry: int, s: seq<Sample>, j: nat)
    requires ClockOk(entry, s) && 1 <= j <= |s| && IsU32(c.timeoutMs)
    ensures TimedOutAt(c, entry, s, j)
        <==> s[j - 1].now - LastRiseTime(s[..j], c.threshold, entry) > TimeoutUs(c.timeoutMs)
  {
    FoldCharacterised(entry, s[..j], c.threshold);
  }

  /** The edge of sample k, seen from the state after the samples before it. */
  lemma EdgeAtFold(c: Config, entry: int, s: seq<Sample>, k: nat)
    requires ClockOk(entry, s) && k < |s|
    ensures StateAt(c, entry, s, k + 1) == Step(StateAt(c, entry, s, k), s[k], c.threshold)
    ensures EdgeLeds(c.led, s[..k + 1], c.threshold)
         == EdgeLeds(c.led, s[..k], c.threshold)
            + EdgeLed(c.led, EdgeOf(StateAt(c, entry, s, k).pulseStarted, s[k].raw, c.threshold))
  {
    var p := s[..k + 1];
    assert p[..k] == s[..k];
    FoldCharacterised(entry, s[..k], c.threshold);
  }

  // The loop's properties, one inductive lemma each over the same recursion
  // (one lemma per property keeps each proof within the solver's budget);
  // RunFromStops combines them.

  /** The loop from k samples on: how many samples it takes, its state, its last timer reading and its LED writes. */
  lemma {:induction false} RunFromTrace(c: Config, entry: int, s: seq<Sample>, k: nat, leds: seq<int>)
    requires ValidConfig(c) && ClockOk(entry, s) && k <= |s|
    requires Consistent(c, entry, s, k, StateAt(c, entry, s, k), ExitTime(entry, s, k))
    requires leds == EdgeLeds(c.led, s[..k], c.threshold)
    ensures var f := RunFrom(c, entry, s, k, StateAt(c, entry, s, k), ExitTime(entry, s, k), leds);
      && f.state == StateAt(c, entry, s, f.consumed)
      && f.exitTime == ExitTime(entry, s, f.consumed)
      && f.leds == EdgeLeds(c.led, s[..f.consumed], c.threshold) + (if f.outcome.TimedOut? then SetLed(c.led, 0) else [])
    decreases |s| - k
  {
    var d := StateAt(c, entry, s, k);
    if d.beats < c.requiredBeats && k < |s| {
      EdgeAtFold(c, entry, s, k);
      var leds' := leds + EdgeLed(c.led, EdgeOf(d.pulseStarted, s[k].raw, c.threshold));
      assert ExitTime(entry, s, k + 1) == s[k].now;
      if !TimedOutAt(c, entry, s, k + 1) {
        RunFromTrace(c, entry, s, k + 1, leds');
      }
    }
  }

  /** The loop from k samples on passes no exit point before the one it stops at. */
  lemma {:induction false} RunFromNoEarlierExit(c: Config, entry: int, s: seq<Sample>, k: nat, leds: seq<int>)
    requires ValidConfig(c) && ClockOk(entry, s) && k <= |s|
    requires Consistent(c, entry, s, k, StateAt(c, entry, s, k), ExitTime(entry, s, k))
    requires forall j :: 0 <= j < k ==> !DoneAt(c, entry, s, j)
    requires forall j :: 1 <= j <= k ==> !TimedOutAt(c, entry, s, j)
    ensures var f := RunFrom(c, entry, s, k, StateAt(c, entry, s, k), ExitTime(entry, s, k), leds);
      && (forall j :: 0 <= j < f.consumed ==> !DoneAt(c, entry, s, j))
      && (forall j :: 1 <= j < f.consumed ==> !TimedOutAt(c, entry, s, j))
    decreases |s| - k
  {
    var d := StateAt(c, entry, s, k);
    if d.beats < c.requiredBeats && k < |s| {
      EdgeAtFold(c, entry, s, k);
      var leds' := leds + EdgeLed(c.led, EdgeOf(d.pulseStarted, s[k].raw, c.threshold));
      assert ExitTime(entry, s, k + 1) == s[k].now;
      if !TimedOutAt(c, entry, s, k + 1) {
        assert !DoneAt(c, entry, s, k);
        RunFromNoEarlierExit(c, entry, s, k + 1, leds');
      }
    }
  }

  /** A loop from k samples on that measures stops where enough beats are counted, before any timeout. */
  lemma {:induction false} RunFromMeasured(c: Config, entry: int, s: seq<Sample>, k: nat, leds: seq<int>)
    requires ValidConfig(c) && ClockOk(entry, s) && k <= |s|
    requires Consistent(c, entry, s, k, StateAt(c, entry, s, k), ExitTime(entry, s, k))
    requires k == 0 || !TimedOutAt(c, entry, s, k)
    ensures var f := RunFrom(c, entry, s, k, StateAt(c, entry, s, k), ExitTime(entry, s, k), leds);
      f.outcome.Measured? ==>
        && DoneAt(c, entry, s, f.consumed)
        && (f.consumed == 0 || !TimedOutAt(c, entry, s, f.consumed))
        && f.exitTime - f.state.startTime > 0
        && f.outcome.bpm == Bpm(c.requiredBeats, f.exitTime - f.state.startTime)
    decreases |s| - k
  {
    var d := StateAt(c, entry, s, k);
    if d.beats < c.requiredBeats && k < |s| {
      EdgeAtFold(c, entry, s, k);
      var leds' := leds + EdgeLed(c.led, EdgeOf(d.pulseStarted, s[k].raw, c.threshold));
      assert ExitTime(entry, s, k + 1) == s[k].now;
      if !TimedOutAt(c, entry, s, k + 1) {
        RunFromMeasured(c, entry, s, k + 1, leds');
      }
    }
  }

  /** A loop from k samples on that times out stops at a sample whose timeout check fires. */
  lemma {:induction false} RunFromTimedOut(c: Config, entry: int, s: seq<Sample>, k: nat, leds: seq<int>)
    requires ValidConfig(c) && ClockOk(entry, s) && k <= |s|
    requires Consistent(c, entry, s, k, StateAt(c, entry, s, k), ExitTime(entry, s, k))
    requires k == 0 || !TimedOutAt(c, entry, s, k)
    ensures var f := RunFrom(c, entry, s, k, StateAt(c, entry, s, k), ExitTime(entry, s, k), leds);
      f.outcome.TimedOut? ==> 1 <= f.consumed && TimedOutAt(c, entry, s, f.consumed)
    decreases |s| - k
  {
    var d := StateAt(c, entry, s, k);
    if d.beats < c.requiredBeats && k < |s| {
      EdgeAtFold(c, entry, s, k);
      var leds' := leds + EdgeLed(c.led, EdgeOf(d.pulseStarted, s[k].raw, c.threshold));
      assert ExitTime(entry, s, k + 1) == s[k].now;
      if !TimedOutAt(c, entry, s, k + 1) {
        RunFromTimedOut(c, entry, s, k + 1, leds');
      }
    }
  }

  /** A loop from k samples on that runs out of samples has taken them all without reaching an exit. */
  lemma {:induction false} RunFromExhausted(c: Config, entry: int, s: seq<Sample>, k: nat, leds: seq<int>)
    requires ValidConfig(c) && ClockOk(entry, s) && k <= |s|
    requires Consistent(c, entry, s, k, StateAt(c, entry, s, k), ExitTime(entry, s, k))
    requires k == 0 || !TimedOutAt(c, entry, s, k)
    ensures var f := RunFrom(c, entry, s, k, StateAt(c, entry, s, k), ExitTime(entry, s, k), leds);
      f.outcome.SamplesExhausted? ==>
        && f.consumed == |s| && !DoneAt(c, entry, s, |s|)
        && (|s| == 0 || !TimedOutAt(c, entry, s, |s|))
    decreases |s| - k
  {
    var d := StateAt(c, entry, s, k);
    if d.beats < c.requiredBeats && k < |s| {
      EdgeAtFold(c, entry, s, k);
      var leds' := leds + EdgeLed(c.led, EdgeOf(d.pulseStarted, s[k].raw, c.threshold));
      assert ExitTime(entry, s, k + 1) == s[k].now;
      if !TimedOutAt(c, entry, s, k + 1) {
        RunFromExhausted(c, entry, s, k + 1, leds');
      }
    }
  }

  /** The recursion of RunStopsAtFirstExit: the loop from k samples on stops at the first exit point. */
  lemma RunFromStops(c: Config, entry: int, s: seq<Sample>, k: nat, leds: seq<int>)
    requires ValidConfig(c) && ClockOk(entry, s) && k <= |s|
    requires Consistent(c, entry, s, k, StateAt(c, entry, s, k), ExitTime(entry, s, k))
    requires leds == EdgeLeds(c.led, s[..k], c.threshold)
    requires forall j :: 0 <= j < k ==> !DoneAt(c, entry, s, j)
    requires forall j :: 1 <= j <= k ==> !TimedOutAt(c, entry, s, j)
    ensures var f := RunFrom(c, entry, s, k, StateAt(c, entry, s, k), ExitTime(entry, s, k), leds);
      && k <= f.consumed <= |s|
      && f.state == StateAt(c, entry, s, f.consumed)
      && f.exitTime == ExitTime(entry, s, f.consumed)
      && f.leds == EdgeLeds(c.led, s[..f.consumed], c.threshold) + (if f.outcome.TimedOut? then SetLed(c.led, 0) else [])
      && (forall j :: 0 <= j < f.consumed ==> !DoneAt(c, entry, s, j))
      && (forall j :: 1 <= j < f.consumed ==> !TimedOutAt(c, entry, s, j))
      && (f.outcome.Measured? ==>
            DoneAt(c, entry, s, f.consumed)
            && (f.consumed == 0 || !TimedOutAt(c, entry, s, f.consumed))
            && f.exitTime - f.state.startTime > 0
            && f.outcome.bpm == Bpm(c.requiredBeats, f.exitTime - f.state.startTime))
      && (f.outcome.TimedOut? ==> 1 <= f.consumed && TimedOutAt(c, entry, s, f.consumed))
      && (f.outcome.SamplesExhausted? ==>
            f.consumed == |s| && !DoneAt(c, entry, s, |s|)
            && (|s| == 0 || !TimedOutAt(c, entry, s, |s|)))
  {
    RunFromTrace(c, entry, s, k, leds);
    RunFromNoEarlierExit(c, entry, s, k, leds);
    RunFromMeasured(c, entry, s, k, leds);
    RunFromTimedOut(c, entry, s, k, leds);
    RunFromExhausted(c, entry, s, k, leds);
  }

  /**
    A call stops at the first exit point of its loop: it takes samples while
    fewer than `required_beats` beats are counted and the timeout has not
    fired, measures as soon as the count is reached, returns the sentinel in
    the iteration whose timeout check fires, and otherwise uses up the
    samples. The LED receives the edge writes of the samples taken, and one
    more 0 on timeout.
   */
  lemma RunStopsAtFirstExit(c: Config, entry: int, s: seq<Sample>)
    requires ValidConfig(c) && ClockOk(entry, s)
    ensures var f := Run(c, entry, s);
      && f.consumed <= |s|
      && f.state == StateAt(c, entry, s, f.consumed)
      && f.exitTime == ExitTime(entry, s, f.consumed)
      && f.leds == EdgeLeds(c.led, s[..f.consumed], c.threshold) + (if f.outcome.TimedOut? then SetLed(c.led, 0) else [])
      && (forall j :: 0 <= j < f.consumed ==> !DoneAt(c, entry, s, j))
      && (forall j :: 1 <= j < f.consumed ==> !TimedOutAt(c, entry, s, j))
      && (f.outcome.Measured? ==>
            DoneAt(c, entry, s, f.consumed)
            && (f.consumed == 0 || !TimedOutAt(c, entry, s, f.consumed))
            && f.exitTime - f.state.startTime > 0
            && f.outcome.bpm == Bpm(c.requiredBeats, f.exitTime - f.state.startTime))
      && (f.outcome.TimedOut? ==> 1 <= f.consumed && TimedOutAt(c, entry, s, f.consumed))
      && (f.outcome.SamplesExhausted? ==>
            f.consumed == |s| && !DoneAt(c, entry, s, |s|)
            && (|s| == 0 || !TimedOutAt(c, entry, s, |s|)))
  {
    assert s[..0] == [];
    RunFromStops(c, entry, s, 0, []);
  }

  /** The beat count grows by at most one per sample, so the loop never counts past `required_beats`. */
  lemma RunBeatsBounded(c: Config, entry: int, s: seq<Sample>)
    requires ValidConfig(c) && ClockOk(entry, s)
    ensures var f := Run(c, entry, s);
      && f.state.beats <= c.requiredBeats
      && (f.outcome.Measured? <==> f.state.beats == c.requiredBeats && !f.outcome.TimedOut?)
  {
    RunStopsAtFirstExit(c, entry, s);
    var f := Run(c, entry, s);
    if f.consumed > 0 {
      EdgeAtFold(c, entry, s, f.consumed - 1);
      assert !DoneAt(c, entry, s, f.consumed - 1);
    }
  }

  /**
    A measurement is taken at the first sample that completes the
    `required_beats`-th pulse; its value is `required_beats * 60000000`
    divided by the time from the first sample above the threshold to that
    sample, truncated into a `u_int8_t`.
   */
  lemma RunMeasured(c: Config, entry: int, s: seq<Sample>)
    requires ValidConfig(c) && ClockOk(entry, s)
    ensures var f := Run(c, entry, s);
      f.outcome.Measured? ==>
        && Falls(s[..f.consumed], c.threshold) == c.requiredBeats
        && (forall j :: 0 <= j < f.consumed ==> Falls(s[..j], c.threshold) < c.requiredBeats)
        && f.exitTime - FirstAboveTime(s[..f.consumed], c.threshold) > 0
        && f.outcome.bpm == Bpm(c.requiredBeats, f.exitTime - FirstAboveTime(s[..f.consumed], c.threshold))
  {
    RunStopsAtFirstExit(c, entry, s);
    RunBeatsBounded(c, entry, s);
    var f := Run(c, entry, s);
    FoldCharacterised(entry, s[..f.consumed], c.threshold);
    forall j | 0 <= j < f.consumed
      ensures Falls(s[..j], c.threshold) < c.requiredBeats
    {
      FoldCharacterised(entry, s[..j], c.threshold);
      assert !DoneAt(c, entry, s, j);
    }
  }

  /**
    On timeout, the timer has run for more than the timeout since the last
    pulse start (or since entry when there was none), and when an LED is
    connected the last level written to it is 0.
   */
  lemma RunTimedOut(c: Config, entry: int, s: seq<Sample>)
    requires ValidConfig(c) && ClockOk(entry, s)
    ensures var f := Run(c, entry, s);
      f.outcome.TimedOut? ==>
        && 1 <= f.consumed
        && s[f.consumed - 1].now - LastRiseTime(s[..f.consumed], c.threshold, entry) > TimeoutUs(c.timeoutMs)
        && Falls(s[..f.consumed], c.threshold) <= c.requiredBeats
        && (c.led.Gpio? ==> |f.leds| > 0 && f.leds[|f.leds| - 1] == 0)
  {
    RunStopsAtFirstExit(c, entry, s);
    RunBeatsBounded(c, entry, s);
    var f := Run(c, entry, s);
    FoldCharacterised(entry, s[..f.consumed], c.threshold);
  }

  /**
    A signal that never reaches the threshold times out: the timeout
    reference is the entry reading, so once a sample is more than the timeout
    after entry the call returns the sentinel, writing only a 0 to the LED.
   */
  lemma FlatSignalTimesOut(c: Config, entry: int, s: seq<Sample>, i: nat)
    requires ValidConfig(c) && ClockOk(entry, s) && c.requiredBeats > 0
    requires forall j :: 0 <= j < |s| ==> !Above(s[j], c.threshold)
    requires i < |s| && s[i].now - entry > TimeoutUs(c.timeoutMs)
    ensures Run(c, entry, s).outcome == TimedOut
    ensures Run(c, entry, s).leds == SetLed(c.led, 0)
  {
    RunStopsAtFirstExit(c, entry, s);
    var f := Run(c, entry, s);
    FoldCharacterised(entry, s[..f.consumed], c.threshold);
    FlatHasNoFalls(s[..f.consumed], c.threshold);
    FlatHasNoRise(s[..f.consumed], c.threshold, entry, c.led);
    assert s[..|s|] == s;
    FoldCharacterised(entry, s, c.threshold);
    FlatHasNoRise(s, c.threshold, entry, c.led);
  }
}
