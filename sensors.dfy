/**
  The sensor helpers of src/sensors.c: the AM2320 and photoresistor record
  readers, and the older revision of the heart-rate detector, whose timeout
  is measured from the first rising edge and is only checked once such an
  edge has been seen.
 */
module Sensors {
  import opened CInt
  import opened Pulse

  // ---------------------------------------------------------------------
  // get_am2320_data

  /** `am2320_data_t`. Its float fields are carried as reals; nothing is computed on them. */
  class Am2320Data {
    var temperature: real
    var humidity: real

    /** `calloc(1, sizeof(am2320_data_t))`: a zeroed record. */
    constructor ()
      ensures temperature == 0.0 && humidity == 0.0
    {
      temperature := 0.0;
      humidity := 0.0;
    }
  }

  /**
    What the AM2320 driver's `am2320_get_rht` does: it stores a reading, or
    returns an error code. The driver is outside this model; on an error it
    is taken to leave the two fields as they were.
   */
  datatype RhtRead = RhtOk(temperature: real, humidity: real) | RhtError(code: int)

  /**
    `get_am2320_data`: allocates a record (NULL when the allocation fails),
    zeroes both fields, and stores the driver's reading. A read error is only
    logged: the record is returned all the same, still holding zeros.
   */
  method GetAm2320Data(allocOk: bool, read: RhtRead) returns (data: Am2320Data?)
    ensures data == null <==> !allocOk
    ensures data != null ==> fresh(data)
    ensures data != null && read.RhtOk? ==> data.temperature == read.temperature && data.humidity == read.humidity
    ensures data != null && read.RhtError? ==> data.temperature == 0.0 && data.humidity == 0.0
  {
    if !allocOk {
      return null;
    }
    data := new Am2320Data();
    data.temperature := 0.0;
    data.humidity := 0.0;
    if read.RhtOk? {
      data.temperature, data.humidity := read.temperature, read.humidity;
    }
  }

  // ---------------------------------------------------------------------
  // get_photo_data

  /** `photo_data_t`: the raw count, the calibrated millivolts, and two float results. */
  class PhotoData {
    var raw: int
    var voltage: int
    var resistence: real
    var lux: real

    /** `calloc(1, sizeof(photo_data_t))`: a zeroed record. */
    constructor ()
      ensures raw == 0 && voltage == 0 && resistence == 0.0 && lux == 0.0
    {
      raw, voltage, resistence, lux := 0, 0, 0.0, 0.0;
    }
  }

  /**
    What the calibrated branch computes from a reading: the millivolts from
    `adc_cali_raw_to_voltage`, and the resistance and illuminance that the
    float voltage-divider formula yields from them. Both computations are
    outside this model and enter it as values.
   */
  datatype Calibrated = Calibrated(voltageMv: int, resistence: real, lux: real)

  /**
    `get_photo_data`: allocates a record (NULL when the allocation fails),
    zeroes it and stores the raw ADC count. Only when calibration is available
    are the voltage, resistance and illuminance written; otherwise they stay 0.
   */
  method GetPhotoData(allocOk: bool, raw: int, doCalibration: bool, cal: Calibrated) returns (data: PhotoData?)
    ensures data == null <==> !allocOk
    ensures data != null ==> fresh(data) && data.raw == raw
    ensures data != null && doCalibration ==>
      data.voltage == cal.voltageMv && data.resistence == cal.resistence && data.lux == cal.lux
    ensures data != null && !doCalibration ==>
      data.voltage == 0 && data.resistence == 0.0 && data.lux == 0.0
  {
    if !allocOk {
      return null;
    }
    data := new PhotoData();
    data.raw := 0;
    data.voltage := 0;
    data.resistence := 0.0;
    data.lux := 0.0;
    data.raw := raw;
    if doCalibration {
      data.voltage := cal.voltageMv;
      data.resistence := cal.resistence;
      data.lux := cal.lux;
    }
  }

  // ---------------------------------------------------------------------
  // get_heart_rate, older revision

  /** The parameters of one call; the timeout is in whole seconds (`u_int8_t timeout_s`). */
  datatype Config = Config(threshold: int, requiredBeats: int, timeoutS: int, led: Pin)

  /**
    The parameters fit their C types, and `required_beats * 60000000`,
    computed in a 32-bit `int`, does not overflow.
   */
  predicate ValidConfig(c: Config)
  {
    && IsU16(c.threshold)
    && IsU8(c.requiredBeats)
    && IsU8(c.timeoutS)
    && c.requiredBeats * 60000000 <= INT_MAX
  }

  /** The timeout in microseconds: `timeout_s * 1000000` never overflows an `int`. */
  function TimeoutUs(timeoutS: int): (t: int)
    requires IsU8(timeoutS)
    ensures IsInt32(t) && 0 <= t <= 255000000
    ensures t % 1000000 == 0 && t / 1000000 == timeoutS
  {
    timeoutS * 1000000
  }

  /** The loop's local variables `pulse_started`, `beats_detected`, `start_time`. */
  datatype Detector = Detector(pulseStarted: bool, beats: int, startTime: int)

  /** The state on entry: no pulse, no beats, `start_time` unset (0). */
  function Init(): (d: Detector)
    ensures !d.pulseStarted && d.beats == 0 && d.startTime == 0
  {
    Detector(false, 0, 0)
  }

  /**
    One sample through the edge logic: the same edges as the current
    revision, but a rising edge only stamps `start_time` (if unset); there is
    no timeout reference to reset.
   */
  function Step(d: Detector, x: Sample, threshold: int): (d': Detector)
    ensures d'.pulseStarted == Above(x, threshold)
    ensures d'.beats == if d.pulseStarted && !Above(x, threshold) then d.beats + 1 else d.beats
    ensures d.startTime != 0 ==> d'.startTime == d.startTime
    ensures d'.startTime != d.startTime ==> d.startTime == 0 && d'.startTime == x.now && EdgeOf(d.pulseStarted, x.raw, threshold) == Rising
    ensures EdgeOf(d.pulseStarted, x.raw, threshold) == Rising && d.startTime == 0 ==> d'.startTime == x.now
  {
    match EdgeOf(d.pulseStarted, x.raw, threshold)
    case Rising =>
      d.(pulseStarted := true, startTime := if d.startTime == 0 then x.now else d.startTime)
    case Falling =>
      d.(pulseStarted := false, beats := d.beats + 1)
    case NoEdge =>
      d
  }

  /** The state after the samples of s, in order. */
  function Fold(d: Detector, s: seq<Sample>, threshold: int): Detector
  {
    if |s| == 0 then d else Step(Fold(d, s[..|s| - 1], threshold), s[|s| - 1], threshold)
  }

  /** The timeout check: only once a pulse has started, against the time of the first one. */
  predicate TimeoutFires(d: Detector, now: int, timeoutS: int)
    requires IsU8(timeoutS)
    // before any pulse has started the check never fires, however late it is
    ensures d.startTime == 0 ==> !TimeoutFires(d, now, timeoutS)
  {
    d.startTime != 0 && now - d.startTime > TimeoutUs(timeoutS)
  }

  /** What holds of the loop's state when it is about to check its guard with k samples taken. */
  predicate Consistent(c: Config, entry: int, s: seq<Sample>, k: nat, d: Detector, lastNow: int)
  {
    && ClockOk(entry, s)
    && k <= |s|
    && 0 < lastNow
    && (k < |s| ==> lastNow < s[k].now)
    && 0 <= d.beats
    && 0 <= d.startTime <= lastNow
    && (d.beats >= c.requiredBeats ==> d.startTime == 0 || d.startTime < lastNow)
  }

  /** The end of a call of this revision. */
  type Finish = Pulse.Finish<Detector>

  /** The loop from its guard with k samples taken, as a function. */
  function RunFrom(c: Config, entry: int, s: seq<Sample>, k: nat, d: Detector, lastNow: int, leds: seq<int>): (f: Finish)
    requires ValidConfig(c) && Consistent(c, entry, s, k, d, lastNow)
    ensures k <= f.consumed <= |s|
    decreases |s| - k
  {
    if d.beats >= c.requiredBeats then
      Finish(Measured(Bpm(c.requiredBeats, lastNow - d.startTime)), d, k, lastNow, leds)
    else if k == |s| then
      Finish(SamplesExhausted, d, k, lastNow, leds)
    else
      var x := s[k];
      var d' := Step(d, x, c.threshold);
      var leds' := leds + EdgeLed(c.led, EdgeOf(d.pulseStarted, x.raw, c.threshold));
      if TimeoutFires(d', x.now, c.timeoutS) then
        Finish(TimedOut, d', k + 1, x.now, leds' + SetLed(c.led, 0))
      else
        RunFrom(c, entry, s, k + 1, d', x.now, leds')
  }

  /**
    A call polling the samples s. This revision takes no timer reading on
    entry: `entry` stands for the reading that ends a call which takes no
    sample at all (`required_beats` of 0).
   */
  function Run(c: Config, entry: int, s: seq<Sample>): (f: Finish)
    requires ValidConfig(c) && ClockOk(entry, s)
    ensures f.consumed <= |s|
  {
    RunFrom(c, entry, s, 0, Init(), entry, [])
  }

  /**
    `get_heart_rate` (older revision): the polling loop. Returns the outcome
    (the C function returns the BPM of a measurement and 0 on timeout) and
    the levels written to the LED.
   */
  method GetHeartRate(c: Config, entry: int, s: seq<Sample>) returns (outcome: Outcome, leds: seq<int>)
    requires ValidConfig(c) && ClockOk(entry, s)
    ensures outcome == Run(c, entry, s).outcome
    ensures leds == Run(c, entry, s).leds
  {
    var startTime := 0;
    var pulseStarted := false;
    var beatsDetected := 0;
    var now := entry;
    var k := 0;
    leds := [];
    while beatsDetected < c.requiredBeats
      invariant Consistent(c, entry, s, k, Detector(pulseStarted, beatsDetected, startTime), now)
      invariant RunFrom(c, entry, s, k, Detector(pulseStarted, beatsDetected, startTime), now, leds)
             == Run(c, entry, s)
      decreases |s| - k
    {
      if k == |s| {
        return SamplesExhausted, leds;
      }
      ghost var d := Detector(pulseStarted, beatsDetected, startTime);
      ghost var leds0 := leds;
      var raw := s[k].raw;
      now := s[k].now;
      k := k + 1;
      if !pulseStarted && raw >= c.threshold {
        if c.led != NotConnected {
          leds := leds + [1];
        }
        if startTime == 0 {
          startTime := now;
        }
        pulseStarted := true;
      } else if pulseStarted && raw < c.threshold {
        if c.led != NotConnected {
          leds := leds + [0];
        }
        pulseStarted := false;
        beatsDetected := beatsDetected + 1;
      }
      assert Detector(pulseStarted, beatsDetected, startTime) == Step(d, s[k - 1], c.threshold);
      assert leds == leds0 + EdgeLed(c.led, EdgeOf(d.pulseStarted, raw, c.threshold));
      if startTime != 0 && now - startTime > c.timeoutS * 1000000 {
        if c.led != NotConnected {
          leds := leds + [0];
        }
        return TimedOut, leds;
      }
    }
    var duration := now - startTime;
    outcome := Measured(ToU8(Div(c.requiredBeats * 60000000, duration)));
  }

  // ---------------------------------------------------------------------
  // The older state machine against the reference description of the stream

  /**
    After any prefix of a stream: the pulse is active iff the last sample was
    above the threshold, the beat count is the number of completed pulses,
    and the start time is that of the first sample above the threshold.
   */
  lemma {:induction false} FoldCharacterised(s: seq<Sample>, threshold: int)
    requires forall i :: 0 <= i < |s| ==> s[i].now > 0
    ensures Fold(Init(), s, threshold)
         == Detector(|s| > 0 && Above(s[|s| - 1], threshold), Falls(s, threshold), FirstAboveTime(s, threshold))
  {
    if |s| > 0 {
      var p, x := s[..|s| - 1], s[|s| - 1];
      assert s == p + [x];
      FoldCharacterised(p, threshold);
      FallsSnoc(p, x, threshold);
      FirstAboveSnoc(p, x, threshold);
      FirstAboveUnset(p, threshold);
      if FirstAboveTime(p, threshold) == 0 && |p| > 0 {
        assert !Above(p[|p| - 1], threshold);
      }
    }
  }

  /** The state after the first j samples. */
  function StateAt(c: Config, s: seq<Sample>, j: nat): Detector
    requires j <= |s|
  {
    Fold(Init(), s[..j], c.threshold)
  }

  /**
    The timeout check fires in the iteration that takes sample j - 1; it
    cannot fire while `start_time` is unset.
   */
  predicate TimedOutAt(c: Config, s: seq<Sample>, j: nat)
    requires 1 <= j <= |s| && IsU8(c.timeoutS)
    ensures TimedOutAt(c, s, j) ==> StateAt(c, s, j).startTime != 0
  {
    TimeoutFires(StateAt(c, s, j), s[j - 1].now, c.timeoutS)
  }

  /**
    The check fires after j samples exactly when one of them was above the
    threshold and the j-th comes more than `timeout_s` seconds after the
    first such sample.
   */
  lemma TimedOutAtCharacterised(c: Config, entry: int, s: seq<Sample>, j: nat)
    requires ClockOk(entry, s) && 1 <= j <= |s| && IsU8(c.timeoutS)
    ensures TimedOutAt(c, s, j)
        <==> FirstAboveTime(s[..j], c.threshold) != 0
             && s[j - 1].now - FirstAboveTime(s[..j], c.threshold) > TimeoutUs(c.timeoutS)
  {
    FoldCharacterised(s[..j], c.threshold);
  }

  lemma StepAtFold(c: Config, entry: int, s: seq<Sample>, k: nat)
    requires ClockOk(entry, s) && k < |s|
    ensures StateAt(c, s, k + 1) == Step(StateAt(c, s, k), s[k], c.threshold)
    ensures EdgeLeds(c.led, s[..k + 1], c.threshold)
         == EdgeLeds(c.led, s[..k], c.threshold)
            + EdgeLed(c.led, EdgeOf(StateAt(c, s, k).pulseStarted, s[k].raw, c.threshold))
  {
    var p := s[..k + 1];
    assert p[..k] == s[..k];
    FoldCharacterised(s[..k], c.threshold);
  }

  // The loop's properties, one inductive lemma each over the same recursion
  // (one lemma per property keeps each proof within the solver's budget);
  // RunFromFollowsFold combines them.

  /** The loop from k samples on: its state, its last timer reading, its beat count and its LED writes. */
  lemma {:induction false} RunFromTrace(c: Config, entry: int, s: seq<Sample>, k: nat, leds: seq<int>)
    requires ValidConfig(c) && ClockOk(entry, s) && k <= |s|
    requires Consistent(c, entry, s, k, StateAt(c, s, k), ExitTime(entry, s, k))
    requires StateAt(c, s, k).beats <= c.requiredBeats
    requires leds == EdgeLeds(c.led, s[..k], c.threshold)
    ensures var f := RunFrom(c, entry, s, k, StateAt(c, s, k), ExitTime(entry, s, k), leds);
      && f.state == StateAt(c, s, f.consumed)
      && f.exitTime == ExitTime(entry, s, f.consumed)
      && f.state.beats <= c.requiredBeats
      && f.leds == EdgeLeds(c.led, s[..f.consumed], c.threshold) + (if f.outcome.TimedOut? then SetLed(c.led, 0) else [])
    decreases |s| - k
  {
    var d := StateAt(c, s, k);
    if d.beats < c.requiredBeats && k < |s| {
      StepAtFold(c, entry, s, k);
      var leds' := leds + EdgeLed(c.led, EdgeOf(d.pulseStarted, s[k].raw, c.threshold));
      assert ExitTime(entry, s, k + 1) == s[k].now;
      if !TimeoutFires(StateAt(c, s, k + 1), s[k].now, c.timeoutS) {
        RunFromTrace(c, entry, s, k + 1, leds');
      }
    }
  }

  /** The loop from k samples on stops at the first sample after which enough beats are counted, or earlier. */
  lemma {:induction false} RunFromNotDone(c: Config, entry: int, s: seq<Sample>, k: nat, leds: seq<int>)
    requires ValidConfig(c) && ClockOk(entry, s) && k <= |s|
    requires Consistent(c, entry, s, k, StateAt(c, s, k), ExitTime(entry, s, k))
    requires StateAt(c, s, k).beats <= c.requiredBeats
    requires leds == EdgeLeds(c.led, s[..k], c.threshold)
    ensures var f := RunFrom(c, entry, s, k, StateAt(c, s, k), ExitTime(entry, s, k), leds);
      forall j :: k <= j < f.consumed ==> StateAt(c, s, j).beats < c.requiredBeats
    decreases |s| - k
  {
    var d := StateAt(c, s, k);
    if d.beats < c.requiredBeats && k < |s| {
      StepAtFold(c, entry, s, k);
      var leds' := leds + EdgeLed(c.led, EdgeOf(d.pulseStarted, s[k].raw, c.threshold));
      assert ExitTime(entry, s, k + 1) == s[k].now;
      if !TimeoutFires(StateAt(c, s, k + 1), s[k].now, c.timeoutS) {
        RunFromNotDone(c, entry, s, k + 1, leds');
      }
    }
  }

  /** How the loop from k samples on ends. */
  lemma {:induction false} RunFromOutcome(c: Config, entry: int, s: seq<Sample>, k: nat, leds: seq<int>)
    requires ValidConfig(c) && ClockOk(entry, s) && k <= |s|
    requires Consistent(c, entry, s, k, StateAt(c, s, k), ExitTime(entry, s, k))
    requires StateAt(c, s, k).beats <= c.requiredBeats
    requires leds == EdgeLeds(c.led, s[..k], c.threshold)
    ensures var f := RunFrom(c, entry, s, k, StateAt(c, s, k), ExitTime(entry, s, k), leds);
      && (f.outcome.Measured? ==>
            f.state.beats == c.requiredBeats
            && f.exitTime - f.state.startTime > 0
            && f.outcome.bpm == Bpm(c.requiredBeats, f.exitTime - f.state.startTime))
      && (f.outcome.TimedOut? ==> 1 <= f.consumed && TimeoutFires(f.state, f.exitTime, c.timeoutS))
      && (f.outcome.SamplesExhausted? ==> f.consumed == |s| && f.state.beats < c.requiredBeats)
    decreases |s| - k
  {
    var d := StateAt(c, s, k);
    if d.beats < c.requiredBeats && k < |s| {
      StepAtFold(c, entry, s, k);
      var leds' := leds + EdgeLed(c.led, EdgeOf(d.pulseStarted, s[k].raw, c.threshold));
      assert ExitTime(entry, s, k + 1) == s[k].now;
      if !TimeoutFires(StateAt(c, s, k + 1), s[k].now, c.timeoutS) {
        RunFromOutcome(c, entry, s, k + 1, leds');
      }
    }
  }

  /** The loop from k samples on passes every timeout check before the one it stops at. */
  lemma {:induction false} RunFromChecksPassed(c: Config, entry: int, s: seq<Sample>, k: nat, leds: seq<int>)
    requires ValidConfig(c) && ClockOk(entry, s) && k <= |s|
    requires Consistent(c, entry, s, k, StateAt(c, s, k), ExitTime(entry, s, k))
    requires forall j :: 1 <= j <= k ==> !TimedOutAt(c, s, j)
    ensures var f := RunFrom(c, entry, s, k, StateAt(c, s, k), ExitTime(entry, s, k), leds);
      forall j :: 1 <= j < f.consumed ==> !TimedOutAt(c, s, j)
    decreases |s| - k
  {
    var d := StateAt(c, s, k);
    if d.beats < c.requiredBeats && k < |s| {
      StepAtFold(c, entry, s, k);
      var leds' := leds + EdgeLed(c.led, EdgeOf(d.pulseStarted, s[k].raw, c.threshold));
      assert ExitTime(entry, s, k + 1) == s[k].now;
      if !TimedOutAt(c, s, k + 1) {
        RunFromChecksPassed(c, entry, s, k + 1, leds');
      }
    }
  }

  /** A loop from k samples on that measures or uses up the samples passed its last timeout check. */
  lemma {:induction false} RunFromLastCheck(c: Config, entry: int, s: seq<Sample>, k: nat, leds: seq<int>)
    requires ValidConfig(c) && ClockOk(entry, s) && k <= |s|
    requires Consistent(c, entry, s, k, StateAt(c, s, k), ExitTime(entry, s, k))
    requires k == 0 || !TimedOutAt(c, s, k)
    ensures var f := RunFrom(c, entry, s, k, StateAt(c, s, k), ExitTime(entry, s, k), leds);
      && (f.outcome.Measured? ==> f.consumed == 0 || !TimedOutAt(c, s, f.consumed))
      && (f.outcome.SamplesExhausted? ==> |s| == 0 || !TimedOutAt(c, s, |s|))
    decreases |s| - k
  {
    var d := StateAt(c, s, k);
    if d.beats < c.requiredBeats && k < |s| {
      StepAtFold(c, entry, s, k);
      var leds' := leds + EdgeLed(c.led, EdgeOf(d.pulseStarted, s[k].raw, c.threshold));
      assert ExitTime(entry, s, k + 1) == s[k].now;
      if !TimedOutAt(c, s, k + 1) {
        RunFromLastCheck(c, entry, s, k + 1, leds');
      }
    }
  }

  /** The recursion of RunFollowsFold. */
  lemma RunFromFollowsFold(c: Config, entry: int, s: seq<Sample>, k: nat, leds: seq<int>)
    requires ValidConfig(c) && ClockOk(entry, s) && k <= |s|
    requires Consistent(c, entry, s, k, StateAt(c, s, k), ExitTime(entry, s, k))
    requires StateAt(c, s, k).beats <= c.requiredBeats
    requires leds == EdgeLeds(c.led, s[..k], c.threshold)
    requires forall j :: 1 <= j <= k ==> !TimedOutAt(c, s, j)
    ensures var f := RunFrom(c, entry, s, k, StateAt(c, s, k), ExitTime(entry, s, k), leds);
      && f.state == StateAt(c, s, f.consumed)
      && f.exitTime == ExitTime(entry, s, f.consumed)
      && f.state.beats <= c.requiredBeats
      && (forall j :: k <= j < f.consumed ==> StateAt(c, s, j).beats < c.requiredBeats)
      && (forall j :: 1 <= j < f.consumed ==> !TimedOutAt(c, s, j))
      && f.leds == EdgeLeds(c.led, s[..f.consumed], c.threshold) + (if f.outcome.TimedOut? then SetLed(c.led, 0) else [])
      && (f.outcome.Measured? ==>
            f.state.beats == c.requiredBeats
            && (f.consumed == 0 || !TimedOutAt(c, s, f.consumed))
            && f.exitTime - f.state.startTime > 0
            && f.outcome.bpm == Bpm(c.requiredBeats, f.exitTime - f.state.startTime))
      && (f.outcome.TimedOut? ==> 1 <= f.consumed && TimeoutFires(f.state, f.exitTime, c.timeoutS))
      && (f.outcome.SamplesExhausted? ==>
            f.consumed == |s| && f.state.beats < c.requiredBeats
            && (|s| == 0 || !TimedOutAt(c, s, |s|)))
  {
    RunFromTrace(c, entry, s, k, leds);
    RunFromNotDone(c, entry, s, k, leds);
    RunFromOutcome(c, entry, s, k, leds);
    RunFromChecksPassed(c, entry, s, k, leds);
    RunFromLastCheck(c, entry, s, k, leds);
  }

  /** The state, LED writes and measurement of a call, in terms of the stream's crossings. */
  lemma RunCrossings(c: Config, entry: int, s: seq<Sample>)
    requires ValidConfig(c) && ClockOk(entry, s)
    ensures var f := Run(c, entry, s);
      && f.state == StateAt(c, s, f.consumed)
      && f.exitTime == ExitTime(entry, s, f.consumed)
      && Falls(s[..f.consumed], c.threshold) <= c.requiredBeats
      && (forall j :: 0 <= j < f.consumed ==> Falls(s[..j], c.threshold) < c.requiredBeats)
      && f.leds == EdgeLeds(c.led, s[..f.consumed], c.threshold) + (if f.outcome.TimedOut? then SetLed(c.led, 0) else [])
      && (f.outcome.Measured? ==>
            && Falls(s[..f.consumed], c.threshold) == c.requiredBeats
            && f.exitTime - FirstAboveTime(s[..f.consumed], c.threshold) > 0
            && f.outcome.bpm == Bpm(c.requiredBeats, f.exitTime - FirstAboveTime(s[..f.consumed], c.threshold)))
      && (f.outcome.TimedOut? ==>
            && 1 <= f.consumed
            && FirstAboveTime(s[..f.consumed], c.threshold) != 0
            && s[f.consumed - 1].now - FirstAboveTime(s[..f.consumed], c.threshold) > TimeoutUs(c.timeoutS))
  {
    assert s[..0] == [];
    RunFromFollowsFold(c, entry, s, 0, []);
    var f := Run(c, entry, s);
    FoldCharacterised(s[..f.consumed], c.threshold);
    forall j | 0 <= j < f.consumed
      ensures Falls(s[..j], c.threshold) < c.requiredBeats
    {
      FoldCharacterised(s[..j], c.threshold);
      assert StateAt(c, s, j).beats < c.requiredBeats;
    }
  }

  /** Which timeout checks a call passes, and what a call that uses up the samples has counted. */
  lemma RunChecks(c: Config, entry: int, s: seq<Sample>)
    requires ValidConfig(c) && ClockOk(entry, s)
    ensures var f := Run(c, entry, s);
      && (forall j :: 1 <= j < f.consumed ==> !TimedOutAt(c, s, j))
      && (f.outcome.Measured? ==> f.consumed == 0 || !TimedOutAt(c, s, f.consumed))
      && (f.outcome.TimedOut? ==> 1 <= f.consumed && TimedOutAt(c, s, f.consumed))
      && (f.outcome.SamplesExhausted? ==> f.consumed == |s| && (|s| == 0 || !TimedOutAt(c, s, |s|)))
  {
    assert s[..0] == [];
    RunFromFollowsFold(c, entry, s, 0, []);
  }

  /** A call that uses up the samples has counted fewer than `required_beats` pulses in all of them. */
  lemma RunExhausted(c: Config, entry: int, s: seq<Sample>)
    requires ValidConfig(c) && ClockOk(entry, s)
    ensures Run(c, entry, s).outcome.SamplesExhausted? ==> Falls(s, c.threshold) < c.requiredBeats
  {
    assert s[..0] == [];
    RunFromOutcome(c, entry, s, 0, []);
    if Run(c, entry, s).outcome.SamplesExhausted? {
      RunFromTrace(c, entry, s, 0, []);
      assert s[..|s|] == s;
      FoldCharacterised(s, c.threshold);
    }
  }

  /**
    A call stops at the first exit point of its loop, and its end state is
    the fold of the samples it took. It passes every timeout check before
    the one it stops at and never counts past `required_beats`. A
    measurement is taken with exactly `required_beats` completed pulses and
    its value is `required_beats * 60000000` over the time since the first
    sample above the threshold, truncated into a `u_int8_t`. A timeout fires
    only after a pulse has started, more than `timeout_s` seconds after the
    first one. A call that uses up the samples has counted fewer than
    `required_beats` pulses in all of them.
   */
  lemma RunFollowsFold(c: Config, entry: int, s: seq<Sample>)
    requires ValidConfig(c) && ClockOk(entry, s)
    ensures var f := Run(c, entry, s);
      && f.state == StateAt(c, s, f.consumed)
      && f.exitTime == ExitTime(entry, s, f.consumed)
      && Falls(s[..f.consumed], c.threshold) <= c.requiredBeats
      && (forall j :: 0 <= j < f.consumed ==> Falls(s[..j], c.threshold) < c.requiredBeats)
      && (forall j :: 1 <= j < f.consumed ==> !TimedOutAt(c, s, j))
      && f.leds == EdgeLeds(c.led, s[..f.consumed], c.threshold) + (if f.outcome.TimedOut? then SetLed(c.led, 0) else [])
      && (f.outcome.Measured? ==>
            && Falls(s[..f.consumed], c.threshold) == c.requiredBeats
            && (f.consumed == 0 || !TimedOutAt(c, s, f.consumed))
            && f.exitTime - FirstAboveTime(s[..f.consumed], c.threshold) > 0
            && f.outcome.bpm == Bpm(c.requiredBeats, f.exitTime - FirstAboveTime(s[..f.consumed], c.threshold)))
      && (f.outcome.TimedOut? ==>
            && 1 <= f.consumed
            && TimedOutAt(c, s, f.consumed)
            && FirstAboveTime(s[..f.consumed], c.threshold) != 0
            && s[f.consumed - 1].now - FirstAboveTime(s[..f.consumed], c.threshold) > TimeoutUs(c.timeoutS))
      && (f.outcome.SamplesExhausted? ==>
            && f.consumed == |s|
            && Falls(s, c.threshold) < c.requiredBeats
            && (|s| == 0 || !TimedOutAt(c, s, |s|)))
  {
    RunCrossings(c, entry, s);
    RunChecks(c, entry, s);
    RunExhausted(c, entry, s);
  }

  /**
    The older revision's flaw: a signal that never reaches the threshold
    never times out. No sample starts a pulse, so `start_time` stays 0, the
    timeout check never fires, and the call keeps polling for as long as
    there are samples (on the device: forever).
   */
  lemma FlatSignalNeverTimesOut(c: Config, entry: int, s: seq<Sample>)
    requires ValidConfig(c) && ClockOk(entry, s) && c.requiredBeats > 0
    requires forall j :: 0 <= j < |s| ==> !Above(s[j], c.threshold)
    ensures Run(c, entry, s).outcome == SamplesExhausted
    ensures Run(c, entry, s).leds == []
  {
    RunFollowsFold(c, entry, s);
    var f := Run(c, entry, s);
    FlatHasNoFalls(s[..f.consumed], c.threshold);
    FlatHasNoRise(s[..f.consumed], c.threshold, entry, c.led);
    FirstAboveUnset(s[..f.consumed], c.threshold);
  }
}
