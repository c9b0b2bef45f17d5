/**
  The two revisions of `get_heart_rate` side by side. They share the edge
  logic and the BPM formula and differ only in the timeout: the older
  revision (src/sensors.c) measures it in seconds from the FIRST pulse start
  and checks it only once a pulse has started; the current revision
  (src/heartrate.c) measures it in milliseconds from the LAST pulse start, or
  from entry when there was none.
 */
module Revisions {
  import opened CInt
  import opened Pulse
  import HeartRate
  import Sensors

  /** The older revision's state is the current one's without the timeout reference. */
  function Project(d: HeartRate.Detector): Sensors.Detector
  {
    Sensors.Detector(d.pulseStarted, d.beats, d.startTime)
  }

  /**
    Both revisions take every sample through the same edge logic, so over any
    stream they agree on the pulse phase, the beats counted and the start time.
   */
  lemma {:induction false} FoldsAgree(entry: int, s: seq<Sample>, threshold: int)
    ensures Project(HeartRate.Fold(HeartRate.Init(entry), s, threshold))
         == Sensors.Fold(Sensors.Init(), s, threshold)
  {
    if |s| > 0 {
      FoldsAgree(entry, s[..|s| - 1], threshold);
    }
  }

  /**
    In the current revision, once a pulse has started, the start time is no
    later than the timeout reference, and neither is later than the last
    timer reading.
   */
  lemma {:induction false} StartPrecedesTimeoutRef(entry: int, s: seq<Sample>, threshold: int)
    requires ClockOk(entry, s)
    ensures var d := HeartRate.Fold(HeartRate.Init(entry), s, threshold);
      && (d.startTime != 0 ==> d.startTime <= d.timeoutTime)
      && d.startTime <= ExitTime(entry, s, |s|)
      && d.timeoutTime <= ExitTime(entry, s, |s|)
  {
    if |s| > 0 {
      var p := s[..|s| - 1];
      assert ClockOk(entry, p);
      StartPrecedesTimeoutRef(entry, p, threshold);
      if |p| > 0 {
        assert ExitTime(entry, s, |s|) == s[|s| - 1].now > p[|p| - 1].now == ExitTime(entry, p, |p|);
      }
    }
  }

  /**
    The two timeout policies after the same samples, for the same timeout in
    microseconds: before any pulse has started the older revision cannot time
    out; after one has, whenever the current revision times out, so does the
    older one (its reference, the first pulse start, is never later than the
    current revision's, the last pulse start).
   */
  lemma TimeoutPolicyOrder(cNew: HeartRate.Config, cOld: Sensors.Config, entry: int, s: seq<Sample>)
    requires HeartRate.ValidConfig(cNew) && Sensors.ValidConfig(cOld) && ClockOk(entry, s) && |s| > 0
    requires cNew.threshold == cOld.threshold
    requires HeartRate.TimeoutUs(cNew.timeoutMs) == Sensors.TimeoutUs(cOld.timeoutS)
    ensures var dNew := HeartRate.Fold(HeartRate.Init(entry), s, cNew.threshold);
            var dOld := Sensors.Fold(Sensors.Init(), s, cOld.threshold);
            var now := s[|s| - 1].now;
      && (dOld.startTime == 0 ==> !Sensors.TimeoutFires(dOld, now, cOld.timeoutS))
      && ((dOld.startTime != 0 && now - dNew.timeoutTime > HeartRate.TimeoutUs(cNew.timeoutMs))
            ==> Sensors.TimeoutFires(dOld, now, cOld.timeoutS))
  {
    FoldsAgree(entry, s, cNew.threshold);
    StartPrecedesTimeoutRef(entry, s, cNew.threshold);
  }

  /**
    When both revisions measure the same stream with the same threshold,
    beat count and LED, they stop at the same sample, return the same BPM and
    write the same levels to the LED: the timeout policies only decide
    whether a call measures, never what it measures.
   */
  lemma MeasurementsAgree(cNew: HeartRate.Config, cOld: Sensors.Config, entry: int, s: seq<Sample>)
    requires HeartRate.ValidConfig(cNew) && Sensors.ValidConfig(cOld) && ClockOk(entry, s)
    requires cNew.threshold == cOld.threshold && cNew.requiredBeats == cOld.requiredBeats && cNew.led == cOld.led
    requires HeartRate.Run(cNew, entry, s).outcome.Measured? && Sensors.Run(cOld, entry, s).outcome.Measured?
    ensures HeartRate.Run(cNew, entry, s).consumed == Sensors.Run(cOld, entry, s).consumed
    ensures HeartRate.Run(cNew, entry, s).outcome == Sensors.Run(cOld, entry, s).outcome
    ensures HeartRate.Run(cNew, entry, s).leds == Sensors.Run(cOld, entry, s).leds
  {
    HeartRate.RunStopsAtFirstExit(cNew, entry, s);
    HeartRate.RunMeasured(cNew, entry, s);
    Sensors.RunFollowsFold(cOld, entry, s);
  }
}
