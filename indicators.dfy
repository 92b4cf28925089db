/** The view built by initView in web/main.js: the frame-rate counter kept in
    the closure variables timestampMod and lastTimestamp, and the mapping of a
    cents error to the flat and sharp colours and the offset of the bar. */
module Indicators {

  import opened Wrappers

  /** A JavaScript number as far as the view distinguishes them: NaN, or a
      value. */
  datatype Number = NaN | Num(value: real)

  /** What the frame-rate label shows: 100000 / dt, which is Infinity when
      dt is zero. */
  datatype Rate = Finite(perSecond: real) | Infinity

  /** Number of frames between two frame-rate reports. */
  const FramesPerReport: nat := 100

  function FrameRate(dt: real): (r: Rate)
    ensures r.Infinity? <==> dt == 0.0
    ensures r.Finite? ==> r.perSecond * dt == 100000.0
  {
    if dt == 0.0 then Infinity else Finite(100000.0 / dt)
  }

  /** The closure state of updateFramerate. */
  datatype Timing = Timing(timestampMod: int, lastTimestamp: real)

  /** One call of updateFramerate: the new closure state and, on every
      hundredth call, the rate written to the label. */
  datatype Tick = Tick(timing: Timing, report: Option<Rate>)

  function TickAt(t: Timing, timestamp: real): (r: Tick)
    ensures 0 <= t.timestampMod < FramesPerReport ==> 0 <= r.timing.timestampMod < FramesPerReport
    ensures r.report.Some? <==> t.timestampMod + 1 == FramesPerReport
    ensures r.report.None? ==> r.timing == Timing(t.timestampMod + 1, t.lastTimestamp)
    ensures r.report.Some? ==> r.timing == Timing(0, timestamp)
  {
    var m := t.timestampMod + 1;
    if m == FramesPerReport then Tick(Timing(0, timestamp), Some(FrameRate(timestamp - t.lastTimestamp)))
    else Tick(Timing(m, t.lastTimestamp), None)
  }

  /** The closure state after one call per timestamp, and what each call
      reported. */
  function Run(t: Timing, timestamps: seq<real>): (r: (Timing, seq<Option<Rate>>))
    ensures |r.1| == |timestamps|
    decreases |timestamps|
  {
    if timestamps == [] then (t, [])
    else
      var k := TickAt(t, timestamps[0]);
      var rest := Run(k.timing, timestamps[1..]);
      (rest.0, [k.report] + rest.1)
  }

  /** Starting from a counter in 0..99, call i of a run reports exactly when
      it is a multiple of 100 calls into the count, and the counter afterwards
      is the number of calls modulo 100. */
  lemma {:induction false} RunReportsEveryHundredth(t: Timing, timestamps: seq<real>)
    requires 0 <= t.timestampMod < FramesPerReport
    ensures Run(t, timestamps).0.timestampMod == (t.timestampMod + |timestamps|) % FramesPerReport
    ensures forall i :: 0 <= i < |timestamps| ==>
      (Run(t, timestamps).1[i].Some? <==> (t.timestampMod + i + 1) % FramesPerReport == 0)
    decreases |timestamps|
  {
    if timestamps != [] {
      var k := TickAt(t, timestamps[0]);
      RunReportsEveryHundredth(k.timing, timestamps[1..]);
      var r := Run(t, timestamps);
      var rest := Run(k.timing, timestamps[1..]);
      assert r.1 == [k.report] + rest.1;
      forall i | 0 <= i < |timestamps|
        ensures r.1[i].Some? <==> (t.timestampMod + i + 1) % FramesPerReport == 0
      {
        if i > 0 {
          assert r.1[i] == rest.1[i - 1];
          if t.timestampMod + 1 == FramesPerReport {
            assert k.timing.timestampMod == 0;
            assert (t.timestampMod + i + 1) % FramesPerReport == (k.timing.timestampMod + (i - 1) + 1) % FramesPerReport;
          } else {
            assert k.timing.timestampMod == t.timestampMod + 1;
          }
        }
      }
    }
  }

  /** Calls that do not report leave lastTimestamp alone; after a run that did
      not report, the counter has just advanced. */
  lemma {:induction false} QuietRunKeepsLastTimestamp(t: Timing, timestamps: seq<real>)
    requires 0 <= t.timestampMod && t.timestampMod + |timestamps| < FramesPerReport
    ensures Run(t, timestamps).0 == Timing(t.timestampMod + |timestamps|, t.lastTimestamp)
    ensures forall i :: 0 <= i < |timestamps| ==> Run(t, timestamps).1[i].None?
    decreases |timestamps|
  {
    if timestamps != [] {
      var k := TickAt(t, timestamps[0]);
      QuietRunKeepsLastTimestamp(k.timing, timestamps[1..]);
      var rest := Run(k.timing, timestamps[1..]);
      assert Run(t, timestamps).1 == [k.report] + rest.1;
    }
  }

  /** A hundred calls from a reset counter report once, on the last call, the
      rate over the time since the previous report, and restart the count. */
  lemma HundredCalls(t: Timing, timestamps: seq<real>)
    requires t.timestampMod == 0 && |timestamps| == FramesPerReport
    ensures Run(t, timestamps).0 == Timing(0, timestamps[99])
    ensures Run(t, timestamps).1[99] == Some(FrameRate(timestamps[99] - t.lastTimestamp))
    ensures forall i :: 0 <= i < 99 ==> Run(t, timestamps).1[i].None?
  {
    RunStep(t, timestamps[..99], timestamps[99]);
    assert timestamps == timestamps[..99] + [timestamps[99]];
  }

  /** A run followed by one more call. */
  lemma {:induction false} RunStep(t: Timing, timestamps: seq<real>, last: real)
    requires 0 <= t.timestampMod && t.timestampMod + |timestamps| + 1 == FramesPerReport
    ensures Run(t, timestamps + [last]).0 == Timing(0, last)
    ensures Run(t, timestamps + [last]).1 == Run(t, timestamps).1 + [Some(FrameRate(last - t.lastTimestamp))]
    ensures forall i :: 0 <= i < |timestamps| ==> Run(t, timestamps).1[i].None?
    decreases |timestamps|
  {
    QuietRunKeepsLastTimestamp(t, timestamps);
    if timestamps == [] {
      assert [last][1..] == [];
    } else {
      var k := TickAt(t, timestamps[0]);
      assert (timestamps + [last])[0] == timestamps[0];
      assert (timestamps + [last])[1..] == timestamps[1..] + [last];
      RunStep(k.timing, timestamps[1..], last);
    }
  }

  /** Frames arriving every `delta` milliseconds are reported at
      100000 / (100 * delta) = 1000 / delta per second: 100 for delta = 10. */
  lemma SteadyFrames(t: Timing, timestamps: seq<real>, delta: real)
    requires t.timestampMod == 0 && |timestamps| == FramesPerReport && delta != 0.0
    requires forall i :: 0 <= i < |timestamps| ==> timestamps[i] == t.lastTimestamp + (i + 1) as real * delta
    ensures Run(t, timestamps).1[99] == Some(Finite(1000.0 / delta))
    ensures delta == 10.0 ==> Run(t, timestamps).1[99] == Some(Finite(100.0))
  {
    HundredCalls(t, timestamps);
    assert timestamps[99] - t.lastTimestamp == 100.0 * delta;
    assert 100000.0 / (100.0 * delta) == 1000.0 / delta;
  }

  /** What updatePitchIndicators does with a cents error: hide the bar, or
      show the two colour intensities and the bar's left offset in percent. */
  datatype Indicator = Hidden | Shown(sharp: int, flat: int, barPercent: real)

  function PitchIndicator(error: Number): (r: Indicator)
    ensures r.Hidden? <==> error.NaN?
    ensures r.Shown? ==> r.sharp >= 0 && r.flat >= 0 && (r.sharp == 0 || r.flat == 0)
    ensures r.Shown? && error.value > 0.0 ==> r.flat == 0
    ensures r.Shown? && error.value <= 0.0 ==> r.sharp == 0
  {
    match error
    case NaN => Hidden
    case Num(e) =>
      if e > 0.0 then Shown((256.0 * e / 50.0).Floor, 0, e + 50.0)
      else Shown(0, (-256.0 * e / 50.0).Floor, e + 50.0)
  }

  /** A sharp error and the equally flat one light the other indicator with
      the same intensity, and place the bar symmetrically about 50. */
  lemma IndicatorMirror(e: real)
    ensures PitchIndicator(Num(e)).sharp == PitchIndicator(Num(-e)).flat
    ensures PitchIndicator(Num(e)).flat == PitchIndicator(Num(-e)).sharp
    ensures PitchIndicator(Num(e)).barPercent + PitchIndicator(Num(-e)).barPercent == 100.0
  {
  }

  /** The sharp intensity grows with the error and the flat one shrinks. */
  lemma IndicatorMonotone(e1: real, e2: real)
    requires e1 <= e2
    ensures PitchIndicator(Num(e1)).sharp <= PitchIndicator(Num(e2)).sharp
    ensures PitchIndicator(Num(e1)).flat >= PitchIndicator(Num(e2)).flat
    ensures PitchIndicator(Num(e1)).barPercent <= PitchIndicator(Num(e2)).barPercent
  {
  }

  /** Within half a semitone the bar stays on the 0..100% scale and the
      intensities stay within 0..256; nothing is clamped, so an error of
      exactly +-50 gives 256, one beyond a colour byte. */
  lemma IndicatorWithinHalfSemitone(e: real)
    requires -50.0 <= e <= 50.0
    ensures 0.0 <= PitchIndicator(Num(e)).barPercent <= 100.0
    ensures PitchIndicator(Num(e)).sharp <= 256 && PitchIndicator(Num(e)).flat <= 256
    ensures e == 50.0 ==> PitchIndicator(Num(e)).sharp == 256
    ensures e == -50.0 ==> PitchIndicator(Num(e)).flat == 256
  {
  }

  lemma IndicatorExamples()
    ensures PitchIndicator(Num(0.0)) == Shown(0, 0, 50.0)
    ensures PitchIndicator(Num(25.0)) == Shown(128, 0, 75.0)
    ensures PitchIndicator(Num(-25.0)) == Shown(0, 128, 25.0)
  {
  }

  /** The bar's style attribute. */
  datatype BarStyle = InitialStyle | VisibilityHidden | Left(percent: real)

  /** The DOM state that initView's closures write (None: never written),
      with the closure counters. */
  datatype ViewState = ViewState(
    timing: Timing,
    frameRateLabel: Option<Rate>,
    pitchLabel: string,
    barStyle: BarStyle,
    flatColour: Option<int>,
    sharpColour: Option<int>)

  /** The view after updateFramerate(timestamp). */
  function AfterFramerate(v: ViewState, timestamp: real): ViewState
  {
    var k := TickAt(v.timing, timestamp);
    v.(timing := k.timing, frameRateLabel := if k.report.Some? then k.report else v.frameRateLabel)
  }

  /** The view after updatePitchIndicators(pitch, error). */
  function AfterPitchIndicators(v: ViewState, pitch: string, error: Number): ViewState
  {
    match PitchIndicator(error)
    case Hidden => v.(pitchLabel := pitch, barStyle := VisibilityHidden)
    case Shown(sharp, flat, bar) =>
      v.(pitchLabel := pitch, barStyle := Left(bar), flatColour := Some(flat), sharpColour := Some(sharp))
  }

  /** The view after draw(signal, timestamp, pitch, error). */
  function AfterDraw(v: ViewState, timestamp: real, pitch: string, error: Number): ViewState
  {
    AfterFramerate(AfterPitchIndicators(v, pitch, error), timestamp)
  }

  /** A frame whose cents error is NaN hides the bar and keeps the colours of
      the last frame that had a value; one with a value shows the bar. */
  lemma DrawHidesOnlyOnNaN(v: ViewState, timestamp: real, pitch: string, error: Number)
    ensures var w := AfterDraw(v, timestamp, pitch, error);
      && w.pitchLabel == pitch
      && (w.barStyle == VisibilityHidden <==> error.NaN?)
      && (error.NaN? ==> w.flatColour == v.flatColour && w.sharpColour == v.sharpColour)
      && (error.Num? ==> w.barStyle == Left(error.value + 50.0) && w.flatColour.Some? && w.sharpColour.Some?)
  {
  }

  /** Objects of this class hold what initView's closures capture. */
  class View {
    var timestampMod: int
    var lastTimestamp: real
    var frameRateLabel: Option<Rate>
    var pitchLabel: string
    var barStyle: BarStyle
    var flatColour: Option<int>
    var sharpColour: Option<int>

    ghost predicate Valid()
      reads this
    {
      0 <= timestampMod < FramesPerReport
    }

    function State(): ViewState
      reads this
    {
      ViewState(Timing(timestampMod, lastTimestamp), frameRateLabel, pitchLabel, barStyle, flatColour, sharpColour)
    }

    constructor ()
      ensures Valid()
      ensures State() == ViewState(Timing(0, 0.0), None, [], InitialStyle, None, None)
    {
      timestampMod, lastTimestamp := 0, 0.0;
      frameRateLabel := None;
      pitchLabel := [];
      barStyle := InitialStyle;
      flatColour, sharpColour := None, None;
    }

    method UpdateFramerate(timestamp: real)
      requires Valid()
      modifies this`timestampMod, this`lastTimestamp, this`frameRateLabel
      ensures Valid()
      ensures State() == AfterFramerate(old(State()), timestamp)
    {
      timestampMod := timestampMod + 1;
      if timestampMod == FramesPerReport {
        timestampMod := 0;
        var dt := timestamp - lastTimestamp;
        lastTimestamp := timestamp;
        frameRateLabel := Some(FrameRate(dt));
      }
    }

    method UpdatePitchIndicators(pitch: string, error: Number)
      modifies this`pitchLabel, this`barStyle, this`flatColour, this`sharpColour
      ensures State() == AfterPitchIndicators(old(State()), pitch, error)
    {
      pitchLabel := pitch;
      if error.NaN? {
        barStyle := VisibilityHidden;
      } else {
        var e := error.value;
        var sharp, flat;
        if e > 0.0 {
          sharp := (256.0 * e / 50.0).Floor;
          flat := 0;
        } else {
          sharp := 0;
          flat := (-256.0 * e / 50.0).Floor;
        }
        flatColour := Some(flat);
        sharpColour := Some(sharp);
        barStyle := Left(e + 50.0);
      }
    }

    /** draw: the waveform drawing (drawDebugGraph) is rendering and is not
        modelled; then the indicators, then the frame rate. */
    method Draw(timestamp: real, pitch: string, error: Number)
      requires Valid()
      modifies this
      ensures Valid()
      ensures State() == AfterDraw(old(State()), timestamp, pitch, error)
    {
      UpdatePitchIndicators(pitch, error);
      UpdateFramerate(timestamp);
    }
  }
}
