/**
 * The lifecycle of the decoding text's effect across activations. The effect
 * re-runs whenever `isActive` changes: its cleanup clears the start-delay
 * timeout, and its body either blanks the display (inactive) or arms the
 * timeout again (active). When the timeout fires it starts the interval, and
 * every tick of a live interval overwrites the display.
 *
 * As written, the function that would clear the interval is returned from
 * the timeout's callback, where nothing ever calls it: deactivation leaves a
 * started interval running. `NextAsWritten` models that; `Next` is the
 * evidently intended lifecycle, where the cleanup stops the interval too.
 * Time is not modelled: the delay elapsing and each tick are events.
 */
module DecodeLifecycle {
  import DecodeText

  /**
   * The display state, whether the delay timeout is pending, and how many
   * intervals are live (the stop test of a tick can end one).
   */
  datatype Widget = Widget(isActive: bool, displayText: string, timeoutArmed: bool, liveIntervals: nat)

  /** `isActive` changes, the delay elapses, or a live interval ticks with a new string. */
  datatype Event = SetActive(active: bool) | DelayElapsed | IntervalTick(shown: string, stop: bool)

  /** The effect's first run on mount: nothing displayed, the timeout armed if active. */
  function Mount(isActive: bool): Widget
  {
    Widget(isActive, "", isActive, 0)
  }

  /** The effect body, run after the cleanup. */
  function EffectBody(w: Widget, active: bool): Widget
  {
    if !active then w.(isActive := false, displayText := "")
    else w.(isActive := true, timeoutArmed := true)
  }

  /** The delay elapses: an armed timeout starts one more interval. */
  function OnDelay(w: Widget): Widget
  {
    if w.timeoutArmed then w.(timeoutArmed := false, liveIntervals := w.liveIntervals + 1) else w
  }

  /** A tick of a live interval: show its string; its stop test may end that interval. */
  function OnTick(w: Widget, shown: string, stop: bool): Widget
  {
    if w.liveIntervals == 0 then w
    else w.(displayText := shown, liveIntervals := if stop then w.liveIntervals - 1 else w.liveIntervals)
  }

  /**
   * One event as the code is written: the cleanup clears only the timeout.
   * An activation change never ends an interval; only an armed delay starts
   * one, and only an interval's own stop test ends it.
   */
  function NextAsWritten(w: Widget, e: Event): (r: Widget)
    ensures e.SetActive? ==> r.liveIntervals == w.liveIntervals
    ensures r.liveIntervals > w.liveIntervals ==> e == DelayElapsed && w.timeoutArmed
    ensures r.liveIntervals < w.liveIntervals ==> e.IntervalTick? && e.stop
  {
    match e
    case SetActive(active) =>
      if active == w.isActive then w else EffectBody(w.(timeoutArmed := false), active)
    case DelayElapsed => OnDelay(w)
    case IntervalTick(shown, stop) => OnTick(w, shown, stop)
  }

  /**
   * One event as intended: the cleanup clears the timeout and stops the
   * interval. Deactivation leaves nothing pending and nothing displayed, only
   * an armed delay starts an interval, and the display changes only on an
   * activation change or a tick of a live interval.
   */
  function Next(w: Widget, e: Event): (r: Widget)
    ensures e.SetActive? && e.active != w.isActive ==> r.liveIntervals == 0
    ensures e == SetActive(false) && w.isActive ==>
      r.displayText == "" && !r.timeoutArmed && r.liveIntervals == 0
    ensures r.liveIntervals > w.liveIntervals ==> e == DelayElapsed && w.timeoutArmed
    ensures r.displayText != w.displayText ==>
      (e.SetActive? && e.active != w.isActive) || (e.IntervalTick? && w.liveIntervals > 0)
  {
    match e
    case SetActive(active) =>
      if active == w.isActive then w
      else EffectBody(w.(timeoutArmed := false, liveIntervals := 0), active)
    case DelayElapsed => OnDelay(w)
    case IntervalTick(shown, stop) => OnTick(w, shown, stop)
  }

  function RunAsWritten(w: Widget, events: seq<Event>): Widget
    decreases |events|
  {
    if events == [] then w else RunAsWritten(NextAsWritten(w, events[0]), events[1..])
  }

  function Run(w: Widget, events: seq<Event>): Widget
    decreases |events|
  {
    if events == [] then w else Run(Next(w, events[0]), events[1..])
  }

  /** Every tick shows a string as long as the text. */
  predicate WellFormed(text: string, events: seq<Event>) {
    forall k :: 0 <= k < |events| && events[k].IntervalTick? ==> |events[k].shown| == |text|
  }

  /**
   * The intended invariant: at most one timeout or interval is pending, an
   * inactive widget has neither and displays nothing, and a displayed string
   * has the text's length.
   */
  ghost predicate Inv(text: string, w: Widget) {
    && w.liveIntervals + (if w.timeoutArmed then 1 else 0) <= 1
    && (!w.isActive ==> w.displayText == "" && w.liveIntervals == 0 && !w.timeoutArmed)
    && (w.displayText == "" || |w.displayText| == |text|)
  }

  lemma MountIsValid(text: string, isActive: bool)
    ensures Inv(text, Mount(isActive))
  {
  }

  /** The intended lifecycle keeps the invariant over any sequence of events. */
  lemma {:induction false} RunKeepsInv(text: string, w: Widget, events: seq<Event>)
    requires Inv(text, w) && WellFormed(text, events)
    ensures Inv(text, Run(w, events))
    decreases |events|
  {
    if events != [] {
      assert Inv(text, Next(w, events[0])) by {
        assert events[0].IntervalTick? ==> |events[0].shown| == |text|;
      }
      assert WellFormed(text, events[1..]) by {
        forall k | 0 <= k < |events[1..]| && events[1..][k].IntervalTick?
          ensures |events[1..][k].shown| == |text|
        {
          assert events[1..][k] == events[k + 1];
        }
      }
      RunKeepsInv(text, Next(w, events[0]), events[1..]);
    }
  }

  /**
   * With the intended cleanup, what the span renders is nothing while
   * inactive and a string as long as the text while active.
   */
  lemma RenderedMatchesActivity(text: string, w: Widget)
    requires Inv(text, w)
    ensures !w.isActive ==> DecodeText.Rendered(w.displayText, text, w.isActive) == ""
    ensures w.isActive ==> |DecodeText.Rendered(w.displayText, text, w.isActive)| == |text|
  {
  }

  /**
   * As written, a tick that arrives after deactivation draws a frame of the
   * decoding into a widget that is no longer active: activate, let the delay
   * elapse, deactivate, tick. The tick shows the frame `Step` computes from
   * the progress of the interval's earlier ticks (their own displays are
   * blanked by the deactivation). The inactive span renders that frame, as
   * long as the text, and once every letter has locked it renders the text
   * itself.
   */
  lemma LateTickShowsTextWhileInactive(ticks: seq<seq<DecodeText.Roll>>, rolls: seq<DecodeText.Roll>)
    requires forall t :: 0 <= t < |ticks| ==> DecodeText.AreRolls(ExampleText, ticks[t])
    requires DecodeText.AreRolls(ExampleText, rolls)
    ensures var p := DecodeText.Run(ExampleText, DecodeText.Start(ExampleText), ticks);
      var shown := DecodeText.Step(ExampleText, p, rolls).display;
      var w := RunAsWritten(Mount(false),
        [SetActive(true), DelayElapsed, SetActive(false), IntervalTick(shown, false)]);
      && !w.isActive && w.liveIntervals == 1
      && DecodeText.Rendered(w.displayText, ExampleText, w.isActive) == shown
      && |shown| == |ExampleText| == 18
      && ((forall k :: 0 <= k < |ExampleText| && !DecodeText.IsPassThrough(ExampleText[k]) ==> p.completed[k])
          ==> shown == ExampleText)
  {
    var text := ExampleText;
    var p := DecodeText.Run(text, DecodeText.Start(text), ticks);
    DecodeText.StartIsValid(text);
    DecodeText.RunKeepsInv(text, DecodeText.Start(text), ticks);
    if forall k :: 0 <= k < |text| && !DecodeText.IsPassThrough(text[k]) ==> p.completed[k] {
      DecodeText.DecodedStepShowsText(text, p, rolls);
    }
    var shown := DecodeText.Step(text, p, rolls).display;
    var w1 := NextAsWritten(Mount(false), SetActive(true));
    var w2 := NextAsWritten(w1, DelayElapsed);
    var w3 := NextAsWritten(w2, SetActive(false));
    var w4 := NextAsWritten(w3, IntervalTick(shown, false));
    var events := [SetActive(true), DelayElapsed, SetActive(false), IntervalTick(shown, false)];
    assert RunAsWritten(Mount(false), events) == RunAsWritten(w1, events[1..]);
    assert RunAsWritten(w1, events[1..]) == RunAsWritten(w2, events[2..]);
    assert RunAsWritten(w2, events[2..]) == RunAsWritten(w3, events[3..]);
    assert RunAsWritten(w3, events[3..]) == RunAsWritten(w4, []);
    assert |shown| == 18;
  }

  /**
   * As written, reactivating after the delay has elapsed leaves two intervals
   * ticking on the same display.
   */
  lemma ReactivationDoublesIntervals()
    ensures RunAsWritten(Mount(false),
      [SetActive(true), DelayElapsed, SetActive(false), SetActive(true), DelayElapsed]).liveIntervals == 2
  {
  }

  /** The text of the examples: a job title shown in the career panel. */
  const ExampleText: string := "Cox Communications"

  lemma ExampleTextHasSpace()
    ensures |ExampleText| == 18 && DecodeText.IsPassThrough(ExampleText[3])
  {
    assert ExampleText[3] == ' ';
  }

  /**
   * The leaked interval of the example never ends by itself: its text holds
   * a space, so no sequence of ticks passes its stop test.
   */
  lemma LeakedIntervalNeverStops(ticks: seq<seq<DecodeText.Roll>>)
    requires forall t :: 0 <= t < |ticks| ==> DecodeText.AreRolls(ExampleText, ticks[t])
    ensures !DecodeText.AllCompleted(DecodeText.Run(ExampleText, DecodeText.Start(ExampleText), ticks))
  {
    ExampleTextHasSpace();
    DecodeText.PassThroughNeverStops(ExampleText, ticks, 3);
  }
}
