/**
 * The panel switcher of the career section: two panels, Education and
 * Career, one of them expanded. A click on the collapsed panel starts that
 * panel's circle widget sweeping; the sweep's completion commits the switch;
 * a delayed timer then ends the transition.
 *
 * The `setTimeout` of the completion handler is the explicit event
 * `TimerFired`; `timerArmed` records that such a timer is outstanding.
 */
module CareerSection {
  import opened Wrappers
  import ConcentricCircles

  /** The two panels; the source names them by the strings 'education' and 'career'. */
  datatype Section = Education | Career

  /** The three state fields of the component, and the outstanding delayed clear. */
  datatype Switch = Switch(active: Section, transitioning: bool, pending: Option<Section>,
                           timerArmed: bool)

  datatype Event = Click(section: Section) | TransitionComplete | TimerFired

  /** The state on mount: Education expanded, nothing in flight. */
  const Initial: Switch := Switch(Education, false, None, false)

  /**
   * The switcher's invariant. A pending section means a sweep is running
   * towards a panel other than the active one; an armed timer means the
   * switch was committed and only the transition flag is left to clear; and
   * the transition flag is up exactly while one of those two phases lasts.
   */
  ghost predicate Inv(s: Switch) {
    && (s.pending.Some? ==> s.transitioning && s.pending.value != s.active && !s.timerArmed)
    && (s.timerArmed ==> s.transitioning && s.pending == None)
    && (s.transitioning ==> s.pending.Some? || s.timerArmed)
  }

  /**
   * One event. A click is ignored on the active panel or while a transition
   * runs; otherwise it starts a transition towards the clicked panel. The
   * completion commits a pending section and arms the delayed clear, and does
   * nothing without one. The timer, when one is outstanding, clears the flag.
   */
  function Next(s: Switch, e: Event): (r: Switch)
    ensures e.Click? && s.transitioning ==> r == s
    ensures r.active != s.active ==> e == TransitionComplete && s.pending == Some(r.active)
    ensures !s.transitioning && r.transitioning ==>
      e.Click? && e.section != s.active && r.pending == Some(e.section)
    ensures s.transitioning && !r.transitioning ==> e == TimerFired && s.timerArmed
  {
    match e
    case Click(section) =>
      if section == s.active || s.transitioning then s
      else s.(transitioning := true, pending := Some(section))
    case TransitionComplete =>
      if s.pending.Some? then s.(active := s.pending.value, pending := None, timerArmed := true)
      else s
    case TimerFired =>
      if s.timerArmed then s.(transitioning := false, timerArmed := false) else s
  }

  /** The state after a sequence of events. */
  function Run(s: Switch, events: seq<Event>): Switch
    decreases |events|
  {
    if events == [] then s else Run(Next(s, events[0]), events[1..])
  }

  /** Every event keeps the invariant. */
  lemma NextKeepsInv(s: Switch, e: Event)
    requires Inv(s)
    ensures Inv(Next(s, e))
  {
  }

  /** Every state reachable from a valid one, in particular from mount, satisfies the invariant. */
  lemma {:induction false} RunKeepsInv(s: Switch, events: seq<Event>)
    requires Inv(s)
    ensures Inv(Run(s, events))
    decreases |events|
  {
    if events != [] {
      NextKeepsInv(s, events[0]);
      RunKeepsInv(Next(s, events[0]), events[1..]);
    }
  }

  /** The component starts in a valid state. */
  lemma InitialIsValid()
    ensures Inv(Initial) && Initial.active == Education
  {
  }

  /**
   * Without a transition in flight, a click on the collapsed panel followed
   * by its sweep's completion and the timer switches panels and leaves
   * nothing in flight.
   */
  lemma ClickCompletesSwitch(s: Switch, section: Section)
    requires Inv(s) && !s.transitioning && section != s.active
    ensures Run(s, [Click(section), TransitionComplete, TimerFired])
      == Switch(section, false, None, false)
  {
    var s1 := Next(s, Click(section));
    var s2 := Next(s1, TransitionComplete);
    assert Run(s, [Click(section), TransitionComplete, TimerFired])
      == Run(s1, [TransitionComplete, TimerFired]);
    assert Run(s1, [TransitionComplete, TimerFired]) == Run(s2, [TimerFired]);
  }

  /** A click during a transition is lost: however many arrive, none is queued. */
  lemma {:induction false} ClicksDuringTransitionIgnored(s: Switch, sections: seq<Section>)
    requires s.transitioning
    ensures Run(s, seq(|sections|, k requires 0 <= k < |sections| => Click(sections[k]))) == s
  {
    var clicks := seq(|sections|, k requires 0 <= k < |sections| => Click(sections[k]));
    if sections != [] {
      assert clicks[1..] == seq(|sections[1..]|, k requires 0 <= k < |sections[1..]| => Click(sections[1..][k]));
      ClicksDuringTransitionIgnored(s, sections[1..]);
    }
  }

  // ---------------------------------------------------------------------------
  // The props each panel passes to its circle widget

  /** `isActive` and `isTransitioning` of the circle widget inside `panel`. */
  datatype CircleProps = CircleProps(isActive: bool, isTransitioning: bool)

  /**
   * The props of the widget inside `panel`: active while the panel is
   * collapsed, sweeping while a transition runs towards it.
   */
  function PropsFor(s: Switch, panel: Section): CircleProps
  {
    CircleProps(s.active != panel, s.transitioning && s.pending == Some(panel))
  }

  /**
   * In a valid state at most one widget sweeps, and it is the collapsed one;
   * the expanded panel's widget is neither active nor sweeping, so its effect
   * builds nothing, while the collapsed panel's widget is always built.
   */
  lemma WidgetProps(s: Switch)
    requires Inv(s)
    ensures !(PropsFor(s, Education).isTransitioning && PropsFor(s, Career).isTransitioning)
    ensures PropsFor(s, s.active) == CircleProps(false, false)
    ensures !ConcentricCircles.Initialises(PropsFor(s, s.active).isActive,
                                           PropsFor(s, s.active).isTransitioning)
    ensures forall panel :: panel != s.active ==>
      ConcentricCircles.Initialises(PropsFor(s, panel).isActive, PropsFor(s, panel).isTransitioning)
  {
  }

  /**
   * The completion callback comes only from a widget that is sweeping, and in
   * a valid state such a completion always commits that widget's panel.
   */
  lemma SweepCompletionCommits(s: Switch, panel: Section)
    requires Inv(s) && PropsFor(s, panel).isTransitioning
    ensures Next(s, TransitionComplete).active == panel
    ensures Next(s, TransitionComplete).transitioning
    ensures Next(s, TransitionComplete).pending == None
  {
  }

  /**
   * An accepted click sets the clicked panel's widget sweeping; the widget of
   * the panel that is still expanded neither sweeps nor is active.
   */
  lemma ClickStartsSweep(s: Switch, section: Section)
    requires Inv(s) && !s.transitioning && section != s.active
    ensures PropsFor(Next(s, Click(section)), section) == CircleProps(true, true)
    ensures PropsFor(Next(s, Click(section)), s.active) == CircleProps(false, false)
  {
  }

  // ---------------------------------------------------------------------------
  // The component's state, updated in place

  class SectionSwitch {
    var activeSection: Section
    var isTransitioning: bool
    var pendingSection: Option<Section>
    /** A delayed clear scheduled by the completion handler and not yet fired. */
    var timerArmed: bool

    ghost function State(): Switch
      reads this
    {
      Switch(activeSection, isTransitioning, pendingSection, timerArmed)
    }

    ghost predicate Valid()
      reads this
    {
      Inv(State())
    }

    constructor ()
      ensures Valid() && State() == Initial
    {
      activeSection := Education;
      isTransitioning := false;
      pendingSection := None;
      timerArmed := false;
    }

    /** `handleSectionClick`. */
    method HandleSectionClick(section: Section)
      requires Valid()
      modifies this
      ensures Valid() && State() == Next(old(State()), Click(section))
      ensures section == old(activeSection) || old(isTransitioning) ==> unchanged(this)
      ensures section != old(activeSection) && !old(isTransitioning) ==>
        && isTransitioning && pendingSection == Some(section)
        && activeSection == old(activeSection) && timerArmed == old(timerArmed)
    {
      if section == activeSection || isTransitioning {
        return;
      }
      isTransitioning := true;
      pendingSection := Some(section);
      NextKeepsInv(old(State()), Click(section));
    }

    /** `handleTransitionComplete`: commit the pending section and schedule the delayed clear. */
    method HandleTransitionComplete()
      requires Valid()
      modifies this
      ensures Valid() && State() == Next(old(State()), TransitionComplete)
      ensures old(pendingSection) == None ==> unchanged(this)
      ensures old(pendingSection).Some? ==>
        && activeSection == old(pendingSection).value && pendingSection == None
        && isTransitioning && timerArmed
    {
      if pendingSection.Some? {
        activeSection := pendingSection.value;
        pendingSection := None;
        timerArmed := true;
      }
      NextKeepsInv(old(State()), TransitionComplete);
    }

    /** The body of the delayed `setTimeout`: the transition ends. */
    method DelayedClear()
      requires Valid()
      modifies this
      ensures Valid() && State() == Next(old(State()), Event.TimerFired)
      ensures old(timerArmed) ==>
        !isTransitioning && !timerArmed && activeSection == old(activeSection) && pendingSection == None
      ensures !old(timerArmed) ==> unchanged(this)
    {
      if timerArmed {
        isTransitioning := false;
        timerArmed := false;
      }
      NextKeepsInv(old(State()), Event.TimerFired);
    }
  }
}
