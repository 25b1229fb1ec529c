/**
 * `mainContainer`: the two conflict buttons become live once both series
 * are loaded (`stepTwo`), each sets its flag when clicked, and the finish
 * button is lit once both flags are set (`checkConfButs`).
 */
module Session {

  datatype Event = SeriesLoaded | SeriesConflictsClicked | SectionConflictsClicked

  /** `connected`: `stepTwo` has wired the two conflict buttons; `finishReady`: the finish button is lit. */
  datatype Gate = Gate(connected: bool, check1: bool, check2: bool, finishReady: bool)

  const Start: Gate := Gate(false, false, false, false)

  /** `checkConfButs` */
  function Confirm(g: Gate): (r: Gate)
    ensures r.finishReady <==> g.finishReady || (g.check1 && g.check2)
    ensures r.connected == g.connected && r.check1 == g.check1 && r.check2 == g.check2
  {
    if g.check1 && g.check2 then g.(finishReady := true) else g
  }

  /** One event; a click on a button that is not wired yet does nothing. */
  function Step(g: Gate, e: Event): Gate
  {
    match e
    case SeriesLoaded => g.(connected := true)
    case SeriesConflictsClicked => if g.connected then Confirm(g.(check1 := true)) else g
    case SectionConflictsClicked => if g.connected then Confirm(g.(check2 := true)) else g
  }

  function Run(g: Gate, events: seq<Event>): Gate
    decreases |events|
  {
    if events == [] then g else Step(Run(g, events[..|events| - 1]), events[|events| - 1])
  }

  /** No event ever clears a flag. */
  lemma StepNeverResets(g: Gate, e: Event)
    ensures g.connected ==> Step(g, e).connected
    ensures g.check1 ==> Step(g, e).check1
    ensures g.check2 ==> Step(g, e).check2
    ensures g.finishReady ==> Step(g, e).finishReady
  {
  }

  predicate Loaded(events: seq<Event>)
  {
    exists i :: 0 <= i < |events| && events[i] == SeriesLoaded
  }

  /** Some click of `button` came after the series were loaded. */
  predicate ClickedAfterLoad(events: seq<Event>, button: Event)
  {
    exists i, j :: 0 <= i < j < |events| && events[i] == SeriesLoaded && events[j] == button
  }

  /**
   * From the start, the buttons are wired iff the series were loaded; each flag
   * is set iff its button was clicked after loading; and the finish button is
   * lit iff both flags are set.
   */
  lemma {:induction false} RunFromStart(events: seq<Event>)
    ensures Run(Start, events).connected <==> Loaded(events)
    ensures Run(Start, events).check1 <==> ClickedAfterLoad(events, SeriesConflictsClicked)
    ensures Run(Start, events).check2 <==> ClickedAfterLoad(events, SectionConflictsClicked)
    ensures Run(Start, events).finishReady <==> Run(Start, events).check1 && Run(Start, events).check2
    decreases |events|
  {
    if events != [] {
      var init := events[..|events| - 1];
      var last := events[|events| - 1];
      RunFromStart(init);
      assert forall i :: 0 <= i < |init| ==> init[i] == events[i];
      if Loaded(events) && !Loaded(init) {
        assert last == SeriesLoaded;
      }
      if Loaded(init) {
        var i :| 0 <= i < |init| && init[i] == SeriesLoaded;
        assert events[i] == SeriesLoaded;
      }
      ClickAfterLoadStep(events, SeriesConflictsClicked);
      ClickAfterLoadStep(events, SectionConflictsClicked);
    }
  }

  /** A click after loading happened in the prefix, or is the last event with a load before it. */
  lemma ClickAfterLoadStep(events: seq<Event>, button: Event)
    requires events != [] && button != SeriesLoaded
    ensures var init := events[..|events| - 1];
      ClickedAfterLoad(events, button) <==>
        ClickedAfterLoad(init, button) || (events[|events| - 1] == button && Loaded(init))
  {
    var init := events[..|events| - 1];
    assert forall i :: 0 <= i < |init| ==> init[i] == events[i];
    if ClickedAfterLoad(events, button) {
      var i, j :| 0 <= i < j < |events| && events[i] == SeriesLoaded && events[j] == button;
      if j < |init| {
        assert ClickedAfterLoad(init, button);
      } else {
        assert Loaded(init);
      }
    }
    if events[|events| - 1] == button && Loaded(init) {
      var i :| 0 <= i < |init| && init[i] == SeriesLoaded;
      assert events[i] == SeriesLoaded && events[|events| - 1] == button;
    }
    if ClickedAfterLoad(init, button) {
      var i, j :| 0 <= i < j < |init| && init[i] == SeriesLoaded && init[j] == button;
      assert events[i] == SeriesLoaded && events[j] == button;
    }
  }

  /** Once lit, the finish button stays lit whatever happens next. */
  lemma {:induction false} ReadyIsMonotone(g: Gate, events: seq<Event>)
    requires g.finishReady
    ensures Run(g, events).finishReady
    decreases |events|
  {
    if events != [] {
      ReadyIsMonotone(g, events[..|events| - 1]);
    }
  }

  class MainContainer {
    var connected: bool
    var check1: bool
    var check2: bool
    var finishReady: bool

    function State(): Gate
      reads this
    {
      Gate(connected, check1, check2, finishReady)
    }

    constructor ()
      ensures State() == Start
    {
      connected, check1, check2, finishReady := false, false, false, false;
    }

    /** `stepTwo`, after both series are loaded: wire the two conflict buttons. */
    method StepTwo()
      modifies this
      ensures State() == Step(old(State()), SeriesLoaded)
    {
      connected := true;
    }

    /** `seriesConflicts`, reachable only through the wired button. */
    method SeriesConflicts()
      requires connected
      modifies this
      ensures State() == Step(old(State()), SeriesConflictsClicked)
    {
      check1 := true;
      CheckConfButs();
    }

    /** `sectionConflicts`, reachable only through the wired button. */
    method SectionConflicts()
      requires connected
      modifies this
      ensures State() == Step(old(State()), SectionConflictsClicked)
    {
      check2 := true;
      CheckConfButs();
    }

    /** `checkConfButs` */
    method CheckConfButs()
      modifies this
      ensures State() == Confirm(old(State()))
    {
      if check1 && check2 {
        finishReady := true;
      }
    }
  }
}
