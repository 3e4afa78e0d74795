/**
 * The main loop: the single owner of the application state. It takes events from the channel
 * one at a time, in the order they were sent, and applies each before looking at the next,
 * until the state says to stop. The order in which background work completes is not modelled
 * beyond this: any interleaving of completions is just another event sequence.
 */
module MainLoop {
  import opened Wrappers
  import opened Chores
  import opened AppState
  import opened Events

  /** The effect of one event on the state, and the commands it launches. */
  function ApplyEvent(s: AppValue, e: AppEvent): (r: Step)
    requires s.Valid()
    ensures r.next.Valid()
    ensures |r.issued| <= 1
    ensures e.Input? ==> r == KeyTransition(s, e.key)
    ensures e.TasksLoaded? ==> r.issued == [] && r.next.tasks == e.tasks && !r.next.loading
    ensures e.TasksLoaded? ==> r.next == s.(tasks := e.tasks, loading := false, selected := r.next.selected)
    ensures e.TasksLoaded? && s.selected < |e.tasks| ==> r.next.selected == s.selected
    ensures e.TasksLoaded? && e.tasks != [] && s.selected >= |e.tasks| ==> r.next.selected == 0
    ensures e.TasksLoaded? && e.tasks == [] ==> r.next.selected == s.selected
    ensures e.TaskAdded? ==> r.next == s.ShowTaskList() && r.issued == [Refresh]
    ensures e.TaskCompleted? ==> r.next == s && r.issued == [Refresh]
    ensures e.Error? ==> r.next == s.ShowError(e.message) && r.issued == []
  {
    match e
    case Input(key) => KeyTransition(s, key)
    case TasksLoaded(ts) =>
      var sel := if ts != [] && s.selected >= |ts| then 0 else s.selected;
      Step(s.(tasks := ts, loading := false, selected := sel), [])
    case TaskAdded => Step(s.ShowTaskList(), [Refresh])
    case TaskCompleted => Step(s, [Refresh])
    case Error(msg) => Step(s.ShowError(msg), [])
  }

  /** The outcome of running the loop over an event sequence. */
  datatype Run = Run(final: AppValue, issued: seq<Command>, consumed: nat)

  /**
   * The loop over an event sequence: events are applied in order while the state is running;
   * the loop stops when the events run out or an event has stopped it.
   */
  function RunEvents(s: AppValue, events: seq<AppEvent>): (r: Run)
    requires s.Valid()
    ensures r.final.Valid()
    ensures r.consumed <= |events|
    ensures r.consumed < |events| ==> !r.final.running
    ensures !s.running ==> r == Run(s, [], 0)
    ensures |r.issued| <= r.consumed
    decreases |events|
  {
    if events == [] || !s.running then Run(s, [], 0)
    else
      var step := ApplyEvent(s, events[0]);
      var rest := RunEvents(step.next, events[1..]);
      Run(rest.final, step.issued + rest.issued, rest.consumed + 1)
  }

  /** A run preceded by `consumed` events that launched `issued`. */
  function Later(r: Run, issued: seq<Command>, consumed: nat): Run {
    Run(r.final, issued + r.issued, consumed + r.consumed)
  }

  lemma LaterLater(r: Run, a: seq<Command>, m: nat, b: seq<Command>, n: nat)
    ensures Later(Later(r, a, m), b, n) == Later(r, b + a, n + m)
  {
    assert b + (a + r.issued) == b + a + r.issued;
  }

  /** One turn of the loop: the first event is applied, then the run goes on from there. */
  lemma RunUnfold(s: AppValue, events: seq<AppEvent>)
    requires s.Valid() && s.running && events != []
    ensures var step := ApplyEvent(s, events[0]);
            RunEvents(s, events) == Later(RunEvents(step.next, events[1..]), step.issued, 1)
  {
  }

  /**
   * Events are applied strictly one after another: running over `a + b` is running over `a`
   * and then, if `a` was consumed whole, running over `b` from where `a` left the state.
   */
  lemma {:induction false} RunConcat(s: AppValue, a: seq<AppEvent>, b: seq<AppEvent>)
    requires s.Valid()
    ensures var ra := RunEvents(s, a);
            ra.consumed == |a| ==> RunEvents(s, a + b) == Later(RunEvents(ra.final, b), ra.issued, |a|)
    ensures var ra := RunEvents(s, a);
            ra.consumed < |a| ==> RunEvents(s, a + b) == ra
    decreases |a|
  {
    if a == [] {
      assert a + b == b;
    } else if s.running {
      var step := ApplyEvent(s, a[0]);
      assert (a + b)[0] == a[0];
      assert (a + b)[1..] == a[1..] + b;
      RunUnfold(s, a);
      RunUnfold(s, a + b);
      RunConcat(step.next, a[1..], b);
      var ra' := RunEvents(step.next, a[1..]);
      if ra'.consumed == |a| - 1 {
        LaterLater(RunEvents(ra'.final, b), ra'.issued, |a| - 1, step.issued, 1);
      }
    }
  }

  /** Once the loop has stopped, the events after the stopping point are never looked at. */
  lemma {:induction false} RunIgnoresRest(s: AppValue, events: seq<AppEvent>)
    requires s.Valid()
    ensures var r := RunEvents(s, events);
            RunEvents(s, events[..r.consumed]) == r
    decreases |events|
  {
    if events != [] && s.running {
      var step := ApplyEvent(s, events[0]);
      RunIgnoresRest(step.next, events[1..]);
      var r := RunEvents(s, events);
      assert events[..r.consumed][1..] == events[1..][..r.consumed - 1];
    }
  }

  /** Quitting from the task list stops the loop right there, whatever events follow. */
  lemma QuitStops(s: AppValue, rest: seq<AppEvent>)
    requires s.Valid() && s.running && s.view == TaskList
    ensures RunEvents(s, [Input(Key(Char('q'), false))] + rest)
         == Run(s.Quit(), [], 1)
  {
    var events := [Input(Key(Char('q'), false))] + rest;
    assert events[0] == Input(Key(Char('q'), false));
  }

  /**
   * A complete session: the list [t1, t2, t3] arrives, the user moves up (wrapping to the last
   * task), a service error arrives, and a key press acknowledges it.
   */
  lemma Session(t1: Chore, t2: Chore, t3: Chore, key: char)
    ensures var afterLoad := ApplyEvent(Initial, TasksLoaded([t1, t2, t3])).next;
            afterLoad.tasks == [t1, t2, t3] && afterLoad.selected == 0 && !afterLoad.loading
    ensures var afterLoad := ApplyEvent(Initial, TasksLoaded([t1, t2, t3])).next;
            var afterUp := ApplyEvent(afterLoad, Input(Key(Up, false))).next;
            afterUp.selected == 2
    ensures var afterLoad := ApplyEvent(Initial, TasksLoaded([t1, t2, t3])).next;
            var afterUp := ApplyEvent(afterLoad, Input(Key(Up, false))).next;
            var afterError := ApplyEvent(afterUp, Error("timeout")).next;
            afterError.view == ErrorDialog && !afterError.loading
            && afterError.errorMessage == Some("timeout")
    ensures var afterLoad := ApplyEvent(Initial, TasksLoaded([t1, t2, t3])).next;
            var afterUp := ApplyEvent(afterLoad, Input(Key(Up, false))).next;
            var afterError := ApplyEvent(afterUp, Error("timeout")).next;
            var afterKey := ApplyEvent(afterError, Input(Key(Char(key), false))).next;
            afterKey.view == TaskList && afterKey.errorMessage.None? && afterKey.selected == 2
  {
    InitialValid();
  }

  /** The loop as a whole: the final state, the commands launched and the events consumed. */
  lemma SessionAsOneRun(t1: Chore, t2: Chore, t3: Chore)
    ensures var r := RunEvents(Initial, [TasksLoaded([t1, t2, t3]), Input(Key(Up, false)),
                                         Error("timeout"), Input(Key(Enter, false))]);
            r.consumed == 4 && r.issued == [] && r.final.view == TaskList
            && r.final.selected == 2 && r.final.errorMessage.None? && !r.final.loading
  {
    InitialValid();
    var e1, e2, e3, e4 := TasksLoaded([t1, t2, t3]), Input(Key(Up, false)), Error("timeout"), Input(Key(Enter, false));
    var s1 := ApplyEvent(Initial, e1).next;
    var s2 := ApplyEvent(s1, e2).next;
    var s3 := ApplyEvent(s2, e3).next;
    var s4 := ApplyEvent(s3, e4).next;
    assert s1.running && s2.running && s3.running;
    assert s2.selected == 2 && s4.selected == 2;
    assert RunEvents(s3, [e4]) == Run(s4, [], 1);
    assert [e3, e4][1..] == [e4];
    assert RunEvents(s2, [e3, e4]) == Run(s4, [], 2);
    assert [e2, e3, e4][1..] == [e3, e4];
    assert RunEvents(s1, [e2, e3, e4]) == Run(s4, [], 3);
    assert [e1, e2, e3, e4][1..] == [e2, e3, e4];
  }

  // ---------------------------------------------------------------------------
  // The loop over the state object

  /** Apply one event to the state object. */
  method HandleEvent(app: App, e: AppEvent) returns (issued: seq<Command>)
    requires app.Valid()
    modifies app, app.form
    ensures app.form == old(app.form) || fresh(app.form)
    ensures app.Valid()
    ensures app.Value() == ApplyEvent(old(app.Value()), e).next
    ensures issued == ApplyEvent(old(app.Value()), e).issued
  {
    match e {
      case Input(key) =>
        issued := HandleKeyEvent(key, app);
      case TasksLoaded(ts) =>
        app.tasks := ts;
        app.loading := false;
        if app.tasks != [] && app.selected >= |app.tasks| {
          app.selected := 0;
        }
        issued := [];
      case TaskAdded =>
        app.ShowTaskList();
        issued := [Refresh];
      case TaskCompleted =>
        issued := [Refresh];
      case Error(msg) =>
        app.ShowError(msg);
        issued := [];
    }
  }

  /**
   * While the state is running, take the next event from the channel and apply it. The loop
   * ends when the state stops running or when no event is pending.
   */
  method RunLoop(app: App, events: EventQueue) returns (issued: seq<Command>)
    requires app.Valid()
    modifies app, app.form, events
    ensures app.Valid()
    ensures var r := RunEvents(old(app.Value()), old(events.pending));
            app.Value() == r.final && issued == r.issued
            && events.pending == old(events.pending)[r.consumed..]
  {
    ghost var total := RunEvents(app.Value(), events.pending);
    ghost var trace := events.pending;
    issued := [];
    ghost var consumed := 0;
    while app.running
      invariant app.Valid()
      invariant app.form == old(app.form) || fresh(app.form)
      invariant consumed <= |trace|
      invariant events.pending == trace[consumed..]
      invariant total == Later(RunEvents(app.Value(), events.pending), issued, consumed)
      decreases |events.pending|
    {
      ghost var before := app.Value();
      ghost var pending := events.pending;
      var e := events.Next();
      if e.None? {
        break;
      }
      var cmds := HandleEvent(app, e.value);
      RunUnfold(before, pending);
      LaterLater(RunEvents(app.Value(), events.pending), cmds, 1, issued, consumed);
      issued := issued + cmds;
      consumed := consumed + 1;
    }
  }

  /** Start the controller: launch the first list refresh, then run the loop. */
  method RunApp(events: EventQueue) returns (app: App, issued: seq<Command>)
    modifies events
    ensures app.Valid()
    ensures var r := RunEvents(Initial, old(events.pending));
            app.Value() == r.final && issued == [Refresh] + r.issued
            && events.pending == old(events.pending)[r.consumed..]
  {
    app := new App();
    InitialValid();
    issued := [Refresh];
    var rest := RunLoop(app, events);
    issued := issued + rest;
  }
}
