/**
 * Key handling per view, the event channel, and the background units of work.
 *
 * Launching a unit of work against the task service is represented by the `Command` it
 * would run; a key handler returns the commands it launched (at most one). A unit of work,
 * given the service's reply, posts exactly one event to the channel.
 */
module Events {
  import opened Wrappers
  import opened Text
  import opened Chores
  import opened Form
  import opened AppState

  /** The key codes the controller distinguishes; every other code is `Other`. */
  datatype KeyCode = Char(c: char) | Enter | Esc | Tab | BackTab | Backspace | Up | Down | Other

  /** A key press: its code and whether Shift was held. */
  datatype Key = Key(code: KeyCode, shift: bool)

  /** A unit of work launched against the task service. */
  datatype Command = Refresh | Complete(id: int64) | Create(name: string, dueDate: string)

  datatype AppEvent =
    | Input(key: Key)
    | TasksLoaded(tasks: seq<Chore>)
    | TaskAdded
    | TaskCompleted
    | Error(message: string)

  /** The new state after one key or event, and the commands launched on the way. */
  datatype Step = Step(next: AppValue, issued: seq<Command>)

  const InvalidFormMessage: string := "Please fill in all fields with valid data"

  // ---------------------------------------------------------------------------
  // Transitions per view

  /**
   * Task list keys: `q` quits, `a` opens the form, `r` refreshes, `Down`/`j` and `Up`/`k` move
   * the selection, `Enter` completes the selected task; nothing else has an effect.
   */
  function TaskListTransition(s: AppValue, key: Key): (r: Step)
    requires s.Valid()
    ensures r.next.Valid()
    ensures |r.issued| <= 1
    ensures r.issued != [] <==> key.code == Char('r') || (key.code == Enter && s.selected < |s.tasks|)
    ensures r.issued != [] ==> r.next == s.(loading := true)
    ensures key.code == Char('r') ==> r.issued == [Refresh]
    ensures key.code == Enter && s.selected < |s.tasks| ==> r.issued == [Complete(s.tasks[s.selected].id)]
    ensures !r.next.running <==> !s.running || key.code == Char('q')
    ensures r.next.view != s.view ==> key.code == Char('a') && r.next.view == AddTask
    ensures r.next.tasks == s.tasks && r.next.errorMessage == s.errorMessage
    ensures (key.code == Down || key.code == Char('j')) ==> r.next == s.NextTask()
    ensures (key.code == Up || key.code == Char('k')) ==> r.next == s.PreviousTask()
    ensures key.code == Char('a') ==> r == Step(s.ShowAddForm(), [])
    ensures key.code == Char('q') ==> r == Step(s.Quit(), [])
    ensures key.code == Enter && s.selected >= |s.tasks| ==> r == Step(s, [])
    ensures !(key.code in {Char('q'), Char('a'), Char('r'), Char('j'), Char('k'), Down, Up, Enter}) ==> r == Step(s, [])
  {
    match key.code
    case Char('q') => Step(s.Quit(), [])
    case Char('a') => Step(s.ShowAddForm(), [])
    case Char('r') => Step(s.(loading := true), [Refresh])
    case Down => Step(s.NextTask(), [])
    case Char('j') => Step(s.NextTask(), [])
    case Up => Step(s.PreviousTask(), [])
    case Char('k') => Step(s.PreviousTask(), [])
    case Enter =>
      (match s.SelectTask()
       case Some(task) => Step(s.(loading := true), [Complete(task.id)])
       case None => Step(s, []))
    case _ => Step(s, [])
  }

  /**
   * Form keys: `Esc` cancels, `Tab` (with or without Shift) switches field, `Enter` submits,
   * `Backspace` deletes and any character, `q` and `a` included, is typed into the form.
   */
  function FormTransition(s: AppValue, key: Key): (r: Step)
    requires s.Valid()
    ensures r.next.Valid()
    ensures |r.issued| <= 1
    ensures r.issued != [] <==> key.code == Enter && s.form.IsValid()
    ensures r.issued != [] ==> r.issued == [Create(s.form.name, s.form.dueDate)]
    ensures r.issued != [] ==> r.next == s.(loading := true)
    ensures key.code == Enter && !s.form.IsValid() ==> r.next == s.ShowError(InvalidFormMessage)
    ensures key.code == Esc ==> r.next == s.ShowTaskList()
    ensures key.code == Tab ==> r.next == s.(form := s.form.NextField())
    ensures key.code == Backspace ==> r.next == s.(form := s.form.DeleteChar())
    ensures key.code.Char? ==> r.next == s.(form := s.form.InsertChar(key.code.c))
    ensures r.next.running == s.running && r.next.tasks == s.tasks && r.next.selected == s.selected
    ensures !(key.code.Char? || key.code in {Esc, Tab, Enter, Backspace}) ==> r == Step(s, [])
  {
    match key.code
    case Esc => Step(s.ShowTaskList(), [])
    case Tab =>
      // Shift+Tab goes to the previous field, which with two fields is the next one.
      if key.shift then Step(s.(form := s.form.NextField()), [])
      else Step(s.(form := s.form.NextField()), [])
    case Enter =>
      if s.form.IsValid() then Step(s.(loading := true), [Create(s.form.name, s.form.dueDate)])
      else Step(s.ShowError(InvalidFormMessage), [])
    case Backspace => Step(s.(form := s.form.DeleteChar()), [])
    case Char(c) => Step(s.(form := s.form.InsertChar(c)), [])
    case _ => Step(s, [])
  }

  /** Error dialog keys: any character, `Enter` or `Esc` dismisses it; other keys do nothing. */
  function ErrorDialogTransition(s: AppValue, key: Key): (r: Step)
    ensures s.Valid() ==> r.next.Valid()
    ensures r.issued == []
    ensures r.next != s ==> r.next.view == TaskList && r.next.errorMessage.None?
    ensures key.code.Char? || key.code == Enter || key.code == Esc ==> r.next == s.ClearError()
    ensures !(key.code.Char? || key.code == Enter || key.code == Esc) ==> r.next == s
  {
    if key.code.Char? || key.code == Enter || key.code == Esc then Step(s.ClearError(), [])
    else Step(s, [])
  }

  /** A key goes to the handler of the current view. */
  function KeyTransition(s: AppValue, key: Key): (r: Step)
    requires s.Valid()
    ensures r.next.Valid()
    ensures |r.issued| <= 1
    ensures s.view == ErrorDialog ==> r.issued == []
    ensures r.next.running ==> s.running
    ensures s.view == TaskList ==> r == TaskListTransition(s, key)
    ensures s.view == AddTask ==> r == FormTransition(s, key)
    ensures s.view == ErrorDialog ==> r == ErrorDialogTransition(s, key)
  {
    match s.view
    case TaskList => TaskListTransition(s, key)
    case AddTask => FormTransition(s, key)
    case ErrorDialog => ErrorDialogTransition(s, key)
  }

  /** In the form, the keys that switch views in the task list are ordinary text. */
  lemma FormTypesCommandLetters(s: AppValue)
    requires s.Valid() && s.view == AddTask
    ensures KeyTransition(s, Key(Char('q'), false)).next.running == s.running
    ensures KeyTransition(s, Key(Char('a'), false)).next.view == AddTask
    ensures KeyTransition(s, Key(Char('q'), false)).next.form.ActiveText()[s.form.cursor] == 'q'
  {
  }

  /** Cancelling the form marks the list as loading but launches no refresh. */
  lemma CancelFormLaunchesNothing(s: AppValue, shift: bool)
    requires s.Valid() && s.view == AddTask
    ensures KeyTransition(s, Key(Esc, shift)).issued == []
    ensures KeyTransition(s, Key(Esc, shift)).next.loading
    ensures KeyTransition(s, Key(Esc, shift)).next.view == TaskList
  {
  }

  // ---------------------------------------------------------------------------
  // The event channel

  /** An unbounded FIFO channel: `Send` appends, `Next` takes from the front. */
  class EventQueue {
    var pending: seq<AppEvent>

    constructor ()
      ensures pending == []
    {
      pending := [];
    }

    method Send(e: AppEvent)
      modifies this
      ensures pending == old(pending) + [e]
    {
      pending := pending + [e];
    }

    /** The oldest pending event, or `None` when nothing is pending. */
    method Next() returns (e: Option<AppEvent>)
      modifies this
      ensures old(pending) == [] ==> e.None? && pending == []
      ensures old(pending) != [] ==> e == Some(old(pending)[0]) && pending == old(pending)[1..]
    {
      if pending == [] {
        e := None;
      } else {
        e := Some(pending[0]);
        pending := pending[1..];
      }
    }
  }

  // ---------------------------------------------------------------------------
  // Units of work

  /** What the task service answered: a task list, a plain success, or an error message. */
  datatype Reply = Listed(tasks: seq<Chore>) | Done | Failed(message: string)

  /** A reply of the kind the command's service call produces. */
  predicate Answers(cmd: Command, reply: Reply) {
    match reply
    case Listed(_) => cmd.Refresh?
    case Done => !cmd.Refresh?
    case Failed(_) => true
  }

  /** The one event a unit of work posts when its service call returns. */
  function Completion(cmd: Command, reply: Reply): (e: AppEvent)
    requires Answers(cmd, reply)
    ensures !e.Input?
    ensures e.Error? <==> reply.Failed?
    ensures reply.Failed? ==> e == Error(reply.message)
    ensures e.TasksLoaded? <==> cmd.Refresh? && reply.Listed?
    ensures e.TasksLoaded? ==> e.tasks == reply.tasks
    ensures e == TaskCompleted <==> cmd.Complete? && reply.Done?
    ensures e == TaskAdded <==> cmd.Create? && reply.Done?
  {
    match reply
    case Failed(msg) => Error(msg)
    case Listed(ts) => TasksLoaded(ts)
    case Done => if cmd.Complete? then TaskCompleted else TaskAdded
  }

  /** Run one unit of work: it posts exactly one event, its success event or an error. */
  method RunWorker(cmd: Command, reply: Reply, tx: EventQueue)
    requires Answers(cmd, reply)
    modifies tx
    ensures tx.pending == old(tx.pending) + [Completion(cmd, reply)]
  {
    match reply {
      case Failed(msg) => tx.Send(Error(msg));
      case Listed(ts) => tx.Send(TasksLoaded(ts));
      case Done =>
        if cmd.Complete? {
          tx.Send(TaskCompleted);
        } else {
          tx.Send(TaskAdded);
        }
    }
  }

  // ---------------------------------------------------------------------------
  // Key handlers over the state object

  method HandleKeyEvent(key: Key, app: App) returns (issued: seq<Command>)
    requires app.Valid()
    modifies app, app.form
    ensures app.form == old(app.form) || fresh(app.form)
    ensures app.Valid()
    ensures app.Value() == KeyTransition(old(app.Value()), key).next
    ensures issued == KeyTransition(old(app.Value()), key).issued
  {
    match app.view {
      case TaskList => issued := HandleTaskListInput(key, app);
      case AddTask => issued := HandleFormInput(key, app);
      case ErrorDialog => HandleErrorDialogInput(key, app); issued := [];
    }
  }

  method HandleTaskListInput(key: Key, app: App) returns (issued: seq<Command>)
    requires app.Valid()
    modifies app
    ensures app.form == old(app.form) || fresh(app.form)
    ensures app.Value() == TaskListTransition(old(app.Value()), key).next
    ensures issued == TaskListTransition(old(app.Value()), key).issued
  {
    issued := [];
    match key.code {
      case Char('q') => app.Quit();
      case Char('a') => app.ShowAddForm();
      case Char('r') =>
        app.loading := true;
        issued := [Refresh];
      case Down => app.NextTask();
      case Char('j') => app.NextTask();
      case Up => app.PreviousTask();
      case Char('k') => app.PreviousTask();
      case Enter =>
        var task := app.Value().SelectTask();
        if task.Some? {
          app.loading := true;
          issued := [Complete(task.value.id)];
        }
      case _ =>
    }
  }

  method HandleFormInput(key: Key, app: App) returns (issued: seq<Command>)
    requires app.Valid()
    modifies app, app.form
    ensures app.form == old(app.form)
    ensures app.Value() == FormTransition(old(app.Value()), key).next
    ensures issued == FormTransition(old(app.Value()), key).issued
  {
    issued := [];
    match key.code {
      case Esc => app.ShowTaskList();
      case Tab =>
        if key.shift {
          app.form.PreviousField();
        } else {
          app.form.NextField();
        }
      case Enter =>
        var form := app.form.Value();
        if form.IsValid() {
          app.loading := true;
          issued := [Create(form.name, form.dueDate)];
        } else {
          app.ShowError(InvalidFormMessage);
        }
      case Backspace => app.form.DeleteChar();
      case Char(c) => app.form.InsertChar(c);
      case _ =>
    }
  }

  method HandleErrorDialogInput(key: Key, app: App)
    modifies app
    ensures app.form == old(app.form)
    ensures app.Value() == ErrorDialogTransition(old(app.Value()), key).next
  {
    if key.code.Char? || key.code == Enter || key.code == Esc {
      app.ClearError();
    }
  }
}
