/**
 * What the renderer shows for a state, as an abstract screen: the texts drawn and which row or
 * field is highlighted. Layout, colours and borders are not modelled.
 */
module Ui {
  import opened Wrappers
  import opened Text
  import opened Chores
  import opened Form
  import opened AppState

  /** One table row: the four cell texts and whether the row has the selection highlight. */
  datatype Row = Row(name: string, dueDate: string, status: string, priority: string, highlighted: bool)

  /** The task area: a centred message, or a table with a header row. */
  datatype TaskPanel = Notice(text: string) | Table(header: seq<string>, rows: seq<Row>)

  /** One input box of the form: its caption, its text, and whether it is styled as active. */
  datatype FieldBox = FieldBox(caption: string, text: string, highlighted: bool)

  datatype Body =
    | TaskListBody(title: string, panel: TaskPanel)
    | FormBody(title: string, fields: seq<FieldBox>)

  /** The whole screen: the main area, the error popup if any (its lines), and the footer. */
  datatype Screen = Screen(body: Body, dialog: Option<seq<string>>, footer: string)

  const TasksTitle: string := "Donetick Tasks"
  const LoadingText: string := "Loading tasks..."
  const EmptyText: string := "No tasks found. Press 'a' to add a new task."
  const Header: seq<string> := ["Name", "Due Date", "Status", "Priority"]
  const FormTitle: string := "Add New Task"
  const NameLabel: string := "Name:"
  const DueDateLabel: string := "Due Date (optional, YYYY-MM-DD):"
  const UnknownError: string := "Unknown error"
  const ContinueText: string := "Press any key to continue"
  const Placeholder: string := "-"

  // ---------------------------------------------------------------------------
  // Cells

  /** The status column: 1 active, 2 completed, 0 or missing pending, anything else unknown. */
  function StatusLabel(status: Option<int32>): (r: string)
    ensures r == "active" <==> status == Some(1)
    ensures r == "completed" <==> status == Some(2)
    ensures r == "pending" <==> status == Some(0) || status.None?
    ensures r == "unknown" <==> status.Some? && status.value !in {0, 1, 2}
  {
    match status
    case Some(1) => "active"
    case Some(2) => "completed"
    case Some(0) => "pending"
    case None => "pending"
    case Some(_) => "unknown"
  }

  /** The due-date column: the date text as received, or `-` when there is none. */
  function DueDateText(d: Option<string>): (r: string)
    ensures d.None? ==> r == Placeholder
    ensures d.Some? ==> r == d.value
  {
    d.GetOr(Placeholder)
  }

  /** The priority column: the number in decimal, or `-` when there is none. */
  function PriorityText(p: Option<int32>): (r: string)
    ensures p.None? ==> r == Placeholder
    ensures p.Some? ==> ParseI32(r) == Some(p.value as int)
    ensures p.Some? ==> r == ShowInt(p.value as int)
  {
    match p
    case None => Placeholder
    case Some(v) => ParseI32ShowInt(v as int); ShowInt(v as int)
  }

  /** A task's row: its name as given, the three derived cells, and the highlight asked for. */
  function RenderRow(t: Chore, highlighted: bool): (r: Row)
    ensures r.name == t.name && r.highlighted == highlighted
    ensures r.status == StatusLabel(t.status) && r.dueDate == DueDateText(t.nextDueDate)
    ensures r.priority == PriorityText(t.priority)
  {
    Row(t.name, DueDateText(t.nextDueDate), StatusLabel(t.status), PriorityText(t.priority), highlighted)
  }

  /** One row per task, in list order; only the row at index `selected` is highlighted. */
  function TaskRows(tasks: seq<Chore>, selected: nat): (rows: seq<Row>)
    ensures |rows| == |tasks|
    ensures forall i :: 0 <= i < |rows| ==> (rows[i].highlighted <==> i == selected)
    ensures forall i :: 0 <= i < |rows| ==> rows[i] == RenderRow(tasks[i], i == selected)
  {
    if tasks == [] then []
    else TaskRows(tasks[..|tasks| - 1], selected) + [RenderRow(tasks[|tasks| - 1], |tasks| - 1 == selected)]
  }

  /** Number of highlighted rows. */
  function HighlightCount(rows: seq<Row>): nat {
    if rows == [] then 0
    else HighlightCount(rows[..|rows| - 1]) + if rows[|rows| - 1].highlighted then 1 else 0
  }

  /** Exactly one row is highlighted when the selection is inside the list, and none otherwise. */
  lemma {:induction false} OneHighlightedRow(tasks: seq<Chore>, selected: nat)
    ensures HighlightCount(TaskRows(tasks, selected)) == if selected < |tasks| then 1 else 0
  {
    if tasks != [] {
      var rows := TaskRows(tasks, selected);
      var prefix := tasks[..|tasks| - 1];
      assert rows[..|rows| - 1] == TaskRows(prefix, selected);
      OneHighlightedRow(prefix, selected);
    }
  }

  // ---------------------------------------------------------------------------
  // Panels

  /** Loading wins over everything; otherwise an empty list gets a message, else the table. */
  function TaskPanelFor(s: AppValue): (r: TaskPanel)
    ensures s.loading ==> r == Notice(LoadingText)
    ensures !s.loading && s.tasks == [] ==> r == Notice(EmptyText)
    ensures r.Table? <==> !s.loading && s.tasks != []
    ensures r.Table? ==> r.header == Header
    ensures r.Table? ==> r.rows == TaskRows(s.tasks, s.selected)
  {
    if s.loading then Notice(LoadingText)
    else if s.tasks == [] then Notice(EmptyText)
    else Table(Header, TaskRows(s.tasks, s.selected))
  }

  /** The two input boxes; the one for the active field is highlighted. */
  function FormFields(f: FormValue): (r: seq<FieldBox>)
    ensures |r| == 2 && r[0].text == f.name && r[1].text == f.dueDate
    ensures r[0].highlighted != r[1].highlighted
    ensures r[0].highlighted <==> f.active == Name
  {
    [FieldBox(NameLabel, f.name, f.active == Name), FieldBox(DueDateLabel, f.dueDate, f.active == DueDate)]
  }

  /** The footer's key help, which depends on the view alone. */
  function HelpText(v: View): (r: string)
    ensures r == ContinueText <==> v == ErrorDialog
  {
    match v
    case TaskList => "\U{2191}/k: up | \U{2193}/j: down | Enter: complete | a: add | r: refresh | q: quit"
    case AddTask => "Tab: next field | Enter: submit | Esc: cancel"
    case ErrorDialog => ContinueText
  }

  /** Each view has its own footer. */
  lemma HelpTextsDistinct()
    ensures HelpText(TaskList) != HelpText(AddTask)
    ensures HelpText(TaskList) != HelpText(ErrorDialog)
    ensures HelpText(AddTask) != HelpText(ErrorDialog)
  {
  }

  /** The lines of the error popup. */
  function DialogLines(message: Option<string>): (r: seq<string>)
    ensures |r| == 6 && r[1] == "Error" && r[5] == ContinueText
    ensures r[3] == if message.Some? then message.value else UnknownError
  {
    ["", "Error", "", message.GetOr(UnknownError), "", ContinueText]
  }

  /**
   * The screen for a state: the task list (with the popup on top in the error view) or the form,
   * and the footer for the view.
   */
  function Draw(s: AppValue): (r: Screen)
    ensures r.footer == HelpText(s.view)
    ensures r.body.FormBody? <==> s.view == AddTask
    ensures s.view != AddTask ==> r.body == TaskListBody(TasksTitle, TaskPanelFor(s))
    ensures s.view == AddTask ==> r.body == FormBody(FormTitle, FormFields(s.form))
    ensures r.dialog.Some? <==> s.view == ErrorDialog
    ensures s.view == ErrorDialog ==> r.dialog == Some(DialogLines(s.errorMessage))
  {
    match s.view
    case TaskList => Screen(TaskListBody(TasksTitle, TaskPanelFor(s)), None, HelpText(s.view))
    case AddTask => Screen(FormBody(FormTitle, FormFields(s.form)), None, HelpText(s.view))
    case ErrorDialog =>
      Screen(TaskListBody(TasksTitle, TaskPanelFor(s)), Some(DialogLines(s.errorMessage)), HelpText(s.view))
  }

  /** The startup screen shows the loading message, whatever else the state holds. */
  lemma StartupScreen()
    ensures Draw(Initial).body == TaskListBody(TasksTitle, Notice(LoadingText))
    ensures Draw(Initial).dialog.None?
  {
  }

  /** A loaded, non-empty list in the task view shows exactly one highlighted row. */
  lemma LoadedListHighlightsSelection(s: AppValue)
    requires s.Valid() && !s.loading && s.tasks != [] && s.view == TaskList
    ensures Draw(s).body.panel.Table?
    ensures HighlightCount(Draw(s).body.panel.rows) == 1
    ensures Draw(s).body.panel.rows[s.selected].highlighted
  {
    OneHighlightedRow(s.tasks, s.selected);
  }

  /**
   * The renderer on its own: a selection past the end of a non-empty list highlights no row.
   * The controller never draws such a state, since `AppValue.Valid` excludes it and every
   * transition keeps `Valid`.
   */
  lemma StaleSelectionHighlightsNothing(s: AppValue)
    requires !s.loading && s.tasks != [] && s.selected >= |s.tasks| && s.view == TaskList
    ensures HighlightCount(Draw(s).body.panel.rows) == 0
  {
    OneHighlightedRow(s.tasks, s.selected);
  }
}
