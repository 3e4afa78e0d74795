/**
 * The controller's application state. `AppValue` is a snapshot of the whole state with the
 * state changes of the `App` object as functions on it; `App` is the object the main loop owns
 * and updates in place, each method proved to produce exactly the corresponding snapshot change.
 */
module AppState {
  import opened Wrappers
  import opened Chores
  import opened Form

  datatype View = TaskList | AddTask | ErrorDialog

  datatype AppValue = AppValue(
    running: bool,
    view: View,
    tasks: seq<Chore>,
    selected: nat,
    form: FormValue,
    loading: bool,
    errorMessage: Option<string>)
  {
    /**
     * The state invariant: a non-empty task list has the selection inside it (an empty list may
     * leave a stale selection behind), and the form cursor is within its active field.
     */
    predicate Valid() {
      (tasks != [] ==> selected < |tasks|) && form.Valid()
    }

    /** Move the selection down, wrapping from the last task to the first. */
    function NextTask(): (r: AppValue)
      ensures r == this.(selected := r.selected)
      ensures tasks == [] ==> r == this
      ensures tasks != [] ==> r.selected < |tasks|
      ensures tasks != [] && selected + 1 < |tasks| ==> r.selected == selected + 1
      ensures tasks != [] && selected + 1 == |tasks| ==> r.selected == 0
      ensures Valid() ==> r.Valid()
    {
      if tasks != [] then this.(selected := (selected + 1) % |tasks|) else this
    }

    /** Move the selection up, wrapping from the first task to the last. */
    function PreviousTask(): (r: AppValue)
      ensures r == this.(selected := r.selected)
      ensures tasks == [] ==> r == this
      ensures tasks != [] && selected == 0 ==> r.selected == |tasks| - 1
      ensures tasks != [] && 0 < selected ==> r.selected == selected - 1
      ensures Valid() ==> r.Valid()
    {
      if tasks == [] then this
      else if selected == 0 then this.(selected := |tasks| - 1)
      else this.(selected := selected - 1)
    }

    /** The task under the selection, if the selection is inside the list. */
    function SelectTask(): (r: Option<Chore>)
      ensures r.Some? <==> selected < |tasks|
      ensures r.Some? ==> r.value == tasks[selected]
    {
      if selected < |tasks| then Some(tasks[selected]) else None
    }

    /** Enter the add-task view with a fresh, empty form. */
    function ShowAddForm(): (r: AppValue)
      ensures r.view == AddTask && r.form == EmptyForm
      ensures r.form.name == [] && r.form.dueDate == [] && r.form.cursor == 0 && r.form.active == Name
      ensures r.running == running && r.tasks == tasks && r.selected == selected
      ensures r.loading == loading && r.errorMessage == errorMessage
      ensures Valid() ==> r.Valid()
    {
      this.(view := AddTask, form := EmptyForm)
    }

    /** Return to the task list and mark the list as loading. */
    function ShowTaskList(): (r: AppValue)
      ensures r.view == TaskList && r.loading
      ensures r == this.(view := r.view, loading := r.loading)
      ensures Valid() ==> r.Valid()
    {
      this.(view := TaskList, loading := true)
    }

    /** Record an error and show the error dialog; loading stops. */
    function ShowError(message: string): (r: AppValue)
      ensures r.view == ErrorDialog && r.errorMessage == Some(message) && !r.loading
      ensures r == this.(view := r.view, errorMessage := r.errorMessage, loading := r.loading)
      ensures Valid() ==> r.Valid()
    {
      this.(errorMessage := Some(message), view := ErrorDialog, loading := false)
    }

    /** Dismiss the error: no message, back to the task list; loading is left as it was. */
    function ClearError(): (r: AppValue)
      ensures r.view == TaskList && r.errorMessage.None?
      ensures r == this.(view := r.view, errorMessage := r.errorMessage)
      ensures Valid() ==> r.Valid()
    {
      this.(errorMessage := None, view := TaskList)
    }

    /** Stop the main loop. */
    function Quit(): (r: AppValue)
      ensures !r.running && r == this.(running := false)
    {
      this.(running := false)
    }
  }

  /** The state at startup: running, on the task list, nothing loaded yet but loading. */
  const Initial: AppValue := AppValue(true, TaskList, [], 0, EmptyForm, true, None)

  lemma InitialValid()
    ensures Initial.Valid()
  {
  }

  // ---------------------------------------------------------------------------
  // Circular navigation

  /** `NextTask` applied `k` times. */
  function NextTimes(s: AppValue, k: nat): AppValue {
    if k == 0 then s else NextTimes(s, k - 1).NextTask()
  }

  /** `PreviousTask` applied `k` times. */
  function PreviousTimes(s: AppValue, k: nat): AppValue {
    if k == 0 then s else PreviousTimes(s, k - 1).PreviousTask()
  }

  /** `k` steps down from a valid selection land `k` places further on, modulo the list length. */
  lemma {:induction false} NextTimesSelection(s: AppValue, k: nat)
    requires s.Valid() && s.tasks != []
    ensures NextTimes(s, k) == s.(selected := (s.selected + k) % |s.tasks|)
  {
    if k > 0 {
      NextTimesSelection(s, k - 1);
      var n := |s.tasks|;
      var i := (s.selected + k - 1) % n;
      assert (i + 1) % n == (s.selected + k) % n by {
        ModSucc(s.selected + k - 1, n);
      }
    }
  }

  /** `k` steps up from a valid selection land `k` places back, modulo the list length. */
  lemma {:induction false} PreviousTimesSelection(s: AppValue, k: nat)
    requires s.Valid() && s.tasks != []
    ensures PreviousTimes(s, k) == s.(selected := (s.selected - k) % |s.tasks|)
  {
    if k > 0 {
      PreviousTimesSelection(s, k - 1);
      var n := |s.tasks|;
      var i := (s.selected - (k - 1)) % n;
      ModPred(s.selected - (k - 1), n);
    }
  }

  /** Euclidean division is unique: a quotient and in-range remainder determine `%`. */
  lemma ModUnique(a: int, n: int, q: int, r: int)
    requires n > 0 && 0 <= r < n && a == q * n + r
    ensures a % n == r
  {
    var q0, r0 := a / n, a % n;
    assert (q - q0) * n == r0 - r;
    MulBound(q - q0, n);
  }

  lemma MulBound(x: int, n: int)
    requires n > 0
    ensures x >= 1 ==> x * n >= n
    ensures x <= -1 ==> x * n <= -n
  {
  }

  lemma ModSucc(a: int, n: int)
    requires n > 0
    ensures (a % n + 1) % n == (a + 1) % n
  {
    var q, r := a / n, a % n;
    if r + 1 < n {
      ModUnique(a + 1, n, q, r + 1);
      ModUnique(r + 1, n, 0, r + 1);
    } else {
      ModUnique(a + 1, n, q + 1, 0);
      ModUnique(r + 1, n, 1, 0);
    }
  }

  lemma ModPred(a: int, n: int)
    requires n > 0
    ensures a % n == 0 ==> (a - 1) % n == n - 1
    ensures a % n > 0 ==> (a - 1) % n == a % n - 1
  {
    var q, r := a / n, a % n;
    if r == 0 {
      ModUnique(a - 1, n, q - 1, n - 1);
    } else {
      ModUnique(a - 1, n, q, r - 1);
    }
  }

  /** Going down once per task returns to where the selection started. */
  lemma NextTimesFullCircle(s: AppValue)
    requires s.Valid() && s.tasks != []
    ensures NextTimes(s, |s.tasks|) == s
  {
    NextTimesSelection(s, |s.tasks|);
    ModUnique(s.selected + |s.tasks|, |s.tasks|, 1, s.selected);
  }

  /** Going up once per task returns to where the selection started. */
  lemma PreviousTimesFullCircle(s: AppValue)
    requires s.Valid() && s.tasks != []
    ensures PreviousTimes(s, |s.tasks|) == s
  {
    var n := |s.tasks|;
    PreviousTimesSelection(s, n);
    ModUnique(s.selected - n, n, -1, s.selected);
    assert (s.selected - n) % n == s.selected;
  }

  /** On an empty list any number of steps in either direction changes nothing. */
  lemma {:induction false} NavigationOnEmptyList(s: AppValue, k: nat)
    requires s.tasks == []
    ensures NextTimes(s, k) == s && PreviousTimes(s, k) == s
  {
    if k > 0 {
      NavigationOnEmptyList(s, k - 1);
    }
  }

  /** Up undoes down and down undoes up on a valid selection. */
  lemma NavigationInverse(s: AppValue)
    requires s.Valid()
    ensures s.NextTask().PreviousTask() == s
    ensures s.PreviousTask().NextTask() == s
  {
  }

  // ---------------------------------------------------------------------------
  // The state object

  class App {
    var running: bool
    var view: View
    var tasks: seq<Chore>
    var selected: nat
    var form: FormState
    var loading: bool
    var errorMessage: Option<string>

    /** The snapshot of this object and the form it owns. */
    function Value(): AppValue
      reads this, form
    {
      AppValue(running, view, tasks, selected, form.Value(), loading, errorMessage)
    }

    predicate Valid()
      reads this, form
    {
      Value().Valid()
    }

    constructor ()
      ensures Value() == Initial && fresh(form)
    {
      running := true;
      view := TaskList;
      tasks := [];
      selected := 0;
      form := new FormState();
      loading := true;
      errorMessage := None;
    }

    method NextTask()
      modifies this
      ensures form == old(form)
      ensures Value() == old(Value()).NextTask()
    {
      if tasks != [] {
        selected := (selected + 1) % |tasks|;
      }
    }

    method PreviousTask()
      modifies this
      ensures form == old(form)
      ensures Value() == old(Value()).PreviousTask()
    {
      if tasks != [] {
        if selected == 0 {
          selected := |tasks| - 1;
        } else {
          selected := selected - 1;
        }
      }
    }

    method ShowAddForm()
      modifies this
      ensures fresh(form)
      ensures Value() == old(Value()).ShowAddForm()
    {
      view := AddTask;
      form := new FormState();
    }

    method ShowTaskList()
      modifies this
      ensures form == old(form)
      ensures Value() == old(Value()).ShowTaskList()
    {
      view := TaskList;
      loading := true;
    }

    method ShowError(message: string)
      modifies this
      ensures form == old(form)
      ensures Value() == old(Value()).ShowError(message)
    {
      errorMessage := Some(message);
      view := ErrorDialog;
      loading := false;
    }

    method ClearError()
      modifies this
      ensures form == old(form)
      ensures Value() == old(Value()).ClearError()
    {
      errorMessage := None;
      view := TaskList;
    }

    method Quit()
      modifies this
      ensures form == old(form)
      ensures Value() == old(Value()).Quit()
    {
      running := false;
    }
  }
}
