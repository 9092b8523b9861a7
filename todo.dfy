/**
 * The task table of components/todo.tsx and the operations that change it: `addTask`,
 * `addTodo`, `updateTodo`, `toggleTodo`, `deleteTodo`, the `onContext` capture, the two
 * status views, and the periodic handler that feeds the automatic-detection pipeline.
 *
 * The host's vector database table "tasks" is the `items` map; it hands out fresh ids
 * (`nextId`). The list the UI shows is a reload of that table after every mutation, so
 * the two are the same here. Notifications shown to the user are logged in `notifications`.
 */
module Todo {
  import opened Wrappers
  import opened JsStrings
  import Detection

  type TaskId = nat

  datatype Status = Pending | Completed | Deleted | FalsePositive
  datatype AdditionMethod = Manually | Automatically | SemiAutomatically

  /** A row of the task table: its text, the source document it was inserted with, and its metadata. */
  datatype Task = Task(text: string, source: Option<string>, status: Status, additionMethod: AdditionMethod, lastModified: Millis)

  /** A user-visible notification (title, body). */
  datatype Notification = Notification(title: string, body: string)

  const TaskAddedTitle: string := "New task added to TODO list"

  // ---------------------------------------------------------------------------
  // Rules of the single operations

  /** `status ? status : 'pending'` */
  function StoredStatus(status: Option<Status>): Status
  {
    status.GetOr(Pending)
  }

  /** `additionMethod === 'automatically' && status !== 'false_positive'` on the optional argument. */
  predicate Notifies(additionMethod: AdditionMethod, status: Option<Status>)
  {
    additionMethod == Automatically && status != Some(FalsePositive)
  }

  /** The row `addTask` inserts. */
  function NewTask(text: string, source: Option<string>, additionMethod: AdditionMethod, status: Option<Status>, now: Millis): Task
  {
    Task(text, source, StoredStatus(status), additionMethod, now)
  }

  /** Without an explicit status a row is pending; an explicit one is kept. A notification fires iff the row is automatic and the STORED status is not `false_positive`. */
  lemma AddTaskRules(text: string, source: Option<string>, additionMethod: AdditionMethod, status: Option<Status>, now: Millis)
    ensures var t := NewTask(text, source, additionMethod, status, now);
      t.text == text && t.source == source && t.additionMethod == additionMethod && t.lastModified == now &&
      (status.None? ==> t.status == Pending) && (status.Some? ==> t.status == status.value) &&
      (Notifies(additionMethod, status) <==> additionMethod == Automatically && t.status != FalsePositive)
  {
  }

  /** `todo?.status === 'completed' ? 'pending' : 'completed'`, where `None` is a task not found. */
  function NextStatus(current: Option<Status>): Status
  {
    if current == Some(Completed) then Pending else Completed
  }

  /** Toggling sends `completed` to `pending` and everything else, a missing task included, to `completed`; on the two visible statuses it is an involution. */
  lemma ToggleRules(s: Status)
    ensures NextStatus(Some(s)) == (if s == Completed then Pending else Completed)
    ensures NextStatus(None) == Completed
    ensures s == Pending || s == Completed ==> NextStatus(Some(NextStatus(Some(s)))) == s
  {
  }

  /** `updateText` with the current status and method: only the text and the stamp change. A missing id leaves the table alone. */
  function AfterUpdate(items: map<TaskId, Task>, id: TaskId, text: string, now: Millis): map<TaskId, Task>
  {
    if id in items then items[id := items[id].(text := text, lastModified := now)] else items
  }

  /** `updateMetadata` with the toggled status and the current method. */
  function AfterToggle(items: map<TaskId, Task>, id: TaskId, now: Millis): map<TaskId, Task>
  {
    if id in items then items[id := items[id].(status := NextStatus(Some(items[id].status)), lastModified := now)] else items
  }

  /** Soft delete (status `deleted`) for automatic rows, `deleteItem` for the rest. */
  function AfterDelete(items: map<TaskId, Task>, id: TaskId, now: Millis): map<TaskId, Task>
  {
    if id in items && items[id].additionMethod == Automatically then
      items[id := items[id].(status := Deleted, lastModified := now)]
    else
      items - {id}
  }

  /** The rows the main list shows. */
  function PendingView(items: map<TaskId, Task>): map<TaskId, Task>
  {
    map id | id in items && items[id].status == Pending :: items[id]
  }

  /** The rows the collapsible "completed" list shows. */
  function CompletedView(items: map<TaskId, Task>): map<TaskId, Task>
  {
    map id | id in items && items[id].status == Completed :: items[id]
  }

  /** Each row appears in at most one view, and exactly the deleted and false-positive rows appear in neither. */
  lemma ViewsPartition(items: map<TaskId, Task>, id: TaskId)
    requires id in items
    ensures !(id in PendingView(items) && id in CompletedView(items))
    ensures (id !in PendingView(items) && id !in CompletedView(items)) <==>
      (items[id].status == Deleted || items[id].status == FalsePositive)
  {
  }

  /** Editing changes only the row's text and stamp; status, method and source stay, and other rows are untouched. */
  lemma UpdateKeepsProvenance(items: map<TaskId, Task>, id: TaskId, text: string, now: Millis)
    ensures var r := AfterUpdate(items, id, text, now);
      r.Keys == items.Keys &&
      (id in items ==> r[id].text == text && r[id].lastModified == now && r[id].status == items[id].status &&
                       r[id].additionMethod == items[id].additionMethod && r[id].source == items[id].source) &&
      forall k :: k in items && k != id ==> r[k] == items[k]
  {
  }

  /** Toggling keeps the text, method and source, changes the status as `NextStatus` says, and stamps the row. */
  lemma ToggleKeepsProvenance(items: map<TaskId, Task>, id: TaskId, now: Millis)
    ensures var r := AfterToggle(items, id, now);
      r.Keys == items.Keys &&
      (id in items ==> r[id].additionMethod == items[id].additionMethod && r[id].text == items[id].text &&
                       r[id].source == items[id].source && r[id].lastModified == now &&
                       r[id].status == (if items[id].status == Completed then Pending else Completed)) &&
      forall k :: k in items && k != id ==> r[k] == items[k]
  {
  }

  /** Deleting an automatic row keeps it, as `deleted` and out of both views; deleting any other row removes it. Other rows are untouched. */
  lemma DeleteSoftOrHard(items: map<TaskId, Task>, id: TaskId, now: Millis)
    requires id in items
    ensures var r := AfterDelete(items, id, now);
      (items[id].additionMethod == Automatically ==>
         id in r && r[id].status == Deleted && r[id].additionMethod == Automatically && r[id].text == items[id].text &&
         id !in PendingView(r) && id !in CompletedView(r)) &&
      (items[id].additionMethod != Automatically ==> id !in r && r.Keys == items.Keys - {id}) &&
      forall k :: k in items && k != id ==> k in r && r[k] == items[k]
  {
  }

  // ---------------------------------------------------------------------------
  // The periodic handler's effect on the table

  /** The user prompt both models get, and the source document of every automatic insert. */
  function UserPrompt(userName: string, screenText: string): string
  {
    "Name of the User : " + userName + ".\nConversation : " + screenText
  }

  /** The row a planned insert becomes. */
  function PlannedTask(ins: Detection.Insert, prompt: string, now: Millis): Task
  {
    match ins
    case AutoTask(t) => NewTask(t, Some(prompt), Automatically, None, now)
    case FalsePositiveMarker(t) => NewTask(t, Some(prompt), Automatically, Some(FalsePositive), now)
  }

  /** The table after the planned inserts, in order, with consecutive fresh ids from `nextId`. */
  function ApplyInserts(items: map<TaskId, Task>, nextId: TaskId, plan: seq<Detection.Insert>, prompt: string, now: Millis): map<TaskId, Task>
    decreases |plan|
  {
    if plan == [] then items
    else ApplyInserts(items[nextId := PlannedTask(plan[0], prompt, now)], nextId + 1, plan[1..], prompt, now)
  }

  /** The notifications the planned inserts raise: one per task row, none for markers. */
  function PlanNotifications(plan: seq<Detection.Insert>): seq<Notification>
  {
    if plan == [] then []
    else (if plan[0].AutoTask? then [Notification(TaskAddedTitle, plan[0].text)] else []) + PlanNotifications(plan[1..])
  }

  /** One planned insert takes one fresh id. */
  lemma ApplyOne(items: map<TaskId, Task>, nextId: TaskId, x: Detection.Insert, prompt: string, now: Millis)
    ensures ApplyInserts(items, nextId, [x], prompt, now) == items[nextId := PlannedTask(x, prompt, now)]
    ensures PlanNotifications([x]) == if x.AutoTask? then [Notification(TaskAddedTitle, x.text)] else []
  {
    assert [x][1..] == [];
  }

  /** Two planned inserts take two consecutive fresh ids, in order. */
  lemma ApplyTwo(items: map<TaskId, Task>, nextId: TaskId, x: Detection.Insert, y: Detection.Insert, prompt: string, now: Millis)
    ensures ApplyInserts(items, nextId, [x, y], prompt, now) ==
      items[nextId := PlannedTask(x, prompt, now)][nextId + 1 := PlannedTask(y, prompt, now)]
    ensures PlanNotifications([x, y]) ==
      (if x.AutoTask? then [Notification(TaskAddedTitle, x.text)] else []) +
      (if y.AutoTask? then [Notification(TaskAddedTitle, y.text)] else [])
  {
    assert [x, y][1..] == [y];
    ApplyOne(items[nextId := PlannedTask(x, prompt, now)], nextId + 1, y, prompt, now);
  }

  /** A processed tick whose large model accepted a new task leaves it visible as pending, and leaves the small model's text as a hidden marker; only the task row notifies. */
  lemma AcceptedTickRows(items: map<TaskId, Task>, nextId: TaskId, t: string, a: string, prompt: string, now: Millis)
    requires forall id :: id in items ==> id < nextId
    ensures var r := ApplyInserts(items, nextId, [Detection.AutoTask(t), Detection.FalsePositiveMarker(a)], prompt, now);
      nextId in PendingView(r) && r[nextId].text == t && r[nextId].additionMethod == Automatically &&
      nextId + 1 in r && r[nextId + 1].status == FalsePositive && r[nextId + 1].text == a &&
      nextId + 1 !in PendingView(r) && nextId + 1 !in CompletedView(r) &&
      forall id :: id in items ==> id in r && r[id] == items[id]
    ensures PlanNotifications([Detection.AutoTask(t), Detection.FalsePositiveMarker(a)]) == [Notification(TaskAddedTitle, t)]
  {
    ApplyTwo(items, nextId, Detection.AutoTask(t), Detection.FalsePositiveMarker(a), prompt, now);
  }

  // ---------------------------------------------------------------------------
  // The component's state

  class TodoApp {
    /** The vector database table "tasks". */
    var items: map<TaskId, Task>
    /** The next id the database hands out. */
    var nextId: TaskId
    var notifications: seq<Notification>
    /** `lastCallTime.current`: when the handler last processed a tick. */
    var lastCallTime: Millis
    /** What the host answered to `isSlmCapable()`. */
    var slmCapable: bool
    var userName: string
    /** The text field of the "Add a new todo" input. */
    var draft: string

    ghost predicate Valid()
      reads this
    {
      forall id :: id in items ==> id < nextId
    }

    constructor(slmCapable: bool, userName: string)
      ensures Valid()
      ensures items == map[] && notifications == [] && lastCallTime == 0 && draft == ""
      ensures this.slmCapable == slmCapable && this.userName == userName
    {
      items := map[];
      nextId := 0;
      notifications := [];
      lastCallTime := 0;
      this.slmCapable := slmCapable;
      this.userName := userName;
      draft := "";
    }

    /** `addTask`: insert one row with a fresh id; notify for automatic rows that are not markers. */
    method AddTask(text: string, source: Option<string>, additionMethod: AdditionMethod, status: Option<Status>, now: Millis)
      returns (id: TaskId)
      requires Valid()
      modifies this`items, this`nextId, this`notifications
      ensures Valid()
      ensures id == old(nextId) && id !in old(items) && nextId == id + 1
      ensures items == old(items)[id := NewTask(text, source, additionMethod, status, now)]
      ensures notifications == old(notifications) +
        (if Notifies(additionMethod, status) then [Notification(TaskAddedTitle, text)] else [])
    {
      id := nextId;
      items := items[id := NewTask(text, source, additionMethod, status, now)];
      nextId := nextId + 1;
      if additionMethod == Automatically && status != Some(FalsePositive) {
        notifications := notifications + [Notification(TaskAddedTitle, text)];
      }
    }

    /** `addTodo`: a blank draft (after trimming) adds nothing; otherwise the UNTRIMMED draft is added by hand and the field is cleared. */
    method AddTodo(now: Millis)
      requires Valid()
      modifies this`items, this`nextId, this`notifications, this`draft
      ensures Valid()
      ensures AllWhitespace(old(draft)) ==>
        items == old(items) && nextId == old(nextId) && notifications == old(notifications) && draft == old(draft)
      ensures !AllWhitespace(old(draft)) ==>
        items == old(items)[old(nextId) := Task(old(draft), None, Pending, Manually, now)] &&
        nextId == old(nextId) + 1 && notifications == old(notifications) && draft == ""
    {
      TrimEmptyIff(draft);
      if Trim(draft) == "" {
        return;
      }
      var _ := AddTask(draft, None, Manually, None, now);
      draft := "";
    }

    /** The `onContext` listener: a non-empty suggestion is added semi-automatically with the screen text (if any) as source. */
    method OnContext(suggestion: Option<string>, screenText: Option<string>, now: Millis)
      requires Valid()
      modifies this`items, this`nextId, this`notifications
      ensures Valid() && notifications == old(notifications)
      ensures suggestion.None? || suggestion.value == "" ==> items == old(items) && nextId == old(nextId)
      ensures suggestion.Some? && suggestion.value != "" ==>
        var source := if screenText.Some? && screenText.value != "" then screenText else None;
        items == old(items)[old(nextId) := Task(suggestion.value, source, Pending, SemiAutomatically, now)]
    {
      if suggestion.Some? && suggestion.value != "" {
        var source := if screenText.Some? && screenText.value != "" then screenText else None;
        var _ := AddTask(suggestion.value, source, SemiAutomatically, None, now);
      }
    }

    /** `updateTodo` */
    method UpdateTodo(id: TaskId, text: string, now: Millis)
      requires Valid()
      modifies this`items
      ensures Valid()
      ensures items == AfterUpdate(old(items), id, text, now)
    {
      if id in items {
        var todo := items[id];
        items := items[id := Task(text, todo.source, todo.status, todo.additionMethod, now)];
      }
    }

    /** `toggleTodo` */
    method ToggleTodo(id: TaskId, now: Millis)
      requires Valid()
      modifies this`items
      ensures Valid()
      ensures items == AfterToggle(old(items), id, now)
    {
      var current := if id in items then Some(items[id].status) else None;
      var newStatus := NextStatus(current);
      if id in items {
        items := items[id := items[id].(status := newStatus, lastModified := now)];
      }
    }

    /** `deleteTodo` */
    method DeleteTodo(id: TaskId, now: Millis)
      requires Valid()
      modifies this`items
      ensures Valid()
      ensures items == AfterDelete(old(items), id, now)
    {
      var additionMethod := if id in items then Some(items[id].additionMethod) else None;
      if additionMethod == Some(Automatically) {
        items := items[id := items[id].(status := Deleted, lastModified := now)];
      } else {
        items := items - {id};
      }
    }

    /**
     * `onPeriodicForegroundAppCheck`. The host's answers are parameters: the screen text read
     * after the throttle, the small model's output, the top-1 search before the large model,
     * the large model's fragments, and the top-1 search on its text.
     */
    method OnPeriodicForegroundAppCheck(
      appName: string, url: Option<string>, now: Millis, screenText: string,
      slmOutput: string, firstSearch: seq<Detection.SearchMatch>,
      llmParts: seq<string>, secondSearch: seq<Detection.SearchMatch>)
      requires Valid()
      modifies this`items, this`nextId, this`notifications, this`lastCallTime
      ensures Valid()
      ensures var accepted := Detection.Accepts(slmCapable, appName, url, now, old(lastCallTime));
        var plan := if accepted then Detection.TickPlan(slmOutput, firstSearch, Detection.Join(llmParts), secondSearch).inserts else [];
        lastCallTime == (if accepted then now else old(lastCallTime)) &&
        items == ApplyInserts(old(items), old(nextId), plan, UserPrompt(userName, screenText), now) &&
        nextId == old(nextId) + |plan| &&
        notifications == old(notifications) + PlanNotifications(plan)
    {
      if !slmCapable {
        return;
      }
      if !Detection.Supported(appName, url) {
        return;
      }
      if now - lastCallTime >= Detection.ThrottleMs {
        lastCallTime := now;
        var prompt := UserPrompt(userName, screenText);
        ProcessTick(prompt, now, slmOutput, firstSearch, llmParts, secondSearch);
      }
    }

    /** The part of the handler after the throttle: both model calls, both duplicate tests and the inserts. */
    method ProcessTick(
      prompt: string, now: Millis,
      slmOutput: string, firstSearch: seq<Detection.SearchMatch>,
      llmParts: seq<string>, secondSearch: seq<Detection.SearchMatch>)
      requires Valid()
      modifies this`items, this`nextId, this`notifications
      ensures Valid()
      ensures var plan := Detection.TickPlan(slmOutput, firstSearch, Detection.Join(llmParts), secondSearch).inserts;
        items == ApplyInserts(old(items), old(nextId), plan, prompt, now) &&
        nextId == old(nextId) + |plan| &&
        notifications == old(notifications) + PlanNotifications(plan)
    {
      if !StartsWith(slmOutput, Detection.SlmPrefix) {
        return;
      }
      var taskText := ReplaceFirst(slmOutput, Detection.SlmPrefix, "");
      if Detection.IsDuplicate(firstSearch) {
        return;
      }
      var llmTask := Detection.Concatenate(llmParts);
      InsertVerdict(taskText, prompt, now, Detection.LlmVerdict(llmTask), secondSearch);
    }

    /** The inserts after the large model's answer: the accepted, new task first, then the `false_positive` row. */
    method InsertVerdict(taskText: string, prompt: string, now: Millis,
                         verdict: Option<string>, secondSearch: seq<Detection.SearchMatch>)
      requires Valid()
      modifies this`items, this`nextId, this`notifications
      ensures Valid()
      ensures var plan := Detection.TickInserts(verdict, secondSearch, taskText);
        items == ApplyInserts(old(items), old(nextId), plan, prompt, now) &&
        nextId == old(nextId) + |plan| &&
        notifications == old(notifications) + PlanNotifications(plan)
    {
      var marker := Detection.FalsePositiveMarker(taskText);
      if verdict.Some? && !Detection.IsDuplicate(secondSearch) {
        var task := Detection.AutoTask(verdict.value);
        assert Detection.TickInserts(verdict, secondSearch, taskText) == [task, marker];
        ApplyTwo(items, nextId, task, marker, prompt, now);
        var _ := AddTask(verdict.value, Some(prompt), Automatically, None, now);
      } else {
        assert Detection.TickInserts(verdict, secondSearch, taskText) == [marker];
        ApplyOne(items, nextId, marker, prompt, now);
      }
      var _ := AddTask(taskText, Some(prompt), Automatically, Some(FalsePositive), now);
    }
  }
}
