/**
 * The reminder collection of components/providers/RemindersProvider.tsx: adding, removing,
 * merge-updating, dismissing and snoozing reminders, the once-a-minute due check, the task
 * text lookup and the guard that keeps the collection from being saved before it is loaded.
 *
 * The host's key/value storage entry 'reminders' is the `storage` field; a write that throws
 * is the `writeOk = false` case of each operation. Times are milliseconds.
 */
module Reminders {
  import opened Wrappers
  import Todo

  type ReminderId = string

  datatype ReminderType = Custom | OneHourBefore | OneDayBefore | AtDueTime
  datatype ReminderStatus = Pending | Sent | Dismissed | Snoozed

  datatype Reminder = Reminder(
    id: ReminderId, taskId: Todo.TaskId, time: Millis, kind: ReminderType, status: ReminderStatus,
    lastNotified: Option<Millis>, snoozeUntil: Option<Millis>)

  /**
   * A `Partial<Reminder>`: `None` is a key the object does not have. The two optional fields
   * can also be present with the value `undefined` (`Some(None)`), which the spread copies.
   */
  datatype Patch = Patch(
    id: Option<ReminderId>, taskId: Option<Todo.TaskId>, time: Option<Millis>, kind: Option<ReminderType>,
    status: Option<ReminderStatus>, lastNotified: Option<Option<Millis>>, snoozeUntil: Option<Option<Millis>>)

  /** What the storage entry 'reminders' holds when it is read. */
  datatype Stored = Missing | NotAnArray | ReminderArray(items: seq<Reminder>) | Unreadable

  const NoChange: Patch := Patch(None, None, None, None, None, None, None)
  /** The fixed snooze shift of a reminder's due time. */
  const SnoozeMs: Millis := 15 * 60 * 1000
  /** Minimum gap between two due checks. */
  const CheckIntervalMs: Millis := 60000
  const UnknownTask: string := "Unknown task"
  const ReminderTitle: string := "Task Reminder"

  // ---------------------------------------------------------------------------
  // Collection operations

  /** The reminder `addReminder` creates. */
  function NewReminder(id: ReminderId, taskId: Todo.TaskId, time: Millis, kind: ReminderType): Reminder
  {
    Reminder(id, taskId, time, kind, Pending, None, None)
  }

  /** `{ ...r, ...updates }` */
  function Merge(r: Reminder, p: Patch): Reminder
  {
    Reminder(p.id.GetOr(r.id), p.taskId.GetOr(r.taskId), p.time.GetOr(r.time), p.kind.GetOr(r.kind),
             p.status.GetOr(r.status), p.lastNotified.GetOr(r.lastNotified), p.snoozeUntil.GetOr(r.snoozeUntil))
  }

  /** An empty patch changes nothing, and applying a patch twice is applying it once. */
  lemma MergeLaws(r: Reminder, p: Patch)
    ensures Merge(r, NoChange) == r
    ensures Merge(Merge(r, p), p) == Merge(r, p)
    ensures p.lastNotified == Some(None) ==> Merge(r, p).lastNotified.None?
  {
  }

  /** `reminders.filter(r => r.id !== id)` */
  function Removed(rs: seq<Reminder>, id: ReminderId): (out: seq<Reminder>)
    ensures |out| <= |rs|
  {
    if rs == [] then [] else (if rs[0].id == id then [] else [rs[0]]) + Removed(rs[1..], id)
  }

  /** `reminders.map(r => r.id === id ? { ...r, ...updates } : r)` */
  function Updated(rs: seq<Reminder>, id: ReminderId, p: Patch): seq<Reminder>
  {
    seq(|rs|, i requires 0 <= i < |rs| => if rs[i].id == id then Merge(rs[i], p) else rs[i])
  }

  /** `reminders.find(r => r.id === id)`: the first reminder with that id. */
  function FindById(rs: seq<Reminder>, id: ReminderId): (r: Option<Reminder>)
    ensures r.Some? ==> exists i :: 0 <= i < |rs| && rs[i] == r.value && r.value.id == id &&
                                    forall j :: 0 <= j < i ==> rs[j].id != id
    ensures r.None? ==> forall i :: 0 <= i < |rs| ==> rs[i].id != id
  {
    if rs == [] then None
    else if rs[0].id == id then Some(rs[0])
    else
      var r := FindById(rs[1..], id);
      if r.Some? then
        var i :| 0 <= i < |rs[1..]| && rs[1..][i] == r.value && r.value.id == id &&
                 forall j :: 0 <= j < i ==> rs[1..][j].id != id;
        assert rs[i + 1] == r.value;
        r
      else r
  }

  /** The patch `snoozeReminder` sends: snoozed, until the given instant, due 15 minutes after `time`, never notified. */
  function SnoozePatch(time: Millis, snoozeUntil: Millis): Patch
  {
    Patch(None, None, Some(time + SnoozeMs), None, Some(Snoozed), Some(None), Some(Some(snoozeUntil)))
  }

  /** `snoozeReminder`: an unknown id changes nothing; otherwise the patch computed from the first match goes to every match. */
  function AfterSnooze(rs: seq<Reminder>, id: ReminderId, snoozeUntil: Millis): seq<Reminder>
  {
    match FindById(rs, id)
    case None => rs
    case Some(r) => Updated(rs, id, SnoozePatch(r.time, snoozeUntil))
  }

  predicate UniqueIds(rs: seq<Reminder>)
  {
    forall i, j :: 0 <= i < j < |rs| ==> rs[i].id != rs[j].id
  }

  /** Filtering commutes with concatenation: the kept entries keep their relative order. */
  lemma {:induction false} RemovedAppend(a: seq<Reminder>, b: seq<Reminder>, id: ReminderId)
    ensures Removed(a + b, id) == Removed(a, id) + Removed(b, id)
  {
    if a == [] {
      assert a + b == b;
    } else {
      var head := if a[0].id == id then [] else [a[0]];
      assert (a + b)[0] == a[0];
      assert (a + b)[1..] == a[1..] + b;
      assert Removed(a + b, id) == head + Removed(a[1..] + b, id);
      RemovedAppend(a[1..], b, id);
      assert head + (Removed(a[1..], id) + Removed(b, id)) == (head + Removed(a[1..], id)) + Removed(b, id);
    }
  }

  /** Removing drops every entry with the id and keeps every other entry as often as it occurred. */
  lemma {:induction false} RemovedCounts(rs: seq<Reminder>, id: ReminderId, r: Reminder)
    ensures multiset(Removed(rs, id))[r] == if r.id == id then 0 else multiset(rs)[r]
  {
    if rs != [] {
      RemovedCounts(rs[1..], id, r);
      var head := if rs[0].id == id then [] else [rs[0]];
      assert rs == [rs[0]] + rs[1..];
      assert multiset(rs) == multiset([rs[0]]) + multiset(rs[1..]);
      assert multiset(Removed(rs, id)) == multiset(head) + multiset(Removed(rs[1..], id));
    }
  }

  /** Removing an id nothing carries changes nothing. */
  lemma {:induction false} RemovedAbsent(rs: seq<Reminder>, id: ReminderId)
    requires forall i :: 0 <= i < |rs| ==> rs[i].id != id
    ensures Removed(rs, id) == rs
  {
    if rs != [] {
      RemovedAbsent(rs[1..], id);
      assert rs == [rs[0]] + rs[1..];
    }
  }

  /** Adding a reminder with a fresh id and removing it again restores the collection. */
  lemma AddThenRemove(rs: seq<Reminder>, id: ReminderId, taskId: Todo.TaskId, time: Millis, kind: ReminderType)
    requires forall i :: 0 <= i < |rs| ==> rs[i].id != id
    ensures Removed(rs + [NewReminder(id, taskId, time, kind)], id) == rs
  {
    RemovedAppend(rs, [NewReminder(id, taskId, time, kind)], id);
    RemovedAbsent(rs, id);
    assert [NewReminder(id, taskId, time, kind)][1..] == [];
  }

  /** Updating entries and then removing them is removing them, when the patch keeps the id. */
  lemma {:induction false} UpdateThenRemove(rs: seq<Reminder>, id: ReminderId, p: Patch)
    requires p.id.None?
    ensures Removed(Updated(rs, id, p), id) == Removed(rs, id)
  {
    if rs != [] {
      UpdateThenRemove(rs[1..], id, p);
      assert Updated(rs, id, p)[1..] == Updated(rs[1..], id, p);
    }
  }

  /** With unique ids, looking up an entry's id finds that entry. */
  lemma FindUnique(rs: seq<Reminder>, k: nat)
    requires UniqueIds(rs) && k < |rs|
    ensures FindById(rs, rs[k].id) == Some(rs[k])
  {
    var r := FindById(rs, rs[k].id);
    var i :| 0 <= i < |rs| && rs[i] == r.value && r.value.id == rs[k].id && forall j :: 0 <= j < i ==> rs[j].id != rs[k].id;
    assert i == k;
  }

  /** A patch without an id keeps every entry's id, so unique ids stay unique. */
  lemma UpdatedKeepsIds(rs: seq<Reminder>, id: ReminderId, p: Patch)
    requires p.id.None?
    ensures |Updated(rs, id, p)| == |rs|
    ensures forall j :: 0 <= j < |rs| ==> Updated(rs, id, p)[j].id == rs[j].id
    ensures UniqueIds(rs) ==> UniqueIds(Updated(rs, id, p))
  {
  }

  /** Snoozing a reminder with a unique id: it becomes snoozed until the given instant, due 15 minutes later than before, not yet notified; nothing else changes. */
  lemma SnoozeEffect(rs: seq<Reminder>, k: nat, snoozeUntil: Millis)
    requires UniqueIds(rs) && k < |rs|
    ensures var out := AfterSnooze(rs, rs[k].id, snoozeUntil);
      |out| == |rs| && UniqueIds(out) &&
      out[k] == rs[k].(status := Snoozed, snoozeUntil := Some(snoozeUntil), time := rs[k].time + SnoozeMs, lastNotified := None) &&
      forall j :: 0 <= j < |rs| && j != k ==> out[j] == rs[j]
  {
    FindUnique(rs, k);
    var p := SnoozePatch(rs[k].time, snoozeUntil);
    assert AfterSnooze(rs, rs[k].id, snoozeUntil) == Updated(rs, rs[k].id, p);
    UpdatedKeepsIds(rs, rs[k].id, p);
  }

  /** Snoozing an id nothing carries changes nothing. */
  lemma SnoozeUnknown(rs: seq<Reminder>, id: ReminderId, snoozeUntil: Millis)
    requires forall i :: 0 <= i < |rs| ==> rs[i].id != id
    ensures AfterSnooze(rs, id, snoozeUntil) == rs
  {
  }

  /** Snoozing twice shifts the due time by two snooze periods: each call adds to the current time. */
  lemma SnoozeTwice(rs: seq<Reminder>, k: nat, u1: Millis, u2: Millis)
    requires UniqueIds(rs) && k < |rs|
    ensures AfterSnooze(AfterSnooze(rs, rs[k].id, u1), rs[k].id, u2)[k].time == rs[k].time + 2 * SnoozeMs
  {
    SnoozeEffect(rs, k, u1);
    SnoozeEffect(AfterSnooze(rs, rs[k].id, u1), k, u2);
  }

  // ---------------------------------------------------------------------------
  // The due check

  /** Not dismissed, and a snoozed reminder only once its snooze instant is known and reached. */
  predicate Eligible(r: Reminder, now: Millis)
  {
    r.status != Dismissed && (r.status == Snoozed ==> r.snoozeUntil.Some? && r.snoozeUntil.value <= now)
  }

  /** The check notifies for `r` at `now`: eligible, due, and not yet notified for this due instant. */
  predicate Fires(r: Reminder, now: Millis)
  {
    Eligible(r, now) && r.time <= now && (r.lastNotified.None? || r.lastNotified.value < r.time)
  }

  /** `k` is the position `findIndex` returns for `rs[k].id`. */
  predicate FirstOfItsId(rs: seq<Reminder>, k: int)
    requires 0 <= k < |rs|
  {
    forall j :: 0 <= j < k ==> rs[j].id != rs[k].id
  }

  predicate SomeFires(rs: seq<Reminder>, id: ReminderId, now: Millis)
  {
    exists i :: 0 <= i < |rs| && rs[i].id == id && Fires(rs[i], now)
  }

  function Stamp(r: Reminder, now: Millis): Reminder
  {
    r.(lastNotified := Some(now))
  }

  /**
   * The collection after a check at `now`: the first entry of each id gets `lastNotified = now`
   * when some entry with that id fires; every other entry is unchanged.
   */
  function Checked(rs: seq<Reminder>, now: Millis): seq<Reminder>
  {
    seq(|rs|, k requires 0 <= k < |rs| =>
      if FirstOfItsId(rs, k) && SomeFires(rs, rs[k].id, now) then Stamp(rs[k], now) else rs[k])
  }

  /** The body of the reminder notification (`tasks[taskId]` prints as "undefined" when missing). */
  function DueNotice(r: Reminder, tasks: map<Todo.TaskId, string>): Todo.Notification
  {
    var text := if r.taskId in tasks then tasks[r.taskId] else "undefined";
    Todo.Notification(ReminderTitle, "\"" + text + "\" is due " + (if r.kind == AtDueTime then "now" else "soon") + "!")
  }

  /** One notification per firing reminder, in collection order. */
  function DueNotices(rs: seq<Reminder>, now: Millis, tasks: map<Todo.TaskId, string>): seq<Todo.Notification>
  {
    if rs == [] then []
    else
      var last := rs[|rs| - 1];
      DueNotices(rs[..|rs| - 1], now, tasks) + (if Fires(last, now) then [DueNotice(last, tasks)] else [])
  }

  /** `array.findIndex(r => r.id === id)` */
  function FindIndex(rs: seq<Reminder>, id: ReminderId): (i: int)
    ensures -1 <= i < |rs|
    ensures i >= 0 ==> rs[i].id == id && forall j :: 0 <= j < i ==> rs[j].id != id
    ensures i == -1 ==> forall j :: 0 <= j < |rs| ==> rs[j].id != id
  {
    if rs == [] then -1
    else if rs[0].id == id then 0
    else
      var k := FindIndex(rs[1..], id);
      if k == -1 then -1 else k + 1
  }

  lemma SomeFiresExtend(rs: seq<Reminder>, i: nat, now: Millis)
    requires i < |rs|
    ensures forall id :: SomeFires(rs[..i + 1], id, now) <==>
      SomeFires(rs[..i], id, now) || (rs[i].id == id && Fires(rs[i], now))
  {
    forall id ensures SomeFires(rs[..i + 1], id, now) <==> SomeFires(rs[..i], id, now) || (rs[i].id == id && Fires(rs[i], now)) {
      if SomeFires(rs[..i + 1], id, now) {
        var j :| 0 <= j < i + 1 && rs[..i + 1][j].id == id && Fires(rs[..i + 1][j], now);
        if j < i { assert rs[..i][j] == rs[j]; }
      }
      if SomeFires(rs[..i], id, now) {
        var j :| 0 <= j < i && rs[..i][j].id == id && Fires(rs[..i][j], now);
        assert rs[..i + 1][j] == rs[j];
      }
      if rs[i].id == id && Fires(rs[i], now) {
        assert rs[..i + 1][i] == rs[i];
      }
    }
  }

  /** The collection once the check has looked at the first `i` entries. */
  function CheckedUpTo(rs: seq<Reminder>, i: nat, now: Millis): seq<Reminder>
    requires i <= |rs|
  {
    seq(|rs|, k requires 0 <= k < |rs| =>
      if FirstOfItsId(rs, k) && SomeFires(rs[..i], rs[k].id, now) then Stamp(rs[k], now) else rs[k])
  }

  /** Looking at an entry that does not fire changes nothing. */
  lemma CheckStepQuiet(rs: seq<Reminder>, i: nat, now: Millis)
    requires i < |rs| && !Fires(rs[i], now)
    ensures CheckedUpTo(rs, i + 1, now) == CheckedUpTo(rs, i, now)
  {
    SomeFiresExtend(rs, i, now);
  }

  /** Looking at an entry that fires stamps the first entry carrying its id, which `findIndex` locates. */
  lemma CheckStepFires(rs: seq<Reminder>, i: nat, now: Millis)
    requires i < |rs| && Fires(rs[i], now)
    ensures var before := CheckedUpTo(rs, i, now);
      var index := FindIndex(before, rs[i].id);
      0 <= index < |rs| && CheckedUpTo(rs, i + 1, now) == before[index := Stamp(before[index], now)]
  {
    var before := CheckedUpTo(rs, i, now);
    var index := FindIndex(before, rs[i].id);
    assert before[i].id == rs[i].id;
    assert 0 <= index;
    assert FirstOfItsId(rs, index) && rs[index].id == rs[i].id by {
      forall j | 0 <= j < index ensures rs[j].id != rs[index].id {
        assert before[j].id == rs[j].id;
      }
    }
    SomeFiresExtend(rs, i, now);
    var after := CheckedUpTo(rs, i + 1, now);
    forall k | 0 <= k < |rs| ensures after[k] == before[index := Stamp(before[index], now)][k] {
      assert before[k].id == rs[k].id;
    }
  }

  predicate AnyFires(rs: seq<Reminder>, now: Millis)
  {
    exists j :: 0 <= j < |rs| && Fires(rs[j], now)
  }

  lemma AnyFiresStep(rs: seq<Reminder>, i: nat, now: Millis)
    requires i < |rs|
    ensures AnyFires(rs[..i + 1], now) <==> AnyFires(rs[..i], now) || Fires(rs[i], now)
  {
    if AnyFires(rs[..i + 1], now) {
      var j :| 0 <= j < i + 1 && Fires(rs[..i + 1][j], now);
      if j < i { assert rs[..i][j] == rs[j]; }
    }
    if AnyFires(rs[..i], now) {
      var j :| 0 <= j < i && Fires(rs[..i][j], now);
      assert rs[..i + 1][j] == rs[j];
    }
    if Fires(rs[i], now) {
      assert rs[..i + 1][i] == rs[i];
    }
  }

  lemma DueNoticesStep(rs: seq<Reminder>, i: nat, now: Millis, tasks: map<Todo.TaskId, string>)
    requires i < |rs|
    ensures DueNotices(rs[..i + 1], now, tasks) ==
      DueNotices(rs[..i], now, tasks) + (if Fires(rs[i], now) then [DueNotice(rs[i], tasks)] else [])
  {
    assert rs[..i + 1][..i] == rs[..i];
  }

  /**
   * The loop of `checkReminders`: it walks the collection, skips dismissed reminders and
   * snoozed ones whose snooze is unknown or still running, notifies for each due and
   * not-yet-notified reminder, and stamps the entry `findIndex` locates in the copy.
   */
  method CheckDue(rs: seq<Reminder>, now: Millis, tasks: map<Todo.TaskId, string>)
    returns (updated: seq<Reminder>, notices: seq<Todo.Notification>, hasUpdates: bool)
    ensures updated == Checked(rs, now)
    ensures notices == DueNotices(rs, now, tasks)
    ensures hasUpdates <==> exists i :: 0 <= i < |rs| && Fires(rs[i], now)
  {
    updated := rs;
    notices := [];
    hasUpdates := false;
    for i := 0 to |rs|
      invariant updated == CheckedUpTo(rs, i, now)
      invariant notices == DueNotices(rs[..i], now, tasks)
      invariant hasUpdates == AnyFires(rs[..i], now)
    {
      var reminder := rs[i];
      DueNoticesStep(rs, i, now, tasks);
      AnyFiresStep(rs, i, now);
      if reminder.status == Dismissed {
        CheckStepQuiet(rs, i, now);
        continue;
      }
      if reminder.status == Snoozed {
        if reminder.snoozeUntil.None? || reminder.snoozeUntil.value > now {
          CheckStepQuiet(rs, i, now);
          continue;
        }
      }
      var dueTime := reminder.time;
      if dueTime <= now && (reminder.lastNotified.None? || reminder.lastNotified.value < dueTime) {
        CheckStepFires(rs, i, now);
        notices := notices + [DueNotice(reminder, tasks)];
        var index := FindIndex(updated, reminder.id);
        if index != -1 {
          updated := updated[index := updated[index].(lastNotified := Some(now))];
          hasUpdates := true;
        } else {
          assert false;
        }
      } else {
        CheckStepQuiet(rs, i, now);
      }
    }
    assert rs[..|rs|] == rs;
  }

  /** A check only sets `lastNotified`, and only to `now`; length, order and every other field are kept. */
  lemma CheckedOnlyStamps(rs: seq<Reminder>, now: Millis)
    ensures |Checked(rs, now)| == |rs|
    ensures forall k :: 0 <= k < |rs| ==>
      Checked(rs, now)[k] == rs[k].(lastNotified := Checked(rs, now)[k].lastNotified) &&
      (Checked(rs, now)[k].lastNotified == rs[k].lastNotified || Checked(rs, now)[k].lastNotified == Some(now))
  {
  }

  /** With unique ids, exactly the firing reminders are stamped. */
  lemma CheckedUnique(rs: seq<Reminder>, now: Millis)
    requires UniqueIds(rs)
    ensures |Checked(rs, now)| == |rs|
    ensures forall k :: 0 <= k < |rs| ==>
      Checked(rs, now)[k] == if Fires(rs[k], now) then Stamp(rs[k], now) else rs[k]
  {
    forall k | 0 <= k < |rs|
      ensures Checked(rs, now)[k] == if Fires(rs[k], now) then Stamp(rs[k], now) else rs[k]
    {
      if SomeFires(rs, rs[k].id, now) {
        var i :| 0 <= i < |rs| && rs[i].id == rs[k].id && Fires(rs[i], now);
        assert i == k;
      }
    }
  }

  /**
   * With unique ids, a check cannot fire twice for the same due instant: right after a check
   * nothing fires at the same `now`, and a reminder that fired never fires again while its due
   * time stays the same.
   */
  lemma NoRefire(rs: seq<Reminder>, now: Millis)
    requires UniqueIds(rs)
    ensures forall k :: 0 <= k < |rs| ==> !Fires(Checked(rs, now)[k], now)
    ensures forall k, later :: 0 <= k < |rs| && Fires(rs[k], now) ==> !Fires(Checked(rs, now)[k], later)
  {
    CheckedUnique(rs, now);
  }

  /**
   * Without unique ids the stamp lands only on the first entry of an id: a later entry with the
   * same id that fires is left as it was, so it fires again at every following check.
   */
  lemma DuplicateIdRefires(rs: seq<Reminder>, j: nat, k: nat, now: Millis, later: Millis)
    requires j < k < |rs| && rs[j].id == rs[k].id
    requires Fires(rs[k], now) && now <= later
    ensures Checked(rs, now)[k] == rs[k]
    ensures Fires(Checked(rs, now)[k], later)
  {
  }

  /** A check in which nothing fires leaves the collection as it was. */
  lemma CheckIdle(rs: seq<Reminder>, now: Millis)
    requires forall i :: 0 <= i < |rs| ==> !Fires(rs[i], now)
    ensures Checked(rs, now) == rs
  {
  }

  /** A snoozed reminder cannot fire before its snooze instant (or without one) and is eligible from that instant on. */
  lemma SnoozeHolds(r: Reminder, now: Millis)
    requires r.status == Snoozed
    ensures r.snoozeUntil.None? || now < r.snoozeUntil.value ==> !Fires(r, now)
    ensures r.snoozeUntil.Some? && now >= r.snoozeUntil.value ==> Eligible(r, now)
  {
  }

  // ---------------------------------------------------------------------------
  // Lookup and loading

  /** `tasks[taskId] || 'Unknown task'`: a missing or empty text reads as "Unknown task". */
  function TaskText(tasks: map<Todo.TaskId, string>, taskId: Todo.TaskId): (text: string)
    ensures text != ""
    ensures taskId !in tasks ==> text == UnknownTask
    ensures taskId in tasks ==> text == tasks[taskId] || (tasks[taskId] == "" && text == UnknownTask)
  {
    if taskId in tasks && tasks[taskId] != "" then tasks[taskId] else UnknownTask
  }

  /** `Array.isArray(stored) ? stored : []`, with a failed read also giving `[]`. */
  function Loaded(v: Stored): seq<Reminder>
  {
    if v.ReminderArray? then v.items else []
  }

  class RemindersProvider {
    var reminders: seq<Reminder>
    var lastCheckTime: Millis
    /** Task id to text, reloaded from the task table. */
    var tasks: map<Todo.TaskId, string>
    var isInitialized: bool
    /** The storage entry 'reminders'. */
    var storage: Stored
    var notifications: seq<Todo.Notification>

    constructor(stored: Stored)
      ensures reminders == [] && lastCheckTime == 0 && tasks == map[] && !isInitialized
      ensures storage == stored && notifications == []
    {
      reminders := [];
      lastCheckTime := 0;
      tasks := map[];
      isInitialized := false;
      storage := stored;
      notifications := [];
    }

    /** The mount-time load. */
    method LoadReminders()
      modifies this`reminders, this`isInitialized
      ensures reminders == Loaded(storage) && isInitialized
    {
      if storage.ReminderArray? {
        reminders := storage.items;
      } else {
        reminders := [];
      }
      isInitialized := true;
    }

    /** The save effect: suppressed until the first load has completed. */
    method SaveReminders(writeOk: bool)
      modifies this`storage
      ensures storage == if isInitialized && writeOk then ReminderArray(reminders) else old(storage)
    {
      if !isInitialized {
        return;
      }
      if writeOk {
        storage := ReminderArray(reminders);
      }
    }

    method LoadTasks(all: map<Todo.TaskId, string>)
      modifies this`tasks
      ensures tasks == all
    {
      tasks := all;
    }

    /** `getTaskText` */
    function GetTaskText(taskId: Todo.TaskId): string
      reads this
    {
      TaskText(tasks, taskId)
    }

    /**
     * `addReminder`: append one pending reminder, write the collection, reload the task texts.
     * `taskTable` is the task table the reload reads, `None` when that read throws; the error is
     * then caught after the collection has already been written.
     */
    method AddReminder(id: ReminderId, taskId: Todo.TaskId, time: Millis, kind: ReminderType,
                       writeOk: bool, taskTable: Option<map<Todo.TaskId, string>>)
      modifies this`reminders, this`storage, this`tasks
      ensures writeOk ==> reminders == old(reminders) + [NewReminder(id, taskId, time, kind)] &&
                          storage == ReminderArray(reminders) &&
                          tasks == if taskTable.Some? then taskTable.value else old(tasks)
      ensures !writeOk ==> reminders == old(reminders) && storage == old(storage) && tasks == old(tasks)
    {
      var updatedReminders := reminders + [NewReminder(id, taskId, time, kind)];
      if !writeOk {
        return;
      }
      storage := ReminderArray(updatedReminders);
      reminders := updatedReminders;
      if taskTable.Some? {
        LoadTasks(taskTable.value);
      }
    }

    /** `removeReminder` */
    method RemoveReminder(id: ReminderId, writeOk: bool)
      modifies this`reminders, this`storage
      ensures writeOk ==> reminders == Removed(old(reminders), id) && storage == ReminderArray(reminders)
      ensures !writeOk ==> reminders == old(reminders) && storage == old(storage)
    {
      var updatedReminders := Removed(reminders, id);
      if !writeOk {
        return;
      }
      storage := ReminderArray(updatedReminders);
      reminders := updatedReminders;
    }

    /** `updateReminder` */
    method UpdateReminder(id: ReminderId, updates: Patch, writeOk: bool)
      modifies this`reminders, this`storage
      ensures writeOk ==> reminders == Updated(old(reminders), id, updates) && storage == ReminderArray(reminders)
      ensures !writeOk ==> reminders == old(reminders) && storage == old(storage)
    {
      var updatedReminders := Updated(reminders, id, updates);
      if !writeOk {
        return;
      }
      storage := ReminderArray(updatedReminders);
      reminders := updatedReminders;
    }

    /** `dismissReminder` is a removal. */
    method DismissReminder(id: ReminderId, writeOk: bool)
      modifies this`reminders, this`storage
      ensures writeOk ==> reminders == Removed(old(reminders), id) && storage == ReminderArray(reminders)
      ensures !writeOk ==> reminders == old(reminders) && storage == old(storage)
    {
      RemoveReminder(id, writeOk);
    }

    /** `snoozeReminder`: nothing at all for an unknown id; otherwise an update with the snooze patch. */
    method SnoozeReminder(id: ReminderId, snoozeUntil: Millis, writeOk: bool)
      modifies this`reminders, this`storage
      ensures reminders == if writeOk then AfterSnooze(old(reminders), id, snoozeUntil) else old(reminders)
      ensures storage == if writeOk && FindById(old(reminders), id).Some? then ReminderArray(reminders) else old(storage)
    {
      var reminder := FindById(reminders, id);
      if reminder.None? {
        return;
      }
      var newDueTime := reminder.value.time + SnoozeMs;
      UpdateReminder(id, Patch(None, None, Some(newDueTime), None, Some(Snoozed), Some(None), Some(Some(snoozeUntil))), writeOk);
    }

    /** `checkReminders`: at most once a minute; stamps and notifies the firing reminders. */
    method CheckReminders(now: Millis)
      modifies this`lastCheckTime, this`reminders, this`notifications
      ensures old(now - lastCheckTime) >= CheckIntervalMs ==>
        lastCheckTime == now && reminders == Checked(old(reminders), now) &&
        notifications == old(notifications) + DueNotices(old(reminders), now, tasks)
      ensures old(now - lastCheckTime) < CheckIntervalMs ==>
        lastCheckTime == old(lastCheckTime) && reminders == old(reminders) && notifications == old(notifications)
    {
      if now - lastCheckTime >= CheckIntervalMs {
        lastCheckTime := now;
        var updatedReminders, notices, hasUpdates := CheckDue(reminders, now, tasks);
        notifications := notifications + notices;
        if hasUpdates {
          reminders := updatedReminders;
        } else {
          CheckIdle(reminders, now);
        }
      }
    }
  }
}
