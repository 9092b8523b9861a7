/**
 * The reminder list of components/reminders-view.tsx: the minutes left on each running snooze,
 * the overdue flag, the snooze button's disabled rule and snooze action, the type labels and
 * the rows the card shows.
 */
module RemindersView {
  import opened Wrappers
  import Todo
  import Reminders

  const MinuteMs: Millis := 60000
  /** The minutes shown right after a snooze. */
  const SnoozeMinutes: int := 15

  /** `differenceInMinutes(later, earlier)`: whole minutes, the fraction truncated toward zero. */
  function MinutesBetween(later: Millis, earlier: Millis): int
  {
    var d := later - earlier;
    if d >= 0 then d / MinuteMs else -((-d) / MinuteMs)
  }

  /** A positive minute count means at least one whole minute to go. */
  lemma MinutesPositiveIff(later: Millis, earlier: Millis)
    ensures MinutesBetween(later, earlier) > 0 <==> later - earlier >= MinuteMs
    ensures MinutesBetween(earlier + SnoozeMinutes * MinuteMs, earlier) == SnoozeMinutes
  {
  }

  /** A reminder that gets an entry in the minutes-left map: snoozed, with a snooze instant at least a minute away. */
  predicate Counted(r: Reminders.Reminder, now: Millis)
  {
    r.status == Reminders.Snoozed && r.snoozeUntil.Some? && MinutesBetween(r.snoozeUntil.value, now) > 0
  }

  /**
   * The map `updateTimeLeft` builds: reminder id to minutes left on its snooze; when several
   * entries share an id the last one counted wins.
   */
  function TimeLeft(rs: seq<Reminders.Reminder>, now: Millis): (m: map<Reminders.ReminderId, int>)
    ensures forall id :: id in m ==>
      m[id] > 0 &&
      exists i :: 0 <= i < |rs| && rs[i].id == id && Counted(rs[i], now) &&
                  m[id] == MinutesBetween(rs[i].snoozeUntil.value, now)
    ensures forall i :: 0 <= i < |rs| && Counted(rs[i], now) ==> rs[i].id in m
  {
    if rs == [] then map[]
    else
      var init := rs[..|rs| - 1];
      var last := rs[|rs| - 1];
      var m := TimeLeft(init, now);
      assert forall i :: 0 <= i < |init| ==> init[i] == rs[i];
      if Counted(last, now) then m[last.id := MinutesBetween(last.snoozeUntil.value, now)] else m
  }

  /** The loop of `updateTimeLeft`, filling a fresh dictionary one reminder at a time. */
  method ComputeTimeLeft(rs: seq<Reminders.Reminder>, now: Millis) returns (newTimeLeft: map<Reminders.ReminderId, int>)
    ensures newTimeLeft == TimeLeft(rs, now)
  {
    newTimeLeft := map[];
    for i := 0 to |rs|
      invariant newTimeLeft == TimeLeft(rs[..i], now)
    {
      var reminder := rs[i];
      assert rs[..i + 1][..i] == rs[..i];
      if reminder.status == Reminders.Snoozed && reminder.snoozeUntil.Some? {
        var minutes := MinutesBetween(reminder.snoozeUntil.value, now);
        if minutes > 0 {
          newTimeLeft := newTimeLeft[reminder.id := minutes];
        }
      }
    }
    assert rs[..|rs|] == rs;
  }

  /** With unique ids, a counted reminder's entry is its own minutes left, and an uncounted one has none. */
  lemma TimeLeftUnique(rs: seq<Reminders.Reminder>, k: nat, now: Millis)
    requires Reminders.UniqueIds(rs) && k < |rs|
    ensures Counted(rs[k], now) ==> TimeLeft(rs, now)[rs[k].id] == MinutesBetween(rs[k].snoozeUntil.value, now)
    ensures !Counted(rs[k], now) ==> rs[k].id !in TimeLeft(rs, now)
  {
  }

  /** `isOverdue`: the due time is past and there is no nonzero minutes-left entry. */
  predicate IsOverdue(r: Reminders.Reminder, now: Millis, timeLeft: map<Reminders.ReminderId, int>)
  {
    r.time < now && (r.id !in timeLeft || timeLeft[r.id] == 0)
  }

  /** `disabled={timeLeft[id] > 0}` on the snooze button. */
  predicate SnoozeDisabled(timeLeft: map<Reminders.ReminderId, int>, id: Reminders.ReminderId)
  {
    id in timeLeft && timeLeft[id] > 0
  }

  /** Against the map the view computes, a reminder is overdue iff it is past due and no entry with its id is on a running snooze. */
  lemma OverdueIff(rs: seq<Reminders.Reminder>, r: Reminders.Reminder, now: Millis)
    ensures IsOverdue(r, now, TimeLeft(rs, now)) <==>
      r.time < now && forall i :: 0 <= i < |rs| && rs[i].id == r.id ==> !Counted(rs[i], now)
  {
  }

  /** The snooze button is disabled iff some entry with the id is snoozed at least a minute past now. */
  lemma SnoozeDisabledIff(rs: seq<Reminders.Reminder>, id: Reminders.ReminderId, now: Millis)
    ensures SnoozeDisabled(TimeLeft(rs, now), id) <==>
      exists i :: 0 <= i < |rs| && rs[i].id == id && rs[i].status == Reminders.Snoozed &&
                  rs[i].snoozeUntil.Some? && rs[i].snoozeUntil.value - now >= MinuteMs
  {
    forall i | 0 <= i < |rs| && rs[i].snoozeUntil.Some?
      ensures MinutesBetween(rs[i].snoozeUntil.value, now) > 0 <==> rs[i].snoozeUntil.value - now >= MinuteMs
    {
      MinutesPositiveIff(rs[i].snoozeUntil.value, now);
    }
  }

  /**
   * At the snooze instant itself, the map recomputed from the snoozed collection shows 15 minutes
   * for that reminder, as the button did.
   */
  lemma SnoozeShowsFifteen(rs: seq<Reminders.Reminder>, k: nat, now: Millis)
    requires Reminders.UniqueIds(rs) && k < |rs|
    ensures var after := Reminders.AfterSnooze(rs, rs[k].id, now + Reminders.SnoozeMs);
      rs[k].id in TimeLeft(after, now) && TimeLeft(after, now)[rs[k].id] == SnoozeMinutes
  {
    var after := Reminders.AfterSnooze(rs, rs[k].id, now + Reminders.SnoozeMs);
    Reminders.SnoozeEffect(rs, k, now + Reminders.SnoozeMs);
    MinutesPositiveIff(now, now);
    TimeLeftUnique(after, k, now);
  }

  /**
   * The recompute runs only once the snooze has been written, some `d` milliseconds later; within
   * the first minute the truncated count then already shows 14.
   */
  lemma SnoozeShowsFourteenLater(rs: seq<Reminders.Reminder>, k: nat, now: Millis, d: int)
    requires Reminders.UniqueIds(rs) && k < |rs|
    requires 0 < d <= MinuteMs
    ensures var after := Reminders.AfterSnooze(rs, rs[k].id, now + Reminders.SnoozeMs);
      rs[k].id in TimeLeft(after, now + d) && TimeLeft(after, now + d)[rs[k].id] == SnoozeMinutes - 1
  {
    var after := Reminders.AfterSnooze(rs, rs[k].id, now + Reminders.SnoozeMs);
    Reminders.SnoozeEffect(rs, k, now + Reminders.SnoozeMs);
    assert MinutesBetween(now + Reminders.SnoozeMs, now + d) == SnoozeMinutes - 1;
    TimeLeftUnique(after, k, now + d);
  }

  // ---------------------------------------------------------------------------
  // Labels and rows

  /** The stored spelling of each type. */
  function TypeName(kind: Reminders.ReminderType): string
  {
    match kind
    case Custom => "custom"
    case OneHourBefore => "1_hour_before"
    case OneDayBefore => "1_day_before"
    case AtDueTime => "at_due_time"
  }

  function Label(kind: Reminders.ReminderType): string
  {
    match kind
    case Custom => "Custom time"
    case OneHourBefore => "1 hour before"
    case OneDayBefore => "1 day before"
    case AtDueTime => "At due time"
  }

  /** `getReminderTypeText`: the label of a known type name, any other string as it is. */
  function TypeText(s: string): string
  {
    if s == "at_due_time" then "At due time"
    else if s == "1_hour_before" then "1 hour before"
    else if s == "1_day_before" then "1 day before"
    else if s == "custom" then "Custom time"
    else s
  }

  /** Each known type shows its own label, distinct types show distinct labels, and unknown strings show through unchanged. */
  lemma TypeTextLabels(s: string)
    ensures forall kind :: TypeText(TypeName(kind)) == Label(kind)
    ensures forall k1, k2 :: Label(k1) == Label(k2) ==> k1 == k2
    ensures (forall kind :: s != TypeName(kind)) ==> TypeText(s) == s
  {
    assert (forall kind :: s != TypeName(kind)) ==>
      s != TypeName(Reminders.AtDueTime) && s != TypeName(Reminders.OneHourBefore) &&
      s != TypeName(Reminders.OneDayBefore) && s != TypeName(Reminders.Custom);
  }

  /** What one reminder shows: its task, the overdue flag, the caption and the snooze button state. */
  datatype Row = Row(id: Reminders.ReminderId, taskText: string, overdue: bool, caption: string,
                     snoozeDisabled: bool, time: Millis)

  function RowOf(r: Reminders.Reminder, now: Millis, timeLeft: map<Reminders.ReminderId, int>,
                 tasks: map<Todo.TaskId, string>): Row
  {
    var overdue := IsOverdue(r, now, timeLeft);
    Row(r.id, Reminders.TaskText(tasks, r.taskId), overdue,
        if overdue then "Overdue" else TypeText(TypeName(r.kind)),
        SnoozeDisabled(timeLeft, r.id), r.time)
  }

  /** The card: nothing for an empty list, otherwise one row per reminder in order. */
  function Card(rs: seq<Reminders.Reminder>, now: Millis, timeLeft: map<Reminders.ReminderId, int>,
                tasks: map<Todo.TaskId, string>): (card: Option<seq<Row>>)
    ensures card.None? <==> rs == []
    ensures card.Some? ==> |card.value| == |rs| && forall i :: 0 <= i < |rs| ==> card.value[i].id == rs[i].id
  {
    if |rs| == 0 then None
    else Some(seq(|rs|, i requires 0 <= i < |rs| => RowOf(rs[i], now, timeLeft, tasks)))
  }

  /** A row says "Overdue" exactly when the reminder is overdue, and otherwise names its type. */
  lemma RowCaption(r: Reminders.Reminder, now: Millis, timeLeft: map<Reminders.ReminderId, int>,
                   tasks: map<Todo.TaskId, string>)
    ensures RowOf(r, now, timeLeft, tasks).caption == if IsOverdue(r, now, timeLeft) then "Overdue" else Label(r.kind)
    ensures RowOf(r, now, timeLeft, tasks).caption == "Overdue" <==> IsOverdue(r, now, timeLeft)
  {
    TypeTextLabels("");
  }

  class View {
    var timeLeft: map<Reminders.ReminderId, int>

    constructor()
      ensures timeLeft == map[]
    {
      timeLeft := map[];
    }

    /** `updateTimeLeft`: replace the map with a fresh one computed from the collection. */
    method UpdateTimeLeft(rs: seq<Reminders.Reminder>, now: Millis)
      modifies this`timeLeft
      ensures timeLeft == TimeLeft(rs, now)
    {
      timeLeft := ComputeTimeLeft(rs, now);
    }

    /** `handleSnooze`: snooze until 15 minutes from now and show 15 minutes left straight away. */
    method HandleSnooze(p: Reminders.RemindersProvider, id: Reminders.ReminderId, now: Millis, writeOk: bool)
      modifies this`timeLeft, p`reminders, p`storage
      ensures timeLeft == old(timeLeft)[id := SnoozeMinutes] && SnoozeDisabled(timeLeft, id)
      ensures p.reminders == if writeOk then Reminders.AfterSnooze(old(p.reminders), id, now + Reminders.SnoozeMs)
                             else old(p.reminders)
      ensures p.storage == if writeOk && Reminders.FindById(old(p.reminders), id).Some?
                           then Reminders.ReminderArray(p.reminders) else old(p.storage)
    {
      var snoozeTime := now + SnoozeMinutes * MinuteMs;
      p.SnoozeReminder(id, snoozeTime, writeOk);
      timeLeft := timeLeft[id := SnoozeMinutes];
    }
  }
}
