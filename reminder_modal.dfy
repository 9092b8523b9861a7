/**
 * The submit handler of components/ui/reminder-modal.tsx: the "HH:MM" string of the time
 * input is split on ':' and read with `Number`, `setHours` puts that hour and minute on a
 * copy of the selected date, the reminder type picks a lead time, and the result goes to
 * `addReminder`. Dates are milliseconds since the epoch, read in UTC.
 */
module ReminderModal {
  import opened Wrappers
  import opened JsStrings
  import Todo
  import Reminders

  const MinuteMs: Millis := 60 * 1000
  const HourMs: Millis := 60 * MinuteMs
  const DayMs: Millis := 24 * HourMs
  /** The largest distance from the epoch a `Date` can hold; beyond it the date is invalid. */
  const MaxTime: Millis := 8640000000000000

  /** The modal's initial time and type. */
  const DefaultTime: string := "12:00"
  const DefaultType: Reminders.ReminderType := Reminders.AtDueTime

  /** What `addReminder` receives. */
  datatype AddRequest = AddRequest(taskId: Todo.TaskId, time: Millis, kind: Reminders.ReminderType)

  // ---------------------------------------------------------------------------
  // Reading the time string

  /** `s.split(sep)`: the pieces between separators; the empty string gives one empty piece. */
  function Split(s: string, sep: char): (parts: seq<string>)
    ensures |parts| >= 1
  {
    if s == [] then [""]
    else
      var rest := Split(s[1..], sep);
      if s[0] == sep then [""] + rest else [[s[0]] + rest[0]] + rest[1..]
  }

  /** `parts.join(sep)` */
  function JoinWith(parts: seq<string>, sep: char): string
    requires |parts| >= 1
  {
    if |parts| == 1 then parts[0] else parts[0] + [sep] + JoinWith(parts[1..], sep)
  }

  /** Splitting loses nothing: the pieces, rejoined with the separator, give the string back, and no piece holds the separator. */
  lemma {:induction false} SplitJoin(s: string, sep: char)
    ensures JoinWith(Split(s, sep), sep) == s
    ensures forall i :: 0 <= i < |Split(s, sep)| ==> sep !in Split(s, sep)[i]
  {
    if s != [] {
      SplitJoin(s[1..], sep);
      var rest := Split(s[1..], sep);
      if s[0] == sep {
        assert ([""] + rest)[1..] == rest;
      } else {
        var parts := [[s[0]] + rest[0]] + rest[1..];
        if |rest| > 1 {
          assert parts[1..] == rest[1..];
          assert JoinWith(rest, sep) == rest[0] + [sep] + JoinWith(rest[1..], sep);
        }
        assert s == [s[0]] + s[1..];
      }
    }
  }

  predicate IsDigit(c: char)
  {
    '0' <= c <= '9'
  }

  predicate AllDigits(s: string)
  {
    forall i :: 0 <= i < |s| ==> IsDigit(s[i])
  }

  function DecimalValue(s: string): nat
    requires AllDigits(s)
  {
    if s == [] then 0 else 10 * DecimalValue(s[..|s| - 1]) + (s[|s| - 1] as int - '0' as int)
  }

  /**
   * `Number(s)` on a string: surrounding whitespace is ignored, an empty string is 0, a run of
   * decimal digits is its value; every other string is `None` (NaN).
   */
  function NumberOf(s: string): Option<nat>
  {
    var t := Trim(s);
    if t == "" then Some(0) else if AllDigits(t) then Some(DecimalValue(t)) else None
  }

  /** `const [hours, minutes] = s.split(":").map(Number)`, with NaN or a missing minute as `None`. */
  function ParseClock(s: string): Option<(nat, nat)>
  {
    var parts := Split(s, ':');
    if |parts| < 2 then None
    else
      match (NumberOf(parts[0]), NumberOf(parts[1]))
      case (Some(h), Some(m)) => Some((h, m))
      case _ => None
  }

  function DigitChar(d: nat): char
    requires d < 10
  {
    ('0' as int + d) as char
  }

  /** The two-digit form the time input uses. */
  function TwoDigits(n: nat): string
    requires n < 100
  {
    [DigitChar(n / 10), DigitChar(n % 10)]
  }

  function FormatClock(h: nat, m: nat): string
    requires h < 24 && m < 60
  {
    TwoDigits(h) + ":" + TwoDigits(m)
  }

  lemma {:induction false} SplitNoSeparator(s: string, sep: char)
    requires sep !in s
    ensures Split(s, sep) == [s]
  {
    if s != [] {
      SplitNoSeparator(s[1..], sep);
      assert s == [s[0]] + s[1..];
    }
  }

  lemma DigitCharValue(d: nat)
    requires d < 10
    ensures IsDigit(DigitChar(d)) && !IsWhitespace(DigitChar(d)) && DigitChar(d) != ':'
    ensures DigitChar(d) as int - '0' as int == d
  {
  }

  lemma TwoDigitsValue(n: nat)
    requires n < 100
    ensures ':' !in TwoDigits(n) && NumberOf(TwoDigits(n)) == Some(n)
  {
    var s := TwoDigits(n);
    DigitCharValue(n / 10);
    DigitCharValue(n % 10);
    assert TrimStart(s) == s;
    assert TrimEnd(s) == s;
    assert AllDigits(s);
    assert s[..1] == [DigitChar(n / 10)];
    assert s[..1][..0] == [];
    assert DecimalValue(s[..1]) == n / 10;
  }

  /** Every "HH:MM" the time input can hold reads back as that hour and minute. */
  lemma ClockRoundTrip(h: nat, m: nat)
    requires h < 24 && m < 60
    ensures ParseClock(FormatClock(h, m)) == Some((h, m))
  {
    ClockSplit(h, m);
    TwoDigitsValue(h);
    TwoDigitsValue(m);
  }

  /** "HH:MM" splits into its two two-digit halves. */
  lemma ClockSplit(h: nat, m: nat)
    requires h < 24 && m < 60
    ensures Split(FormatClock(h, m), ':') == [TwoDigits(h), TwoDigits(m)]
  {
    var s := FormatClock(h, m);
    TwoDigitsValue(m);
    SplitNoSeparator(TwoDigits(m), ':');
    assert s[3..] == TwoDigits(m);
    assert s[2..] == [':'] + s[3..];
    assert Split(s[2..], ':') == [""] + [TwoDigits(m)];
    DigitCharValue(h / 10);
    DigitCharValue(h % 10);
    var rest := Split(s[2..], ':');
    assert rest[0] == "" && rest[1..] == [TwoDigits(m)];
    var t := s[1..];
    assert t[0] == s[1] && t[1..] == s[2..];
    assert Split(t, ':') == [[s[1]] + rest[0]] + rest[1..];
    var rest1 := Split(t, ':');
    assert rest1[0] == [s[1]] && rest1[1..] == [TwoDigits(m)];
    assert Split(s, ':') == [[s[0]] + rest1[0]] + rest1[1..];
    assert [s[0]] + [s[1]] == [s[0], s[1]];
    assert Split(s, ':') == [[s[0], s[1]], TwoDigits(m)];
    assert [s[0], s[1]] == TwoDigits(h);
  }

  /** A string with no ':' has no minute part, so no time can be read from it. */
  lemma NoColonNoClock(s: string)
    requires ':' !in s
    ensures ParseClock(s).None?
  {
    SplitNoSeparator(s, ':');
  }

  // ---------------------------------------------------------------------------
  // Date arithmetic

  /** The `TimeClip` of a `Date`: out of range means an invalid date. */
  function TimeClip(t: int): Option<Millis>
  {
    if -MaxTime <= t <= MaxTime then Some(t) else None
  }

  /** `date.setHours(h, m)`: same day, the given hour and minute (rolling over past 23:59), seconds and milliseconds kept. */
  function SetHours(base: Millis, h: nat, m: nat): Millis
  {
    base - base % DayMs + h * HourMs + m * MinuteMs + base % MinuteMs
  }

  function DayOf(t: Millis): int { t / DayMs }
  function HourOf(t: Millis): int { t % DayMs / HourMs }
  function MinuteOf(t: Millis): int { t % DayMs % HourMs / MinuteMs }

  lemma DivModOf(q: int, r: int, d: int)
    requires d > 0 && 0 <= r < d
    ensures (q * d + r) / d == q && (q * d + r) % d == r
  {
    var q2, r2 := (q * d + r) / d, (q * d + r) % d;
    assert q2 * d + r2 == q * d + r;
    assert (q - q2) * d == r2 - r;
    if q > q2 {
      MulAtLeast(q - q2, d);
    } else if q < q2 {
      MulAtLeast(q2 - q, d);
    }
  }

  lemma MulAtLeast(k: int, d: int)
    requires k >= 1 && d > 0
    ensures k * d >= d
  {
    assert k * d == (k - 1) * d + d;
  }

  /** An hour and minute in range land on the same day at exactly that hour and minute, seconds kept. */
  lemma SetHoursSetsClock(base: Millis, h: nat, m: nat)
    requires h < 24 && m < 60
    ensures var t := SetHours(base, h, m);
      DayOf(t) == DayOf(base) && HourOf(t) == h && MinuteOf(t) == m && t % MinuteMs == base % MinuteMs
  {
    var t := SetHours(base, h, m);
    var s := base % MinuteMs;
    var r := h * HourMs + m * MinuteMs + s;
    assert base - base % DayMs == DayOf(base) * DayMs;
    assert m * MinuteMs + s < HourMs;
    assert r < DayMs;
    DivModOf(DayOf(base), r, DayMs);
    DivModOf(h, m * MinuteMs + s, HourMs);
    DivModOf(m, s, MinuteMs);
    assert t % MinuteMs == s by {
      DivModOf(DayOf(base) * 1440 + h * 60 + m, s, MinuteMs);
    }
  }

  /** How long before the chosen moment each type reminds. */
  function LeadTime(kind: Reminders.ReminderType): Millis
  {
    match kind
    case OneHourBefore => HourMs
    case OneDayBefore => DayMs
    case AtDueTime => 0
    case Custom => 0
  }

  /**
   * `handleSubmit`: no reminder without a selected date, or when the time string does not
   * read as numbers, or when a date leaves the valid range (`toISOString` throws).
   */
  function HandleSubmit(selectedDate: Option<Millis>, selectedTime: string, kind: Reminders.ReminderType,
                        taskId: Todo.TaskId): (r: Option<AddRequest>)
    ensures r.Some? ==> r.value.taskId == taskId && r.value.kind == kind && -MaxTime <= r.value.time <= MaxTime
  {
    if selectedDate.None? then None
    else
      match ParseClock(selectedTime)
      case None => None
      case Some((h, m)) =>
        match TimeClip(SetHours(selectedDate.value, h, m))
        case None => None
        case Some(base) =>
          match TimeClip(base - LeadTime(kind))
          case None => None
          case Some(time) => Some(AddRequest(taskId, time, kind))
  }

  /** No selected date, no reminder. */
  lemma NoDateNoReminder(selectedTime: string, kind: Reminders.ReminderType, taskId: Todo.TaskId)
    ensures HandleSubmit(None, selectedTime, kind, taskId).None?
  {
  }

  /** A valid "HH:MM" on a date in range gives the chosen moment minus the type's lead time, and the type itself. */
  lemma SubmitTime(date: Millis, h: nat, m: nat, kind: Reminders.ReminderType, taskId: Todo.TaskId)
    requires h < 24 && m < 60
    requires -MaxTime <= SetHours(date, h, m) - LeadTime(kind) && SetHours(date, h, m) <= MaxTime
    ensures HandleSubmit(Some(date), FormatClock(h, m), kind, taskId) ==
      Some(AddRequest(taskId, SetHours(date, h, m) - LeadTime(kind), kind))
    ensures kind == Reminders.OneHourBefore ==> LeadTime(kind) == 3600000
    ensures kind == Reminders.OneDayBefore ==> LeadTime(kind) == 86400000
    ensures kind == Reminders.AtDueTime || kind == Reminders.Custom ==> LeadTime(kind) == 0
  {
    ClockRoundTrip(h, m);
  }

  /** Untouched, the modal reminds at noon on the selected day, at the due moment itself. */
  lemma Defaults(date: Millis, taskId: Todo.TaskId)
    requires -MaxTime <= SetHours(date, 12, 0) <= MaxTime
    ensures HandleSubmit(Some(date), DefaultTime, DefaultType, taskId) ==
      Some(AddRequest(taskId, SetHours(date, 12, 0), Reminders.AtDueTime))
    ensures HourOf(SetHours(date, 12, 0)) == 12 && MinuteOf(SetHours(date, 12, 0)) == 0
  {
    assert DefaultTime == FormatClock(12, 0);
    SubmitTime(date, 12, 0, DefaultType, taskId);
    SetHoursSetsClock(date, 12, 0);
  }

  /** The reminder a submit creates first fires at the submitted time and not a millisecond before. */
  lemma SubmittedReminderFires(req: AddRequest, id: Reminders.ReminderId, now: Millis)
    ensures Reminders.Fires(Reminders.NewReminder(id, req.taskId, req.time, req.kind), now) <==> req.time <= now
  {
  }

  /** The submit button: compute the request and hand it to the provider, then close. */
  method Submit(p: Reminders.RemindersProvider, id: Reminders.ReminderId, selectedDate: Option<Millis>,
                selectedTime: string, kind: Reminders.ReminderType, taskId: Todo.TaskId,
                writeOk: bool, taskTable: Option<map<Todo.TaskId, string>>)
    returns (closed: bool)
    modifies p`reminders, p`storage, p`tasks
    ensures closed <==> HandleSubmit(selectedDate, selectedTime, kind, taskId).Some?
    ensures var req := HandleSubmit(selectedDate, selectedTime, kind, taskId);
      p.reminders == if req.Some? && writeOk
        then old(p.reminders) + [Reminders.NewReminder(id, taskId, req.value.time, kind)]
        else old(p.reminders)
    ensures var req := HandleSubmit(selectedDate, selectedTime, kind, taskId);
      p.storage == if req.Some? && writeOk then Reminders.ReminderArray(p.reminders) else old(p.storage)
    ensures var req := HandleSubmit(selectedDate, selectedTime, kind, taskId);
      p.tasks == if req.Some? && writeOk && taskTable.Some? then taskTable.value else old(p.tasks)
  {
    var req := HandleSubmit(selectedDate, selectedTime, kind, taskId);
    if req.None? {
      return false;
    }
    p.AddReminder(id, taskId, req.value.time, kind, writeOk, taskTable);
    closed := true;
  }
}
