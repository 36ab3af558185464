/** The rules inside one task card: the status button's cycle, the live
    elapsed-time value, its h/m/s rendering, the due-date badge and when
    the timer is shown. */
module TaskCard {
  import opened Common
  import opened Text

  // ---------------------------------------------------------------------
  // Status button

  /** Position of a status in the button's cycle todo, doing, done. */
  function CycleIndex(s: Status): nat {
    match s
    case Todo => 0
    case Doing => 1
    case Done => 2
  }

  /** The status the status button asks for: one step further round the
      cycle todo -> doing -> done -> todo. */
  function NextStatus(s: Status): (r: Status)
    ensures CycleIndex(r) == (CycleIndex(s) + 1) % 3
  {
    if s == Todo then Doing else if s == Doing then Done else Todo
  }

  /** Distinct statuses lead to distinct next statuses. */
  lemma NextStatusInjective(a: Status, b: Status)
    ensures NextStatus(a) == NextStatus(b) ==> a == b
  {
  }

  /** Pressing the button three times comes back to the starting status,
      and never fewer: one or two presses always change it. */
  lemma NextStatusCycle(s: Status)
    ensures NextStatus(NextStatus(NextStatus(s))) == s
    ensures NextStatus(s) != s && NextStatus(NextStatus(s)) != s
  {
  }

  // ---------------------------------------------------------------------
  // Elapsed time

  /** The card counts a running session when the task is in progress and
      its session start is known. */
  predicate SessionRunning(task: Task) {
    task.status == Doing && task.startedAt.Some?
  }

  /** The clock reads no earlier than the start of a running session. */
  predicate ClockNotBehind(task: Task, now: int) {
    SessionRunning(task) ==> task.startedAt.value <= now
  }

  /** The elapsed seconds the card shows at time `now` (milliseconds): the
      stored seconds (0 when absent) plus, while a session runs, the whole
      seconds since it started. `Math.floor(x / 1000)` is Dafny's `/`,
      which rounds down for a positive divisor. */
  function ElapsedSeconds(task: Task, now: int): (r: nat)
    requires ClockNotBehind(task, now)
    ensures r >= OrZero(task.timeSpent)
    ensures !SessionRunning(task) ==> r == OrZero(task.timeSpent)
    ensures SessionRunning(task) ==>
      var session := r - OrZero(task.timeSpent);
      session * 1000 <= now - task.startedAt.value < (session + 1) * 1000
  {
    if SessionRunning(task) then
      OrZero(task.timeSpent) + (now - task.startedAt.value) / 1000
    else
      OrZero(task.timeSpent)
  }

  /** As the clock advances the shown value never goes down. */
  lemma ElapsedSecondsMonotone(task: Task, now: int, later: int)
    requires ClockNotBehind(task, now)
    requires now <= later
    ensures ElapsedSeconds(task, now) <= ElapsedSeconds(task, later)
  {
    if SessionRunning(task) {
      var base := OrZero(task.timeSpent);
      var a, b := ElapsedSeconds(task, now) - base, ElapsedSeconds(task, later) - base;
      assert a * 1000 <= now - task.startedAt.value <= later - task.startedAt.value < (b + 1) * 1000;
    }
  }

  /** Without a running session the clock plays no part. */
  lemma ElapsedSecondsFrozen(task: Task, now: int, later: int)
    requires !SessionRunning(task)
    ensures ElapsedSeconds(task, now) == ElapsedSeconds(task, later) == OrZero(task.timeSpent)
  {
  }

  /** The card's `elapsedTime` state and the effect that refreshes it. */
  class TaskCardTimer {
    var elapsedTime: nat

    constructor ()
      ensures elapsedTime == 0
    {
      elapsedTime := 0;
    }

    /** One run of the effect, or of the once-a-second refresh it schedules
        while a session runs: `elapsedTime` becomes the value the card
        should show at `now`. */
    method Refresh(task: Task, now: int)
      requires ClockNotBehind(task, now)
      modifies this
      ensures elapsedTime == ElapsedSeconds(task, now)
    {
      if task.status == Doing && task.startedAt.Some? {
        var startTime := task.startedAt.value;
        var previousTime := OrZero(task.timeSpent);
        var currentSession := (now - startTime) / 1000;
        elapsedTime := previousTime + currentSession;
      } else if task.status == Done && task.timeSpent.Some? && task.timeSpent.value != 0 {
        elapsedTime := task.timeSpent.value;
      } else {
        elapsedTime := OrZero(task.timeSpent);
      }
    }

    /** The timer badge: present exactly when visible, showing
        `formatElapsedTime(elapsedTime)`, which reads back in canonical
        shape as `elapsedTime`, to the minute from one hour on. */
    function Badge(task: Task): (r: Option<string>)
      reads this
      ensures r.Some? <==> TimerVisible(task)
      ensures r.Some? ==> r.value == FormatElapsedTime(elapsedTime)
      ensures r.Some? ==>
        && ReadDuration(r.value).Some?
        && Canonical(ReadDuration(r.value).value)
        && TotalSeconds(ReadDuration(r.value).value) ==
          (if elapsedTime >= 3600 then elapsedTime - elapsedTime % 60 else elapsedTime)
    {
      if TimerVisible(task) then
        FormatElapsedTimeCanonical(elapsedTime);
        Some(FormatElapsedTime(elapsedTime))
      else None
    }
  }

  /** The timer badge is shown for a task in progress, and for a finished
      task whose stored time is not zero. */
  function TimerVisible(task: Task): (shown: bool)
    ensures task.status == Todo ==> !shown
    ensures task.status == Doing ==> shown
    ensures task.status == Done ==> (shown <==> task.timeSpent.Some? && task.timeSpent.value > 0)
  {
    task.status == Doing || (task.status == Done && OrZero(task.timeSpent) != 0)
  }

  /** A finished task's visible timer shows its stored, positive time, and a
      pending task never shows a timer. */
  lemma TimerVisibleShowsStoredTime(task: Task, now: int)
    requires ClockNotBehind(task, now)
    ensures task.status == Todo ==> !TimerVisible(task)
    ensures task.status == Done && TimerVisible(task) ==>
      ElapsedSeconds(task, now) == task.timeSpent.value > 0
  {
  }

  // ---------------------------------------------------------------------
  // Duration text

  datatype Duration = Duration(hours: nat, mins: nat, secs: nat)

  /** Split a number of seconds into hours, minutes and seconds. */
  function Decompose(seconds: nat): (d: Duration)
    ensures d.hours * 3600 + d.mins * 60 + d.secs == seconds
    ensures d.mins < 60 && d.secs < 60
  {
    var h := seconds / 3600;
    var rest := seconds % 3600;
    assert seconds == h * 3600 + (rest / 60) * 60 + rest % 60;
    assert seconds % 60 == rest % 60;
    Duration(h, rest / 60, seconds % 60)
  }

  /** `formatElapsedTime`: "{h}h {m}m" from one hour on (seconds dropped),
      else "{m}m {s}s" from one minute on, else "{s}s". */
  function FormatElapsedTime(seconds: nat): (r: string)
    ensures |r| >= 2
    ensures r[|r| - 1] == (if seconds >= 3600 then 'm' else 's')
  {
    var d := Decompose(seconds);
    if d.hours > 0 then
      NatToString(d.hours) + "h " + NatToString(d.mins) + "m"
    else if d.mins > 0 then
      NatToString(d.mins) + "m " + NatToString(d.secs) + "s"
    else
      NatToString(d.secs) + "s"
  }

  /** One term "{count}{unit}" of a duration text. */
  datatype Term = Term(count: nat, unit: char)

  /** The seconds in one unit: h, m and s; 0 for any other character. */
  function UnitSeconds(unit: char): nat {
    if unit == 'h' then 3600 else if unit == 'm' then 60 else if unit == 's' then 1 else 0
  }

  /** The seconds a list of terms adds up to. */
  function TotalSeconds(terms: seq<Term>): nat {
    if terms == [] then 0 else terms[0].count * UnitSeconds(terms[0].unit) + TotalSeconds(terms[1..])
  }

  /** The shape of the texts the card writes: units strictly decreasing
      from h to s, every minute and second count below 60, and a leading
      count of zero only in a text that is a single seconds term. */
  predicate Canonical(terms: seq<Term>) {
    && terms != []
    && (forall i :: 0 <= i < |terms| ==> UnitSeconds(terms[i].unit) > 0)
    && (forall i, j :: 0 <= i < j < |terms| ==> UnitSeconds(terms[i].unit) > UnitSeconds(terms[j].unit))
    && (forall i :: 0 <= i < |terms| && terms[i].unit != 'h' ==> terms[i].count < 60)
    && (terms[0].count == 0 ==> |terms| == 1 && terms[0].unit == 's')
  }

  /** Reads a duration text back into its terms: "{digits}{unit}" with unit
      h, m or s, separated by single spaces, nothing after the last unit,
      and no count written with a leading zero. `value` holds the digits of
      the current term, `digits` whether it has any. */
  function Scan(s: string, value: nat, digits: bool): Option<seq<Term>>
    decreases |s|
  {
    if s == [] then None
    else if IsDigit(s[0]) then
      if digits && value == 0 then None else Scan(s[1..], value * 10 + DigitValue(s[0]), true)
    else if !digits || UnitSeconds(s[0]) == 0 then None
    else if |s| == 1 then Some([Term(value, s[0])])
    else if s[1] == ' ' then
      match Scan(s[2..], 0, false)
      case Some(rest) => Some([Term(value, s[0])] + rest)
      case None => None
    else None
  }

  /** The terms of a duration text, if it is one. */
  function ReadDuration(s: string): Option<seq<Term>> {
    Scan(s, 0, false)
  }

  /** The scanner accumulates a run of digits the way `DigitsFrom` does,
      when the run does not extend a lone leading zero. */
  lemma {:induction false} ScanDigits(d: string, rest: string, value: nat, digits: bool)
    requires AllDigits(d)
    requires digits && value == 0 ==> d == []
    requires d != [] && value == 0 && DigitValue(d[0]) == 0 ==> |d| == 1
    ensures Scan(d + rest, value, digits) == Scan(rest, DigitsFrom(value, d), digits || d != [])
    decreases |d|
  {
    if d != [] {
      assert (d + rest)[1..] == d[1..] + rest;
      ScanDigits(d[1..], rest, value * 10 + DigitValue(d[0]), true);
    } else {
      assert d + rest == rest;
    }
  }

  /** A term "{n}{unit} " followed by a readable text reads as that term
      followed by the text's terms. */
  lemma ScanTermThen(n: nat, unit: char, rest: string)
    requires UnitSeconds(unit) > 0
    requires Scan(rest, 0, false).Some?
    ensures Scan(NatToString(n) + [unit, ' '] + rest, 0, false) ==
      Some([Term(n, unit)] + Scan(rest, 0, false).value)
  {
    var d := NatToString(n);
    assert d + [unit, ' '] + rest == d + ([unit, ' '] + rest);
    ScanDigits(d, [unit, ' '] + rest, 0, false);
    DigitsValueOfNatToString(n);
    assert ([unit, ' '] + rest)[2..] == rest;
  }

  /** A last term "{n}{unit}" reads as that one term. */
  lemma ScanLastTerm(n: nat, unit: char)
    requires UnitSeconds(unit) > 0
    ensures Scan(NatToString(n) + [unit], 0, false) == Some([Term(n, unit)])
  {
    ScanDigits(NatToString(n), [unit], 0, false);
    DigitsValueOfNatToString(n);
  }

  /** The text a list of terms is written as: "{count}{unit}" terms joined
      by single spaces. */
  function WriteTerms(terms: seq<Term>): string
    decreases |terms|
  {
    if terms == [] then []
    else if |terms| == 1 then NatToString(terms[0].count) + [terms[0].unit]
    else NatToString(terms[0].count) + [terms[0].unit, ' '] + WriteTerms(terms[1..])
  }

  /** A text the scanner accepts is exactly the writing of its terms, after
      the digits already read. */
  lemma {:induction false} ScanOnlyFrom(s: string, value: nat, digits: bool, terms: seq<Term>)
    requires !digits ==> value == 0
    requires Scan(s, value, digits) == Some(terms)
    ensures terms != []
    ensures (if digits then NatToString(value) else []) + s == WriteTerms(terms)
    decreases |s|
  {
    var p := if digits then NatToString(value) else [];
    if IsDigit(s[0]) {
      var v := value * 10 + DigitValue(s[0]);
      ScanOnlyFrom(s[1..], v, true, terms);
      NatToStringAppendDigit(value, s[0]);
      assert NatToString(v) == p + [s[0]];
      assert p + s == (p + [s[0]]) + s[1..];
    } else if |s| == 1 {
      assert terms == [Term(value, s[0])];
    } else {
      var rest := Scan(s[2..], 0, false).value;
      ScanOnlyFrom(s[2..], 0, false, rest);
      assert terms == [Term(value, s[0])] + rest;
      assert terms[1..] == rest;
      assert s == [s[0], ' '] + s[2..];
    }
  }

  /** Every text the reader accepts is the writing of the terms it reads. */
  lemma ReadDurationOnlyFrom(s: string)
    requires ReadDuration(s).Some?
    ensures s == WriteTerms(ReadDuration(s).value)
  {
    ScanOnlyFrom(s, 0, false, ReadDuration(s).value);
  }

  /** The shown text reads back as "{h}h {m}m" from one hour on, as
      "{m}m {s}s" from one minute on and as "{s}s" below, with the counts of
      `Decompose`. */
  lemma FormatElapsedTimeReadsBack(seconds: nat)
    ensures var d := Decompose(seconds);
      ReadDuration(FormatElapsedTime(seconds)) == Some(
        if d.hours > 0 then [Term(d.hours, 'h'), Term(d.mins, 'm')]
        else if d.mins > 0 then [Term(d.mins, 'm'), Term(d.secs, 's')]
        else [Term(d.secs, 's')])
  {
    var d := Decompose(seconds);
    if d.hours > 0 {
      var b := NatToString(d.mins) + "m";
      assert FormatElapsedTime(seconds) == NatToString(d.hours) + ['h', ' '] + b;
      ScanLastTerm(d.mins, 'm');
      ScanTermThen(d.hours, 'h', b);
      assert [Term(d.hours, 'h')] + [Term(d.mins, 'm')] == [Term(d.hours, 'h'), Term(d.mins, 'm')];
    } else if d.mins > 0 {
      var b := NatToString(d.secs) + "s";
      assert FormatElapsedTime(seconds) == NatToString(d.mins) + ['m', ' '] + b;
      ScanLastTerm(d.secs, 's');
      ScanTermThen(d.mins, 'm', b);
      assert [Term(d.mins, 'm')] + [Term(d.secs, 's')] == [Term(d.mins, 'm'), Term(d.secs, 's')];
    } else {
      assert FormatElapsedTime(seconds) == NatToString(d.secs) + ['s'];
      ScanLastTerm(d.secs, 's');
    }
  }

  /** No other text reads back as the shown one does: the text is fixed by
      its terms, so zero-padded or re-spaced variants are not equivalent. */
  lemma FormatElapsedTimeTextUnique(seconds: nat, s: string)
    requires ReadDuration(s) == ReadDuration(FormatElapsedTime(seconds))
    ensures s == FormatElapsedTime(seconds)
  {
    FormatElapsedTimeReadsBack(seconds);
    ReadDurationOnlyFrom(s);
    ReadDurationOnlyFrom(FormatElapsedTime(seconds));
  }

  /** A zero-padded rendering of 65 seconds is not a duration text. */
  lemma ZeroPaddedIsRejected()
    ensures ReadDuration("01m 05s").None?
  {
    assert IsDigit('0') && IsDigit('1') && DigitValue('0') == 0;
  }

  /** The shown text has the canonical shape, ends in minutes from one hour
      on and in seconds below, and stands for the exact seconds below one
      hour and for the seconds rounded down to a minute from one hour on. */
  lemma FormatElapsedTimeCanonical(seconds: nat)
    ensures var r := ReadDuration(FormatElapsedTime(seconds));
      && r.Some? && Canonical(r.value)
      && r.value[|r.value| - 1].unit == (if seconds >= 3600 then 'm' else 's')
      && TotalSeconds(r.value) == (if seconds >= 3600 then seconds - seconds % 60 else seconds)
  {
    FormatElapsedTimeReadsBack(seconds);
    var d := Decompose(seconds);
    var terms := ReadDuration(FormatElapsedTime(seconds)).value;
    var last := terms[|terms| - 1];
    assert [last][1..] == [];
    assert TotalSeconds([last]) == last.count * UnitSeconds(last.unit);
    if |terms| == 2 {
      assert terms[1..] == [last];
    }
    if d.hours > 0 {
      assert TotalSeconds(terms) == d.hours * 3600 + d.mins * 60;
      assert seconds % 60 == d.secs;
    } else if d.mins > 0 {
      assert TotalSeconds(terms) == d.mins * 60 + d.secs;
    } else {
      assert TotalSeconds(terms) == d.secs;
    }
  }

  /** A session of 65 seconds from no stored time shows "1m 5s". */
  lemma SixtyFiveSecondsExample(task: Task, start: int)
    requires task.status == Doing && task.startedAt == Some(start) && task.timeSpent.None?
    ensures ElapsedSeconds(task, start + 65000) == 65
    ensures FormatElapsedTime(65) == "1m 5s"
  {
    assert Decompose(65) == Duration(0, 1, 5);
    assert NatToString(1) == "1" && NatToString(5) == "5";
  }

  // ---------------------------------------------------------------------
  // Due date badge

  datatype DueLabel = Overdue | DueToday | DueTomorrow | OnDate(text: string)

  /** Which badge the card shows and whether it carries the alert icon. */
  datatype DueDateInfo = DueDateInfo(kind: DueLabel, isOverdue: bool)

  /** The badge text: a fixed word for the three flagged kinds, the date's
      rendering otherwise. */
  function LabelText(kind: DueLabel): (text: string)
    ensures kind == Overdue ==> text == "Overdue"
    ensures kind == DueToday ==> text == "Today"
    ensures kind == DueTomorrow ==> text == "Tomorrow"
    ensures kind.OnDate? ==> text == kind.text
  {
    match kind
    case Overdue => "Overdue"
    case DueToday => "Today"
    case DueTomorrow => "Tomorrow"
    case OnDate(text) => text
  }

  /** The three fixed words tell their kinds apart. */
  lemma LabelTextDistinct(a: DueLabel, b: DueLabel)
    requires !a.OnDate? && !b.OnDate?
    ensures LabelText(a) == LabelText(b) <==> a == b
  {
  }

  /** `getDueDateInfo` with days numbered consecutively: `today` is the
      current day and `shortDate` the due day's "MMM d" rendering. A day
      before today is past and not today. */
  function GetDueDateInfo(dueDay: Option<int>, today: int, status: Status, shortDate: string)
    : (r: Option<DueDateInfo>)
    ensures r.None? <==> dueDay.None?
    ensures r.Some? ==> (r.value.isOverdue <==> dueDay.value < today && status != Done)
    ensures r.Some? ==> (r.value.kind == Overdue <==> r.value.isOverdue)
    ensures r.Some? ==> (r.value.kind == DueToday <==> dueDay.value == today)
    ensures r.Some? ==> (r.value.kind == DueTomorrow <==> dueDay.value == today + 1)
    ensures r.Some? ==> (r.value.kind.OnDate? <==>
      (dueDay.value < today && status == Done) || dueDay.value > today + 1)
    ensures r.Some? && r.value.kind.OnDate? ==> r.value.kind.text == shortDate
  {
    if dueDay.None? then None
    else
      var day := dueDay.value;
      var isOverdue := day < today && day != today && status != Done;
      var isDueToday := day == today;
      var isDueTomorrow := day == today + 1;
      var kind :=
        if isOverdue then Overdue
        else if isDueToday then DueToday
        else if isDueTomorrow then DueTomorrow
        else OnDate(shortDate);
      Some(DueDateInfo(kind, isOverdue))
  }

  /** Finishing a task never leaves it flagged: a finished task is not
      overdue, and one due in the past shows its plain date. */
  lemma DoneIsNeverOverdue(dueDay: int, today: int, shortDate: string)
    ensures !GetDueDateInfo(Some(dueDay), today, Done, shortDate).value.isOverdue
    ensures dueDay < today ==>
      GetDueDateInfo(Some(dueDay), today, Done, shortDate).value.kind == OnDate(shortDate)
  {
  }

  /** A pending task due yesterday is overdue; once done it shows its date. */
  lemma YesterdayExample(today: int, shortDate: string)
    ensures GetDueDateInfo(Some(today - 1), today, Todo, shortDate)
      == Some(DueDateInfo(Overdue, true))
    ensures GetDueDateInfo(Some(today - 1), today, Done, shortDate)
      == Some(DueDateInfo(OnDate(shortDate), false))
    ensures LabelText(GetDueDateInfo(Some(today - 1), today, Todo, shortDate).value.kind) == "Overdue"
    ensures LabelText(GetDueDateInfo(Some(today - 1), today, Done, shortDate).value.kind) == shortDate
  {
  }
}
