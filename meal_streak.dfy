/** The meal-logging streak of server/app.py: `log_meal` and `get_streak` over
    the `mealLogs` collection, kept as a map from user id to the stored
    record. Days are whole numbers (today is an input), so "yesterday" is
    `today - 1`. */
module MealStreak {
  import opened Wrappers

  /** A `mealLogs` document: `last_logged_date` (None when absent, null or
      empty) and `current_streak` (None when absent). */
  datatype LogRecord = LogRecord(lastLogged: Option<int>, currentStreak: Option<nat>) {
    /** `data.get('current_streak', 0)`. */
    function Streak(): (s: nat)
      ensures currentStreak.Some? ==> s == currentStreak.value
      ensures currentStreak.None? ==> s == 0
    {
      currentStreak.GetOr(0)
    }
  }

  /** The two answers of `log_meal`: 'Meal already logged today' and 'Meal logged'. */
  datatype LogOutcome = AlreadyLogged(streak: nat) | Logged(streak: nat)

  /** Lines 290-310: what `log_meal` answers for the stored record, if any. */
  function NextStreak(rec: Option<LogRecord>, today: int): (o: LogOutcome)
    ensures o.AlreadyLogged? <==> rec.Some? && rec.value.lastLogged == Some(today)
    ensures o.AlreadyLogged? ==> o.streak == rec.value.Streak()
    ensures o.Logged? ==> o.streak >= 1
    ensures rec.Some? && rec.value.lastLogged == Some(today - 1) ==> o == Logged(rec.value.Streak() + 1)
    ensures rec.None? || rec.value.lastLogged.None? ==> o == Logged(1)
    ensures rec.Some? && rec.value.lastLogged.Some? && rec.value.lastLogged.value != today && rec.value.lastLogged.value != today - 1 ==> o == Logged(1)
  {
    match rec
    case None => Logged(1)
    case Some(data) =>
      if data.lastLogged == Some(today) then AlreadyLogged(data.Streak())
      else if data.lastLogged == Some(today - 1) then Logged(data.Streak() + 1)
      else Logged(1)
  }

  /** The stored record after `log_meal` (lines 317-320): untouched when the
      meal was already logged today, otherwise today's date and the new streak. */
  function RecordAfterLog(rec: Option<LogRecord>, today: int): (r: Option<LogRecord>)
    ensures r.Some?
    ensures NextStreak(rec, today).Logged? ==> r == Some(LogRecord(Some(today), Some(NextStreak(rec, today).streak)))
    ensures NextStreak(rec, today).AlreadyLogged? ==> r == rec
  {
    match NextStreak(rec, today)
    case AlreadyLogged(_) => rec
    case Logged(streak) => Some(LogRecord(Some(today), Some(streak)))
  }

  /** The stored streak is stale: the last log is older than yesterday. */
  predicate Stale(rec: LogRecord, today: int) {
    rec.lastLogged.Some? && rec.lastLogged.value < today - 1
  }

  /** Lines 336-351: the streak `get_streak` reports. */
  function StreakOn(rec: Option<LogRecord>, today: int): (streak: nat)
    ensures rec.None? ==> streak == 0
    ensures rec.Some? && Stale(rec.value, today) ==> streak == 0
    ensures rec.Some? && !Stale(rec.value, today) ==> streak == rec.value.Streak()
  {
    match rec
    case None => 0
    case Some(data) => if Stale(data, today) then 0 else data.Streak()
  }

  /** The stored record after `get_streak`: a stale streak is written back as 0,
      the date kept. */
  function RecordAfterRead(rec: Option<LogRecord>, today: int): (r: Option<LogRecord>)
    ensures rec.None? ==> r.None?
    ensures rec.Some? && Stale(rec.value, today) ==> r == Some(rec.value.(currentStreak := Some(0)))
    ensures rec.Some? && !Stale(rec.value, today) ==> r == rec
  {
    match rec
    case None => None
    case Some(data) => if Stale(data, today) then Some(data.(currentStreak := Some(0))) else rec
  }

  function Lookup(logs: map<string, LogRecord>, uid: string): Option<LogRecord> {
    if uid in logs then Some(logs[uid]) else None
  }

  /** `mealLogs[uid] := rec` when there is a record to store. */
  function Store(logs: map<string, LogRecord>, uid: string, rec: Option<LogRecord>): map<string, LogRecord> {
    match rec
    case None => logs
    case Some(r) => logs[uid := r]
  }

  /** The `mealLogs` collection and the two routes that use it. */
  class MealLogStore {
    var logs: map<string, LogRecord>

    constructor ()
      ensures logs == map[]
    {
      logs := map[];
    }

    /** `log_meal` for user `uid` on day `today`. */
    method LogMeal(uid: string, today: int) returns (o: LogOutcome)
      modifies this
      ensures o == NextStreak(Lookup(old(logs), uid), today)
      ensures logs == Store(old(logs), uid, RecordAfterLog(Lookup(old(logs), uid), today))
      ensures o.Logged? ==> logs == old(logs)[uid := LogRecord(Some(today), Some(o.streak))]
      ensures o.AlreadyLogged? ==> logs == old(logs)
    {
      var streak: nat;
      if uid in logs {
        var data := logs[uid];
        var lastLogged := data.lastLogged;
        streak := data.currentStreak.GetOr(0);
        if lastLogged == Some(today) {
          return AlreadyLogged(streak);
        } else if lastLogged == Some(today - 1) {
          streak := streak + 1;
        } else {
          streak := 1;
        }
      } else {
        streak := 1;
      }
      logs := logs[uid := LogRecord(Some(today), Some(streak))];
      o := Logged(streak);
    }

    /** `get_streak` for user `uid` on day `today`. */
    method GetStreak(uid: string, today: int) returns (streak: nat)
      modifies this
      ensures streak == StreakOn(Lookup(old(logs), uid), today)
      ensures logs == Store(old(logs), uid, RecordAfterRead(Lookup(old(logs), uid), today))
    {
      if uid !in logs {
        return 0;
      }
      var data := logs[uid];
      streak := data.currentStreak.GetOr(0);
      var lastLogged := data.lastLogged;
      if lastLogged.Some? {
        if lastLogged.value < today - 1 {
          streak := 0;
          logs := logs[uid := data.(currentStreak := Some(0))];
        }
      }
    }
  }

  /** Logging twice on the same day: the second call answers 'already logged'
      with the streak the first one reported, and stores nothing new. */
  lemma LogIsIdempotent(rec: Option<LogRecord>, today: int)
    ensures NextStreak(RecordAfterLog(rec, today), today) == AlreadyLogged(NextStreak(rec, today).streak)
    ensures RecordAfterLog(RecordAfterLog(rec, today), today) == RecordAfterLog(rec, today)
  {
  }

  /** The record after logging on each of `n` consecutive days from `start`. */
  function LogRun(rec: Option<LogRecord>, start: int, n: nat): Option<LogRecord>
    decreases n
  {
    if n == 0 then rec else RecordAfterLog(LogRun(rec, start, n - 1), start + n - 1)
  }

  /** Starting from no record, logging on `n >= 1` consecutive days gives a
      streak of `n`, dated the last of them. */
  lemma {:induction false} ConsecutiveDays(start: int, n: nat)
    requires n >= 1
    ensures LogRun(None, start, n) == Some(LogRecord(Some(start + n - 1), Some(n)))
  {
    if n > 1 {
      ConsecutiveDays(start, n - 1);
    }
  }

  /** Missing a day breaks any streak: after a day without a log, the next log
      reports 1, and reading the streak before it reports 0. */
  lemma MissedDayResets(rec: LogRecord, today: int)
    requires rec.lastLogged.Some? && rec.lastLogged.value < today - 1
    ensures StreakOn(Some(rec), today) == 0
    ensures NextStreak(Some(rec), today) == Logged(1)
    ensures NextStreak(RecordAfterRead(Some(rec), today), today) == Logged(1)
  {
  }

  /** What `get_streak` reports after a log on day `day`: the logged streak on
      that day and the next, 0 from the day after; on an earlier day (a clock
      set back) it reports the stored streak as it is. */
  lemma StreakAfterLog(rec: Option<LogRecord>, day: int, today: int)
    ensures var logged := RecordAfterLog(rec, day);
      && (NextStreak(rec, day).Logged? && today <= day + 1 ==> StreakOn(logged, today) == NextStreak(rec, day).streak)
      && (NextStreak(rec, day).Logged? && today > day + 1 ==> StreakOn(logged, today) == 0)
  {
  }

  /** Reading the streak twice on the same day gives the same answer, and the
      second read leaves the stored record as the first left it (a stale
      record is written back again, with the same value). */
  lemma ReadIsIdempotent(rec: Option<LogRecord>, today: int)
    ensures StreakOn(RecordAfterRead(rec, today), today) == StreakOn(rec, today)
    ensures RecordAfterRead(RecordAfterRead(rec, today), today) == RecordAfterRead(rec, today)
  {
  }

  /** Reading never changes what the next log on the same day reports. */
  lemma ReadThenLog(rec: Option<LogRecord>, today: int)
    ensures NextStreak(RecordAfterRead(rec, today), today) == NextStreak(rec, today)
  {
  }
}
