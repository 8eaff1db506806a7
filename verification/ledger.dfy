/** The daily completion ledger (`task_log.json`): for each Beijing date and
    each task type, the UIDs whose task was finished that day. The file is
    modelled as a value; reading and writing it are left out. */
module Ledger {

  /** A date as `strftime("%Y-%m-%d")` prints it. */
  type Date = string

  /** The two task types recorded in the ledger. */
  datatype Task = Like | Danmaku

  /** date -> task type -> UIDs, in the order they were marked. */
  type Log = map<Date, map<Task, seq<int>>>

  /** `logs.get(date, {}).get(task, [])`. */
  function Entries(logs: Log, date: Date, task: Task): seq<int>
  {
    if date in logs && task in logs[date] then logs[date][task] else []
  }

  /** `_is_task_done`: the UID is recorded under the task for that day. */
  predicate IsTaskDone(logs: Log, today: Date, uid: int, task: Task)
  {
    uid in Entries(logs, today, task)
  }

  /** `_clean_old_logs`: every date other than today is deleted, one key at a time. */
  method CleanOldLogs(logs: Log, today: Date) returns (r: Log)
    ensures r.Keys == logs.Keys * {today}
    ensures forall d :: d in r ==> r[d] == logs[d]
    ensures forall d, t :: Entries(r, d, t) == if d == today then Entries(logs, d, t) else []
    ensures forall u, t :: IsTaskDone(r, today, u, t) == IsTaskDone(logs, today, u, t)
  {
    r := logs;
    var dates := logs.Keys;
    while dates != {}
      invariant dates <= logs.Keys
      invariant r.Keys == dates + (logs.Keys - dates) * {today}
      invariant forall d :: d in r ==> r[d] == logs[d]
      decreases dates
    {
      var d :| d in dates;
      if d != today {
        r := r - {d};
      }
      dates := dates - {d};
    }
  }

  /** `_mark_task_done`: appends the UID under today's entry for the task,
      creating the day and the task list when missing. */
  function MarkTaskDone(logs: Log, today: Date, uid: int, task: Task): (r: Log)
    ensures IsTaskDone(r, today, uid, task)
    ensures Entries(r, today, task) == Entries(logs, today, task) + [uid]
    ensures forall d, t :: d != today || t != task ==> Entries(r, d, t) == Entries(logs, d, t)
    ensures r.Keys == logs.Keys + {today}
  {
    var day := if today in logs then logs[today] else map[];
    logs[today := day[task := Entries(logs, today, task) + [uid]]]
  }

  /** After a mark, exactly the marked (date, UID, task) triple is newly done;
      every other answer of `_is_task_done` is what it was. */
  lemma MarkThenDone(logs: Log, today: Date, uid: int, task: Task, d: Date, u: int, t: Task)
    ensures IsTaskDone(MarkTaskDone(logs, today, uid, task), d, u, t)
        <==> IsTaskDone(logs, d, u, t) || (d == today && u == uid && t == task)
  {
    var r := MarkTaskDone(logs, today, uid, task);
    if d == today && t == task {
      assert Entries(r, d, t) == Entries(logs, d, t) + [uid];
    } else {
      assert Entries(r, d, t) == Entries(logs, d, t);
    }
  }
}
