/** One round of `task_loop`: the like sweep over live rooms, the danmaku
    sweep over the other rooms, then one watch session. Room status answers
    are a snapshot per query site (a map keyed by room): one for the like
    sweep, one for the danmaku sweep and one for `get_next_watchable`. A room
    missing from a map is a status query that raised, which `task_loop` does
    not catch. The
    date rollover check at the top of each round, and the one-minute sleep
    when nothing is watchable, are left out. Each burst is recorded rather
    than run: its calls are the subject of the `Burst` module. */
module TaskPass {
  import opened Wrappers
  import opened Seqs
  import opened Ledger
  import opened Medals
  import opened Watch

  /** `getRoomLiveStatus` value of a live room. */
  const Live: int := 1

  /** The three task queues and the ledger, as `task_loop` sees them. */
  datatype PassState = PassState(like: seq<Medal>, danmaku: seq<Medal>, watch: seq<Medal>, logs: Log)

  /** Why a sweep stopped early: a status query raised, or `list.remove`
      did not find the medal. */
  datatype Fault = StatusFailed(roomId: int) | NotQueued(medal: Medal)

  /** One call of `like_room` or `send_danmaku`: which medal, how many units,
      and whether the ledger already held the task so the call did nothing. */
  datatype BurstCall = BurstCall(task: Task, medal: Medal, times: nat, skipped: bool)

  /** What a sweep leaves behind. */
  datatype SweepOutcome = SweepOutcome(st: PassState, bursts: seq<BurstCall>, fault: Option<Fault>)

  /** The task whose queue a completed guard-0 medal is also taken off. */
  function Other(task: Task): (r: Task)
    ensures r != task
  {
    match task
    case Like => Danmaku
    case Danmaku => Like
  }

  /** The queue a sweep of `task` walks. */
  function Queue(st: PassState, task: Task): seq<Medal>
  {
    match task
    case Like => st.like
    case Danmaku => st.danmaku
  }

  /** `st` with the queue of `task` replaced. */
  function WithQueue(st: PassState, task: Task, q: seq<Medal>): (r: PassState)
    ensures Queue(r, task) == q && Queue(r, Other(task)) == Queue(st, Other(task))
    ensures r.watch == st.watch && r.logs == st.logs
  {
    match task
    case Like => st.(like := q)
    case Danmaku => st.(danmaku := q)
  }

  /** Likes are sent to live rooms only, danmaku to rooms that are not live. */
  predicate Eligible(task: Task, status: int)
  {
    match task
    case Like => status == Live
    case Danmaku => status != Live
  }

  /** Units per burst: likes 10 for a guard and 36 otherwise, danmaku 5 for a
      guard and 10 otherwise. */
  function Reps(task: Task, guardLevel: int): (n: nat)
    ensures n > 0
    ensures guardLevel > 0 ==> n <= 10
    ensures task == Like && guardLevel <= 0 ==> n == 36
  {
    match task
    case Like => if guardLevel > 0 then 10 else 36
    case Danmaku => if guardLevel > 0 then 5 else 10
  }

  /** A medal the sweep of `task` passes over: its room answered and is not eligible. */
  predicate Waits(task: Task, m: Medal, status: map<int, int>)
  {
    m.roomId in status && !Eligible(task, status[m.roomId])
  }

  /** The medals of `todo` the sweep passes over, in order. */
  function Waiting(task: Task, todo: seq<Medal>, status: map<int, int>): (r: seq<Medal>)
    ensures |r| <= |todo|
  {
    if |todo| == 0 then []
    else (if Waits(task, todo[0], status) then [todo[0]] else []) + Waiting(task, todo[1..], status)
  }

  /** The bookkeeping after a burst: the medal leaves its queue and is marked
      done; a medal without a guard (`guard_level == 0`) that is still queued
      for the other task leaves that queue too and is marked done for it. */
  function Complete(task: Task, st: PassState, m: Medal, today: Date): (r: PassState)
    requires m in Queue(st, task)
    ensures r.watch == st.watch
  {
    var st1 := WithQueue(st, task, RemoveFirst(Queue(st, task), m)).(logs := MarkTaskDone(st.logs, today, m.targetId, task));
    var other := Other(task);
    if m.guardLevel == 0 && m in Queue(st1, other) then
      WithQueue(st1, other, RemoveFirst(Queue(st1, other), m)).(logs := MarkTaskDone(st1.logs, today, m.targetId, other))
    else st1
  }

  /** Whether `Complete` also settles the other task for this medal. */
  predicate Paired(task: Task, st: PassState, m: Medal)
  {
    m.guardLevel == 0 && m in Queue(st, Other(task))
  }

  /** What `Complete` does to the queues and the ledger: one copy of the
      medal leaves its queue and today's entry for the task gains its UID;
      when paired, the same happens for the other task, and otherwise the
      other queue and its entry are untouched; other days are untouched. */
  lemma CompleteEffect(task: Task, st: PassState, m: Medal, today: Date)
    requires m in Queue(st, task)
    ensures var r := Complete(task, st, m, today);
      && Queue(r, task) == RemoveFirst(Queue(st, task), m)
      && multiset(Queue(r, task)) == multiset(Queue(st, task)) - multiset{m}
      && Entries(r.logs, today, task) == Entries(st.logs, today, task) + [m.targetId]
      && (Paired(task, st, m) ==>
        && multiset(Queue(r, Other(task))) == multiset(Queue(st, Other(task))) - multiset{m}
        && Entries(r.logs, today, Other(task)) == Entries(st.logs, today, Other(task)) + [m.targetId])
      && (!Paired(task, st, m) ==>
        && Queue(r, Other(task)) == Queue(st, Other(task))
        && Entries(r.logs, today, Other(task)) == Entries(st.logs, today, Other(task)))
      && (forall d, t :: d != today ==> Entries(r.logs, d, t) == Entries(st.logs, d, t))
  {
  }

  /** The sweep of `task` over `todo`, a copy of the queue taken when the
      sweep began: a medal whose room is not eligible waits; an eligible one
      gets its burst and is completed. A status query that raises, or a
      removal of a medal no longer queued, ends the sweep with a fault. */
  function Sweep(task: Task, st: PassState, todo: seq<Medal>, status: map<int, int>, today: Date): (r: SweepOutcome)
    ensures |r.bursts| <= |todo|
    ensures r.st.watch == st.watch
    ensures r.fault.None? ==> Answered(todo, status)
    ensures r.fault.Some? && r.fault.value.StatusFailed? ==> r.fault.value.roomId !in status
    decreases |todo|
  {
    if |todo| == 0 then SweepOutcome(st, [], None)
    else
      var m := todo[0];
      if m.roomId !in status then SweepOutcome(st, [], Some(StatusFailed(m.roomId)))
      else if !Eligible(task, status[m.roomId]) then Sweep(task, st, todo[1..], status, today)
      else if m !in Queue(st, task) then SweepOutcome(st, [], Some(NotQueued(m)))
      else
        var call := BurstCall(task, m, Reps(task, m.guardLevel), IsTaskDone(st.logs, today, m.targetId, task));
        var rest := Sweep(task, Complete(task, st, m, today), todo[1..], status, today);
        rest.(bursts := [call] + rest.bursts)
  }

  /** Every medal before the sweep's position waits. */
  predicate AllWait(task: Task, kept: seq<Medal>, status: map<int, int>)
  {
    forall i :: 0 <= i < |kept| ==> Waits(task, kept[i], status)
  }

  /** Every room of `todo` has a status answer. */
  predicate Answered(todo: seq<Medal>, status: map<int, int>)
  {
    forall i :: 0 <= i < |todo| ==> todo[i].roomId in status
  }

  /** `Answered` splits at the head. */
  lemma AnsweredHead(todo: seq<Medal>, status: map<int, int>)
    requires |todo| > 0
    ensures Answered(todo, status) <==> todo[0].roomId in status && Answered(todo[1..], status)
  {
    if todo[0].roomId in status && Answered(todo[1..], status) {
      forall i | 0 <= i < |todo|
        ensures todo[i].roomId in status
      {
        if i > 0 {
          assert todo[i] == todo[1..][i - 1];
        }
      }
    }
  }

  /** A sweep that starts with its queue equal to its copy never meets a
      missing medal; it faults exactly when some room of the copy has no
      status answer, and otherwise leaves in the queue exactly the medals
      that wait, in their order. `kept` is the part already passed over. */
  lemma {:induction false} SweepQueue(task: Task, st: PassState, kept: seq<Medal>, todo: seq<Medal>, status: map<int, int>, today: Date)
    requires Queue(st, task) == kept + todo
    requires AllWait(task, kept, status)
    ensures var r := Sweep(task, st, todo, status, today);
      && (r.fault.None? <==> Answered(todo, status))
      && (r.fault.Some? ==> r.fault.value.StatusFailed?)
      && (r.fault.None? ==> Queue(r.st, task) == kept + Waiting(task, todo, status))
    decreases |todo|
  {
    if |todo| == 0 {
      assert kept + Waiting(task, todo, status) == kept;
    } else {
      var m := todo[0];
      AnsweredHead(todo, status);
      assert Queue(st, task) == kept + [m] + todo[1..] by {
        assert todo == [m] + todo[1..];
      }
      if m.roomId in status {
        if !Eligible(task, status[m.roomId]) {
          SweepWaitStep(task, st, kept, todo, status, today);
        } else {
          SweepEligibleStep(task, st, kept, todo, status, today);
        }
      }
    }
  }

  /** The inductive step of `SweepQueue` for a medal that waits. */
  lemma {:induction false} SweepWaitStep(task: Task, st: PassState, kept: seq<Medal>, todo: seq<Medal>, status: map<int, int>, today: Date)
    requires |todo| > 0 && Queue(st, task) == (kept + [todo[0]]) + todo[1..]
    requires AllWait(task, kept, status)
    requires Waits(task, todo[0], status)
    ensures var r := Sweep(task, st, todo, status, today);
      && (r.fault.None? <==> Answered(todo[1..], status))
      && (r.fault.Some? ==> r.fault.value.StatusFailed?)
      && (r.fault.None? ==> Queue(r.st, task) == kept + Waiting(task, todo, status))
    decreases |todo|, 0
  {
    var m := todo[0];
    var w := Waiting(task, todo[1..], status);
    assert Waiting(task, todo, status) == [m] + w;
    ConcatAssoc(kept, [m], w);
    assert AllWait(task, kept + [m], status);
    SweepQueue(task, st, kept + [m], todo[1..], status, today);
  }

  /** The inductive step of `SweepQueue` for an eligible medal. */
  lemma {:induction false} SweepEligibleStep(task: Task, st: PassState, kept: seq<Medal>, todo: seq<Medal>, status: map<int, int>, today: Date)
    requires |todo| > 0 && Queue(st, task) == kept + [todo[0]] + todo[1..]
    requires AllWait(task, kept, status)
    requires todo[0].roomId in status && Eligible(task, status[todo[0].roomId])
    ensures var r := Sweep(task, st, todo, status, today);
      && (r.fault.None? <==> Answered(todo[1..], status))
      && (r.fault.Some? ==> r.fault.value.StatusFailed?)
      && (r.fault.None? ==> Queue(r.st, task) == kept + Waiting(task, todo, status))
    decreases |todo|, 0
  {
    var m := todo[0];
    assert m !in kept;
    RemoveFirstPastPrefix(kept, todo[1..], m);
    var st1 := Complete(task, st, m, today);
    CompleteEffect(task, st, m, today);
    SweepQueue(task, st1, kept, todo[1..], status, today);
    var rest := Sweep(task, st1, todo[1..], status, today);
    assert Sweep(task, st, todo, status, today) == rest.(bursts := [BurstCall(task, m, Reps(task, m.guardLevel), IsTaskDone(st.logs, today, m.targetId, task))] + rest.bursts);
    assert Waiting(task, todo, status) == Waiting(task, todo[1..], status);
  }

  /** The medals of `todo` the sweep acts on, in order. */
  function Acting(task: Task, todo: seq<Medal>, status: map<int, int>): (r: seq<Medal>)
    ensures |r| <= |todo|
  {
    if |todo| == 0 then []
    else (if Waits(task, todo[0], status) then [] else [todo[0]]) + Acting(task, todo[1..], status)
  }

  /** The medals of a sequence of bursts, in order. */
  function BurstMedals(bursts: seq<BurstCall>): (r: seq<Medal>)
    ensures |r| == |bursts|
    ensures forall k :: 0 <= k < |bursts| ==> r[k] == bursts[k].medal
  {
    if |bursts| == 0 then [] else [bursts[0].medal] + BurstMedals(bursts[1..])
  }

  /** The UIDs of a sequence of bursts, in order. */
  function BurstUids(bursts: seq<BurstCall>): (r: seq<int>)
    ensures |r| == |bursts|
    ensures forall k :: 0 <= k < |bursts| ==> r[k] == bursts[k].medal.targetId
  {
    if |bursts| == 0 then [] else [bursts[0].medal.targetId] + BurstUids(bursts[1..])
  }

  /** `Waiting` keeps exactly the medals that wait. */
  lemma {:induction false} WaitingMembers(task: Task, todo: seq<Medal>, status: map<int, int>)
    ensures forall m :: m in Waiting(task, todo, status) <==> m in todo && Waits(task, m, status)
  {
    if |todo| > 0 {
      WaitingMembers(task, todo[1..], status);
      assert todo == [todo[0]] + todo[1..];
    }
  }

  /** A sweep that ran to the end made one burst per medal it acts on, in
      the order of the copy, each with the unit count for that medal's
      guard level. */
  lemma {:induction false} SweepActs(task: Task, st: PassState, todo: seq<Medal>, status: map<int, int>, today: Date)
    ensures var r := Sweep(task, st, todo, status, today);
      && (forall k :: 0 <= k < |r.bursts| ==>
            && r.bursts[k].task == task
            && r.bursts[k].times == Reps(task, r.bursts[k].medal.guardLevel)
            && r.bursts[k].medal.roomId in status
            && Eligible(task, status[r.bursts[k].medal.roomId]))
      && (r.fault.None? ==> BurstMedals(r.bursts) == Acting(task, todo, status))
    decreases |todo|
  {
    if |todo| > 0 {
      var m := todo[0];
      if m.roomId in status {
        if !Eligible(task, status[m.roomId]) {
          SweepActs(task, st, todo[1..], status, today);
        } else if m in Queue(st, task) {
          var st1 := Complete(task, st, m, today);
          SweepActs(task, st1, todo[1..], status, today);
          var rest := Sweep(task, st1, todo[1..], status, today);
          var call := BurstCall(task, m, Reps(task, m.guardLevel), IsTaskDone(st.logs, today, m.targetId, task));
          assert Sweep(task, st, todo, status, today).bursts == [call] + rest.bursts;
          assert ([call] + rest.bursts)[1..] == rest.bursts;
        }
      }
    }
  }

  /** Each sweep only appends to the ledger: no entry of any day loses a UID. */
  lemma {:induction false} SweepGrows(task: Task, st: PassState, todo: seq<Medal>, status: map<int, int>, today: Date)
    ensures forall d, t :: Entries(st.logs, d, t) <= Entries(Sweep(task, st, todo, status, today).st.logs, d, t)
    decreases |todo|
  {
    if |todo| > 0 {
      var m := todo[0];
      if m.roomId in status {
        if !Eligible(task, status[m.roomId]) {
          SweepGrows(task, st, todo[1..], status, today);
        } else if m in Queue(st, task) {
          var st1 := Complete(task, st, m, today);
          SweepGrows(task, st1, todo[1..], status, today);
          CompleteGrows(task, st, m, today);
          assert Sweep(task, st, todo, status, today).st == Sweep(task, st1, todo[1..], status, today).st;
          PrefixTrans(st.logs, st1.logs, Sweep(task, st, todo, status, today).st.logs);
        }
      }
    }
  }

  /** Today's entry for the swept task gains the burst UIDs in burst order,
      and a burst was skipped exactly when its UID was already recorded
      before the sweep or by an earlier burst of the same sweep. */
  lemma {:induction false} SweepSkips(task: Task, st: PassState, todo: seq<Medal>, status: map<int, int>, today: Date)
    ensures var r := Sweep(task, st, todo, status, today);
      && Entries(r.st.logs, today, task) == Entries(st.logs, today, task) + BurstUids(r.bursts)
      && (forall k :: 0 <= k < |r.bursts| ==>
            (r.bursts[k].skipped <==> r.bursts[k].medal.targetId in Entries(st.logs, today, task) + BurstUids(r.bursts[..k])))
    decreases |todo|, 1
  {
    if |todo| > 0 {
      var m := todo[0];
      if m.roomId in status {
        if !Eligible(task, status[m.roomId]) {
          SweepSkips(task, st, todo[1..], status, today);
        } else if m in Queue(st, task) {
          SweepSkipsStep(task, st, todo, status, today);
        }
      }
    }
  }

  /** The inductive step of `SweepSkips` for a medal that gets its burst. */
  lemma {:induction false} SweepSkipsStep(task: Task, st: PassState, todo: seq<Medal>, status: map<int, int>, today: Date)
    requires |todo| > 0 && todo[0].roomId in status && Eligible(task, status[todo[0].roomId])
    requires todo[0] in Queue(st, task)
    ensures var r := Sweep(task, st, todo, status, today);
      && Entries(r.st.logs, today, task) == Entries(st.logs, today, task) + BurstUids(r.bursts)
      && (forall k :: 0 <= k < |r.bursts| ==>
            (r.bursts[k].skipped <==> r.bursts[k].medal.targetId in Entries(st.logs, today, task) + BurstUids(r.bursts[..k])))
    decreases |todo|, 0
  {
    var m := todo[0];
    var st1 := Complete(task, st, m, today);
    var rest := Sweep(task, st1, todo[1..], status, today);
    var call := BurstCall(task, m, Reps(task, m.guardLevel), IsTaskDone(st.logs, today, m.targetId, task));
    var r := Sweep(task, st, todo, status, today);
    assert r.st == rest.st && r.bursts == [call] + rest.bursts;
    var before := Entries(st.logs, today, task);
    SweepSkips(task, st1, todo[1..], status, today);
    assert Entries(st1.logs, today, task) == before + [m.targetId] by {
      CompleteEffect(task, st, m, today);
    }
    SkipsShift(before, call, rest.bursts);
    ConcatAssoc(before, [m.targetId], BurstUids(rest.bursts));
  }

  /** Ledger growth composes. */
  lemma PrefixTrans(a: Log, b: Log, c: Log)
    requires forall d, t :: Entries(a, d, t) <= Entries(b, d, t)
    requires forall d, t :: Entries(b, d, t) <= Entries(c, d, t)
    ensures forall d, t :: Entries(a, d, t) <= Entries(c, d, t)
  {
  }

  /** How the skip rule of `SweepSkips` carries over when one burst is put
      in front: its UID joins the recorded ones for the later bursts. */
  lemma SkipsShift(before: seq<int>, call: BurstCall, later: seq<BurstCall>)
    requires call.skipped <==> call.medal.targetId in before
    requires forall k :: 0 <= k < |later| ==>
      (later[k].skipped <==> later[k].medal.targetId in (before + [call.medal.targetId]) + BurstUids(later[..k]))
    ensures BurstUids([call] + later) == [call.medal.targetId] + BurstUids(later)
    ensures var bursts := [call] + later;
      forall k :: 0 <= k < |bursts| ==>
        (bursts[k].skipped <==> bursts[k].medal.targetId in before + BurstUids(bursts[..k]))
  {
    var bursts := [call] + later;
    assert bursts[1..] == later;
    forall k | 0 <= k < |bursts|
      ensures bursts[k].skipped <==> bursts[k].medal.targetId in before + BurstUids(bursts[..k])
    {
      if k > 0 {
        UidsPastFirst(before, call, later, k);
      } else {
        assert bursts[..k] == [];
      }
    }
  }

  /** The UIDs recorded before burst `k` of `[call] + later` are those
      recorded before burst `k - 1` of `later`, once `call`'s UID is added. */
  lemma UidsPastFirst(before: seq<int>, call: BurstCall, later: seq<BurstCall>, k: nat)
    requires 0 < k <= |later|
    ensures ([call] + later)[k] == later[k - 1]
    ensures before + BurstUids(([call] + later)[..k]) == (before + [call.medal.targetId]) + BurstUids(later[..k - 1])
  {
    var bursts := [call] + later;
    var u := call.medal.targetId;
    assert bursts[..k][1..] == later[..k - 1];
    assert BurstUids(bursts[..k]) == [u] + BurstUids(later[..k - 1]);
  }

  /** `Complete` only appends to the ledger. */
  lemma CompleteGrows(task: Task, st: PassState, m: Medal, today: Date)
    requires m in Queue(st, task)
    ensures forall d, t :: Entries(st.logs, d, t) <= Entries(Complete(task, st, m, today).logs, d, t)
  {
    CompleteEffect(task, st, m, today);
    forall d, t
      ensures Entries(st.logs, d, t) <= Entries(Complete(task, st, m, today).logs, d, t)
    {
      if d == today && t != task {
        assert t == Other(task);
      }
    }
  }

  /** A sweep only takes medals off the other task's queue, and never a
      medal whose holder is a guard: those keep every queued copy. */
  lemma {:induction false} SweepOther(task: Task, st: PassState, todo: seq<Medal>, status: map<int, int>, today: Date)
    ensures var r := Sweep(task, st, todo, status, today);
      && multiset(Queue(r.st, Other(task))) <= multiset(Queue(st, Other(task)))
      && (forall m: Medal :: m.guardLevel != 0 ==>
            multiset(Queue(r.st, Other(task)))[m] == multiset(Queue(st, Other(task)))[m])
    decreases |todo|
  {
    if |todo| > 0 {
      var m := todo[0];
      if m.roomId in status {
        if !Eligible(task, status[m.roomId]) {
          SweepOther(task, st, todo[1..], status, today);
        } else if m in Queue(st, task) {
          var st1 := Complete(task, st, m, today);
          SweepOther(task, st1, todo[1..], status, today);
          CompleteOther(task, st, m, today);
          assert Sweep(task, st, todo, status, today).st == Sweep(task, st1, todo[1..], status, today).st;
        }
      }
    }
  }

  /** The two sweeps of a round: likes over a copy of the like queue, then,
      unless that faulted, danmaku over a copy of the danmaku queue as the
      like sweep left it. Each sweep reads its own status answers. */
  function BothSweeps(st0: PassState, likeStatus: map<int, int>, danmakuStatus: map<int, int>, today: Date): (r: SweepOutcome)
    ensures r.st.watch == st0.watch
    ensures r.fault.None? ==> Answered(st0.like, likeStatus)
    ensures r.fault.Some? && r.fault.value.StatusFailed? ==>
      r.fault.value.roomId !in likeStatus || r.fault.value.roomId !in danmakuStatus
  {
    var likes := Sweep(Like, st0, st0.like, likeStatus, today);
    if likes.fault.Some? then likes
    else
      var danmaku := Sweep(Danmaku, likes.st, likes.st.danmaku, danmakuStatus, today);
      danmaku.(bursts := likes.bursts + danmaku.bursts)
  }

  /** After both sweeps ran to the end, every like still queued is for a
      room whose like-sweep answer was not live and every danmaku still
      queued is for a room whose danmaku-sweep answer was live; a fault is
      always a failed status query, and a round without one had an answer
      for every queued like. */
  lemma SweepsLeaveWaiting(st0: PassState, likeStatus: map<int, int>, danmakuStatus: map<int, int>, today: Date)
    ensures var r := BothSweeps(st0, likeStatus, danmakuStatus, today);
      && (r.fault.Some? ==> r.fault.value.StatusFailed?)
      && (r.fault.None? ==> Answered(st0.like, likeStatus))
      && (r.fault.None? ==> forall m :: m in r.st.like ==> Waits(Like, m, likeStatus))
      && (r.fault.None? ==> forall m :: m in r.st.danmaku ==> Waits(Danmaku, m, danmakuStatus))
  {
    SweepQueue(Like, st0, [], st0.like, likeStatus, today);
    var likes := Sweep(Like, st0, st0.like, likeStatus, today);
    assert [] + st0.like == st0.like;
    if likes.fault.None? {
      var st1 := likes.st;
      assert Queue(st1, Like) == Waiting(Like, st0.like, likeStatus);
      WaitingMembers(Like, st0.like, likeStatus);
      assert [] + st1.danmaku == st1.danmaku;
      SweepQueue(Danmaku, st1, [], st1.danmaku, danmakuStatus, today);
      SweepOther(Danmaku, st1, st1.danmaku, danmakuStatus, today);
      WaitingMembers(Danmaku, st1.danmaku, danmakuStatus);
      var danmaku := Sweep(Danmaku, st1, st1.danmaku, danmakuStatus, today);
      if danmaku.fault.None? {
        forall m | m in danmaku.st.like
          ensures Waits(Like, m, likeStatus)
        {
          assert multiset(danmaku.st.like)[m] > 0;
          assert m in st1.like;
        }
      }
    }
  }

  /** Every burst of the round is for a medal whose room answered its
      sweep's status query as eligible, with the unit count for its task and
      guard level. */
  lemma SweepsBursts(st0: PassState, likeStatus: map<int, int>, danmakuStatus: map<int, int>, today: Date)
    ensures var r := BothSweeps(st0, likeStatus, danmakuStatus, today);
      forall k :: 0 <= k < |r.bursts| ==>
        var b := r.bursts[k];
        && b.times == Reps(b.task, b.medal.guardLevel)
        && (b.task == Like ==> b.medal.roomId in likeStatus && likeStatus[b.medal.roomId] == Live)
        && (b.task == Danmaku ==> b.medal.roomId in danmakuStatus && danmakuStatus[b.medal.roomId] != Live)
  {
    SweepActs(Like, st0, st0.like, likeStatus, today);
    var likes := Sweep(Like, st0, st0.like, likeStatus, today);
    if likes.fault.None? {
      SweepActs(Danmaku, likes.st, likes.st.danmaku, danmakuStatus, today);
    }
  }

  /** Both sweeps only append to the ledger and only take medals off the
      like and danmaku queues. */
  lemma SweepsBookkeeping(st0: PassState, likeStatus: map<int, int>, danmakuStatus: map<int, int>, today: Date)
    ensures var r := BothSweeps(st0, likeStatus, danmakuStatus, today);
      && (forall d, t :: Entries(st0.logs, d, t) <= Entries(r.st.logs, d, t))
      && multiset(r.st.like) <= multiset(st0.like)
      && multiset(r.st.danmaku) <= multiset(st0.danmaku)
  {
    SweepGrows(Like, st0, st0.like, likeStatus, today);
    SweepOther(Like, st0, st0.like, likeStatus, today);
    SweepShrinks(Like, st0, st0.like, likeStatus, today);
    var likes := Sweep(Like, st0, st0.like, likeStatus, today);
    if likes.fault.None? {
      var st1 := likes.st;
      SweepGrows(Danmaku, st1, st1.danmaku, danmakuStatus, today);
      SweepOther(Danmaku, st1, st1.danmaku, danmakuStatus, today);
      SweepShrinks(Danmaku, st1, st1.danmaku, danmakuStatus, today);
      PrefixTrans(st0.logs, st1.logs, Sweep(Danmaku, st1, st1.danmaku, danmakuStatus, today).st.logs);
    }
  }

  /** A sweep only takes medals off its own queue. */
  lemma {:induction false} SweepShrinks(task: Task, st: PassState, todo: seq<Medal>, status: map<int, int>, today: Date)
    ensures multiset(Queue(Sweep(task, st, todo, status, today).st, task)) <= multiset(Queue(st, task))
    decreases |todo|
  {
    if |todo| > 0 {
      var m := todo[0];
      if m.roomId in status {
        if !Eligible(task, status[m.roomId]) {
          SweepShrinks(task, st, todo[1..], status, today);
        } else if m in Queue(st, task) {
          var st1 := Complete(task, st, m, today);
          SweepShrinks(task, st1, todo[1..], status, today);
          CompleteEffect(task, st, m, today);
          assert Sweep(task, st, todo, status, today).st == Sweep(task, st1, todo[1..], status, today).st;
        }
      }
    }
  }

  /** `SweepOther` for a single completion. */
  lemma CompleteOther(task: Task, st: PassState, m: Medal, today: Date)
    requires m in Queue(st, task)
    ensures var r := Complete(task, st, m, today);
      && multiset(Queue(r, Other(task))) <= multiset(Queue(st, Other(task)))
      && (forall x: Medal :: x.guardLevel != 0 ==>
            multiset(Queue(r, Other(task)))[x] == multiset(Queue(st, Other(task)))[x])
  {
    CompleteEffect(task, st, m, today);
  }

  /** One round of `task_loop`: both sweeps, then, unless a status query
      raised, one watch session. `get_next_watchable` picks a medal and
      `watch_room` runs on it; the medal leaves the watch queue when
      `watch_room` returns True. `progress` and `watchStatus` answer
      `get_next_watchable`'s queries, `polls` and `heartbeat` the calls of
      `watch_room`; `sent` counts its heartbeats. */
  method RunPass(st0: PassState, likeStatus: map<int, int>, danmakuStatus: map<int, int>,
                 watchStatus: map<int, int>, progress: map<int, int>, polls: nat -> Option<int>,
                 heartbeat: nat -> bool, target: int, maxAttempts: int, today: Date)
    returns (st: PassState, bursts: seq<BurstCall>, fault: Option<Fault>,
             watched: Option<Medal>, outcome: Option<WatchOutcome>, sent: nat)
    ensures var r := BothSweeps(st0, likeStatus, danmakuStatus, today);
      && bursts == r.bursts && fault == r.fault
      && st.like == r.st.like && st.danmaku == r.st.danmaku && st.logs == r.st.logs
    ensures fault.Some? ==> watched.None? && st.watch == st0.watch
    ensures var first := FirstWatchable(st0.watch, progress, watchStatus, target);
      && (fault.None? ==> (watched.Some? <==> first.Some?))
      && (watched.Some? ==> first.Some? && watched.value == st0.watch[first.value])
    ensures outcome.Some? <==> watched.Some?
    ensures outcome.Some? ==> (outcome.value, sent) == WatchSession(polls, heartbeat, target, maxAttempts)
    ensures outcome.None? ==> sent == 0
    ensures var rest := ScanRest(st0.watch, progress, watchStatus, target);
      && (fault.None? && !(watched.Some? && outcome.value.Returned()) ==> st.watch == rest)
      && (watched.Some? && outcome.value.Returned() ==>
            watched.value in rest && st.watch == RemoveFirst(rest, watched.value))
    ensures multiset(st.watch) <= multiset(st0.watch)
    ensures watched.Some? && outcome.value.Returned() ==>
      multiset(st.watch)[watched.value] < multiset(st0.watch)[watched.value]
    ensures watched.Some? && !outcome.value.Returned() ==> watched.value in st.watch
  {
    watched, outcome, sent := None, None, 0;
    var swept := BothSweeps(st0, likeStatus, danmakuStatus, today);
    st, bursts, fault := swept.st, swept.bursts, swept.fault;
    if fault.Some? {
      return;
    }
    var pick, rest := GetNextWatchable(st.watch, progress, watchStatus, target);
    st := st.(watch := rest);
    if pick.Some? {
      var o, n := WatchRoom(polls, heartbeat, target, maxAttempts);
      watched, outcome, sent := pick, Some(o), n;
      if o.Returned() {
        st := st.(watch := RemoveFirst(rest, pick.value));
      }
    }
  }
}
