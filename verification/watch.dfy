/** The watch task: `get_next_watchable` picks the medal to watch and
    `watch_room` polls progress and sends heartbeats until the target is met,
    the attempt cap is hit, or a call fails. The one-minute sleep between
    heartbeats is left out. */
module Watch {
  import opened Wrappers
  import opened Seqs
  import opened Medals

  /** `getWatchLiveProgress` counts in units of five minutes. */
  const MinutesPerUnit: int := 5

  /** `getRoomLiveStatus` value of a room showing a rotation (replay). */
  const Rotating: int := 2

  /** The medal's reported progress already reaches the target. */
  predicate Settled(m: Medal, progress: map<int, int>, target: int)
  {
    m.targetId in progress && progress[m.targetId] * MinutesPerUnit >= target
  }

  /** Both queries answered, progress below the target, and the room not rotating. */
  predicate Watchable(m: Medal, progress: map<int, int>, status: map<int, int>, target: int)
  {
    && m.targetId in progress && progress[m.targetId] * MinutesPerUnit < target
    && m.roomId in status && status[m.roomId] != Rotating
  }

  /** Index of the earliest watchable medal, if any. */
  function FirstWatchable(list: seq<Medal>, progress: map<int, int>, status: map<int, int>, target: int): (r: Option<nat>)
    ensures r.Some? ==> r.value < |list| && Watchable(list[r.value], progress, status, target)
    ensures r.Some? ==> forall j :: 0 <= j < r.value ==> !Watchable(list[j], progress, status, target)
    ensures r.None? ==> forall j :: 0 <= j < |list| ==> !Watchable(list[j], progress, status, target)
  {
    if |list| == 0 then None
    else if Watchable(list[0], progress, status, target) then Some(0)
    else
      match FirstWatchable(list[1..], progress, status, target)
      case None => None
      case Some(i) => Some(i + 1)
  }

  /** The medals not yet settled, in order. */
  function DropSettled(list: seq<Medal>, progress: map<int, int>, target: int): (r: seq<Medal>)
    ensures |r| <= |list|
  {
    if |list| == 0 then []
    else
      var n := |list| - 1;
      DropSettled(list[..n], progress, target) + (if Settled(list[n], progress, target) then [] else [list[n]])
  }

  /** `DropSettled` keeps exactly the unsettled medals. */
  lemma {:induction false} DropSettledMembers(list: seq<Medal>, progress: map<int, int>, target: int)
    ensures forall m :: m in DropSettled(list, progress, target) <==> m in list && !Settled(m, progress, target)
  {
    if |list| > 0 {
      var n := |list| - 1;
      DropSettledMembers(list[..n], progress, target);
      assert list == list[..n] + [list[n]];
    }
  }

  /** `get_next_watchable`: scanning from the front, settled medals are
      removed from the queue, medals whose query failed or whose room is
      rotating are kept, and the scan stops at the first watchable medal,
      which is returned and stays queued. `progress` and `status` hold the
      query answers per UID and per room; a missing entry is a failed query. */
  method GetNextWatchable(watchList: seq<Medal>, progress: map<int, int>, status: map<int, int>, target: int)
    returns (pick: Option<Medal>, rest: seq<Medal>)
    ensures pick.Some? <==> FirstWatchable(watchList, progress, status, target).Some?
    ensures pick.Some? ==> pick.value == watchList[FirstWatchable(watchList, progress, status, target).value]
    ensures rest == ScanRest(watchList, progress, status, target)
    ensures pick.Some? ==> pick.value in rest
    ensures multiset(rest) <= multiset(watchList)
  {
    rest := watchList;
    var i := 0;
    while i < |watchList|
      invariant 0 <= i <= |watchList|
      invariant rest == DropSettled(watchList[..i], progress, target) + watchList[i..]
      invariant NoneWatchableBefore(watchList, i, progress, status, target)
    {
      var m := watchList[i];
      if m.targetId in progress {
        var watched := progress[m.targetId] * MinutesPerUnit;
        if watched >= target {
          assert Settled(m, progress, target);
          NoneWatchableStep(watchList, i, progress, status, target);
          RemoveSettledStep(watchList, i, progress, target);
          rest := RemoveFirst(rest, m);
          i := i + 1;
          continue;
        }
        if m.roomId in status && status[m.roomId] != Rotating {
          assert Watchable(m, progress, status, target);
          FirstWatchableIs(watchList, progress, status, target, i);
          assert ScanEnd(watchList, progress, status, target) == i;
          RestShrinks(watchList, i, progress, target);
          return Some(m), rest;
        }
      }
      assert !Settled(m, progress, target);
      NoneWatchableStep(watchList, i, progress, status, target);
      KeepStep(watchList, i, progress, target);
      i := i + 1;
    }
    pick := None;
    assert watchList[..i] == watchList;
    assert FirstWatchable(watchList, progress, status, target) == None;
    RestShrinks(watchList, i, progress, target);
  }

  /** No medal before position `i` is watchable. */
  predicate NoneWatchableBefore(list: seq<Medal>, i: nat, progress: map<int, int>, status: map<int, int>, target: int)
    requires i <= |list|
  {
    forall j :: 0 <= j < i ==> !Watchable(list[j], progress, status, target)
  }

  /** A medal passed over by the scan is not watchable. */
  lemma NoneWatchableStep(list: seq<Medal>, i: nat, progress: map<int, int>, status: map<int, int>, target: int)
    requires i < |list| && NoneWatchableBefore(list, i, progress, status, target)
    requires !Watchable(list[i], progress, status, target)
    ensures NoneWatchableBefore(list, i + 1, progress, status, target)
  {
  }

  /** Where the scan of `get_next_watchable` stops: at the first watchable
      medal, or at the end of the queue. */
  function ScanEnd(list: seq<Medal>, progress: map<int, int>, status: map<int, int>, target: int): (r: nat)
    ensures r <= |list|
  {
    match FirstWatchable(list, progress, status, target)
    case Some(i) => i
    case None => |list|
  }

  /** The queue a scan leaves: settled medals before the scan's stop are
      gone, and everything from the stop on is untouched. */
  function ScanRest(list: seq<Medal>, progress: map<int, int>, status: map<int, int>, target: int): (r: seq<Medal>)
  {
    var scanned := ScanEnd(list, progress, status, target);
    DropSettled(list[..scanned], progress, target) + list[scanned..]
  }

  /** Dropping settled medals only removes elements. */
  lemma {:induction false} DropSettledShrinks(list: seq<Medal>, progress: map<int, int>, target: int)
    ensures multiset(DropSettled(list, progress, target)) <= multiset(list)
  {
    if |list| > 0 {
      var n := |list| - 1;
      DropSettledShrinks(list[..n], progress, target);
      assert list == list[..n] + [list[n]];
    }
  }

  /** The queue left by a scan stopped at `i` holds no medal it did not hold before. */
  lemma RestShrinks(list: seq<Medal>, i: nat, progress: map<int, int>, target: int)
    requires i <= |list|
    ensures multiset(DropSettled(list[..i], progress, target) + list[i..]) <= multiset(list)
  {
    var kept := DropSettled(list[..i], progress, target);
    DropSettledShrinks(list[..i], progress, target);
    assert multiset(kept + list[i..]) == multiset(kept) + multiset(list[i..]);
    assert multiset(list) == multiset(list[..i]) + multiset(list[i..]) by {
      assert list == list[..i] + list[i..];
    }
  }

  /** Removing a settled medal during the scan extends the settled-free prefix. */
  lemma RemoveSettledStep(list: seq<Medal>, i: nat, progress: map<int, int>, target: int)
    requires i < |list| && Settled(list[i], progress, target)
    ensures list[i] in DropSettled(list[..i], progress, target) + list[i..]
    ensures RemoveFirst(DropSettled(list[..i], progress, target) + list[i..], list[i])
      == DropSettled(list[..i + 1], progress, target) + list[i + 1..]
  {
    var m := list[i];
    var kept := DropSettled(list[..i], progress, target);
    assert kept + list[i..] == kept + [m] + list[i + 1..] by {
      assert list[i..] == [m] + list[i + 1..];
    }
    assert m !in kept by {
      DropSettledMembers(list[..i], progress, target);
    }
    assert DropSettled(list[..i + 1], progress, target) == kept by {
      assert list[..i + 1][..i] == list[..i];
    }
    RemoveFirstPastPrefix(kept, list[i + 1..], m);
  }

  /** Keeping an unsettled medal during the scan also extends the prefix. */
  lemma KeepStep(list: seq<Medal>, i: nat, progress: map<int, int>, target: int)
    requires i < |list| && !Settled(list[i], progress, target)
    ensures DropSettled(list[..i], progress, target) + list[i..]
      == DropSettled(list[..i + 1], progress, target) + list[i + 1..]
  {
    assert list[..i + 1][..i] == list[..i];
    assert list[i..] == [list[i]] + list[i + 1..];
  }

  /** The first watchable position found by a scan is the one `FirstWatchable` names. */
  lemma FirstWatchableIs(list: seq<Medal>, progress: map<int, int>, status: map<int, int>, target: int, i: nat)
    requires i < |list| && Watchable(list[i], progress, status, target)
    requires NoneWatchableBefore(list, i, progress, status, target)
    ensures FirstWatchable(list, progress, status, target) == Some(i)
  {
  }

  /** How a watch session ended. `watch_room` returns True for the first two. */
  datatype WatchOutcome = Completed | Capped | ProgressFailed | HeartbeatFailed
  {
    predicate Returned()
    {
      Completed? || Capped?
    }
  }

  /** Poll `j` answered and its progress is still below the target. */
  predicate Below(progress: nat -> Option<int>, j: nat, target: int)
  {
    progress(j).Some? && progress(j).value * MinutesPerUnit < target
  }

  /** The rounds of `watch_room`'s loop from the one with `sent` heartbeats
      behind it: poll, stop when the poll fails, the target is met or the
      cap is reached, otherwise send heartbeat `sent` and stop if it fails.
      The pair is the outcome and the heartbeats sent. */
  function Session(progress: nat -> Option<int>, heartbeat: nat -> bool, target: int, maxAttempts: int, sent: nat): (r: (WatchOutcome, nat))
    decreases maxAttempts - sent
  {
    var p := progress(sent + 1);
    if p.None? then (ProgressFailed, sent)
    else if p.value * MinutesPerUnit >= target then (Completed, sent)
    else if sent >= maxAttempts then (Capped, sent)
    else if !heartbeat(sent) then (HeartbeatFailed, sent + 1)
    else Session(progress, heartbeat, target, maxAttempts, sent + 1)
  }

  /** A whole watch session: the opening poll, then the loop. */
  function WatchSession(progress: nat -> Option<int>, heartbeat: nat -> bool, target: int, maxAttempts: int): (r: (WatchOutcome, nat))
  {
    if progress(0).None? then (ProgressFailed, 0) else Session(progress, heartbeat, target, maxAttempts, 0)
  }

  /** `watch_room`. `progress(j)` answers the j-th progress poll (poll 0 is
      the one before the loop, poll j + 1 opens loop round j) and
      `heartbeat(j)` the j-th heartbeat; `sent` counts heartbeats sent. */
  method WatchRoom(progress: nat -> Option<int>, heartbeat: nat -> bool, target: int, maxAttempts: int)
    returns (outcome: WatchOutcome, sent: nat)
    ensures (outcome, sent) == WatchSession(progress, heartbeat, target, maxAttempts)
    ensures sent <= if maxAttempts > 0 then maxAttempts else 0
    ensures progress(0).None? ==> outcome == ProgressFailed && sent == 0
    ensures forall j :: 1 <= j <= sent ==> Below(progress, j, target)
    ensures forall j :: 0 <= j < sent - 1 ==> heartbeat(j)
    ensures outcome == HeartbeatFailed <==> sent > 0 && !heartbeat(sent - 1)
    ensures outcome == Completed ==>
      progress(sent + 1).Some? && progress(sent + 1).value * MinutesPerUnit >= target
    ensures outcome == Capped ==> Below(progress, sent + 1, target) && sent >= maxAttempts
    ensures outcome == ProgressFailed ==> progress(0).None? || progress(sent + 1).None?
  {
    var first := progress(0);
    if first.None? {
      return ProgressFailed, 0;
    }
    sent := 0;
    var cap: int := if maxAttempts > 0 then maxAttempts else 0;
    while true
      invariant sent <= cap
      invariant forall j :: 1 <= j <= sent ==> Below(progress, j, target)
      invariant forall j :: 0 <= j < sent ==> heartbeat(j)
      invariant Session(progress, heartbeat, target, maxAttempts, sent) == WatchSession(progress, heartbeat, target, maxAttempts)
      decreases cap - sent
    {
      var p := progress(sent + 1);
      if p.None? {
        return ProgressFailed, sent;
      }
      var watched := p.value * MinutesPerUnit;
      if watched >= target {
        return Completed, sent;
      }
      if sent >= maxAttempts {
        return Capped, sent;
      }
      var ok := heartbeat(sent);
      sent := sent + 1;
      if !ok {
        return HeartbeatFailed, sent;
      }
    }
  }

  /** With every poll and heartbeat answered, a session returns True, and
      it sends exactly the heartbeats the cap allows unless the target is
      met first. */
  lemma {:induction false} SessionSucceeds(progress: nat -> Option<int>, heartbeat: nat -> bool, target: int, maxAttempts: int, sent: nat)
    requires forall j :: progress(j).Some?
    requires forall j :: heartbeat(j)
    ensures var (o, n) := Session(progress, heartbeat, target, maxAttempts, sent);
      o.Returned() && n >= sent && (o == Capped ==> n == if maxAttempts > sent then maxAttempts else sent)
    decreases maxAttempts - sent
  {
    var p := progress(sent + 1);
    if p.value * MinutesPerUnit < target && sent < maxAttempts {
      SessionSucceeds(progress, heartbeat, target, maxAttempts, sent + 1);
    }
  }

  /** `watch_room` never returns False when no call fails. */
  lemma WatchSucceedsWithoutFailures(progress: nat -> Option<int>, heartbeat: nat -> bool, target: int, maxAttempts: int)
    requires forall j :: progress(j).Some?
    requires forall j :: heartbeat(j)
    ensures WatchSession(progress, heartbeat, target, maxAttempts).0.Returned()
  {
    SessionSucceeds(progress, heartbeat, target, maxAttempts, 0);
  }
}
