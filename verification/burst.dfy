/** `like_room` and `send_danmaku`: a burst of `times` units, each unit
    retried until it succeeds or has failed three times. The remote API is an
    oracle `api(k)`: whether the k-th call of the burst succeeds. Sleeps
    between calls are left out. */
module Burst {
  import opened Wrappers
  import opened Text
  import opened Ledger
  import opened Medals

  /** Attempts allowed per unit (`while fail_count < 3`). */
  const MaxTries: nat := 3

  /** The outcomes of all calls, unit after unit. */
  function Flatten(units: seq<seq<bool>>): seq<bool>
  {
    if |units| == 0 then [] else Flatten(units[..|units| - 1]) + units[|units| - 1]
  }

  /** How many units ended in a successful call. */
  function Succeeded(units: seq<seq<bool>>): nat
  {
    if |units| == 0 then 0
    else
      var last := units[|units| - 1];
      Succeeded(units[..|units| - 1]) + (if |last| > 0 && last[|last| - 1] then 1 else 0)
  }

  /** The retry rule for one unit: between one and three calls, every call
      but the last failed, and the last one succeeded unless it was the third. */
  predicate UnitShape(tries: seq<bool>)
  {
    && 1 <= |tries| <= MaxTries
    && (forall k :: 0 <= k < |tries| - 1 ==> !tries[k])
    && (tries[|tries| - 1] || |tries| == MaxTries)
  }

  /** A finished burst: `times` units obeying the retry rule whose calls, in
      order, got exactly the oracle's answers. */
  predicate WellRun(units: seq<seq<bool>>, times: nat, api: nat -> bool)
  {
    && |units| == times
    && (forall i :: 0 <= i < times ==> UnitShape(units[i]))
    && (forall k :: 0 <= k < |Flatten(units)| ==> Flatten(units)[k] == api(k))
  }

  /** One unit: calls made from call number `start` on until one succeeds
      or three have failed. */
  method RunUnit(start: nat, api: nat -> bool) returns (tries: seq<bool>)
    ensures UnitShape(tries)
    ensures forall k :: 0 <= k < |tries| ==> tries[k] == api(start + k)
  {
    tries := [];
    var failCount := 0;
    while failCount < MaxTries
      invariant 0 <= failCount <= MaxTries && |tries| == failCount
      invariant forall k :: 0 <= k < |tries| ==> !tries[k] && tries[k] == api(start + k)
    {
      var ok := api(start + |tries|);
      tries := tries + [ok];
      if ok {
        return;
      }
      failCount := failCount + 1;
    }
  }

  /** `n` calls that all carry `text`. */
  function Repeat(n: nat, text: Option<string>): (r: seq<Option<string>>)
    ensures |r| == n && forall k :: 0 <= k < n ==> r[k] == text
  {
    seq(n, k => text)
  }

  /** The text each call of a burst carries, unit after unit: every call of
      unit `i` carries `first` when `i == 0` and nothing otherwise. */
  function UnitTexts(units: seq<seq<bool>>, first: Option<string>): (texts: seq<Option<string>>)
    ensures |texts| == |Flatten(units)|
  {
    if |units| == 0 then []
    else
      var n := |units| - 1;
      UnitTexts(units[..n], first) + Repeat(|units[n]|, if n == 0 then first else None)
  }

  /** By call number: the calls of the first unit carry `first`, and no
      later call carries anything. */
  lemma {:induction false} UnitTextsLead(units: seq<seq<bool>>, first: Option<string>)
    ensures forall k :: 0 <= k < |UnitTexts(units, first)| ==>
      |units| > 0 && UnitTexts(units, first)[k] == if k < |units[0]| then first else None
  {
    if |units| > 0 {
      var n := |units| - 1;
      var pre := units[..n];
      var texts := UnitTexts(units, first);
      var head := UnitTexts(pre, first);
      var tail := Repeat(|units[n]|, if n == 0 then first else None);
      assert texts == head + tail;
      UnitTextsLead(pre, first);
      if n > 0 {
        assert pre[0] == units[0];
        FirstUnitLeads(pre);
        forall k | 0 <= k < |texts|
          ensures texts[k] == if k < |units[0]| then first else None
        {
          if k < |head| {
            assert texts[k] == head[k];
          } else {
            assert texts[k] == tail[k - |head|];
          }
        }
      } else {
        assert pre == [];
        assert texts == tail;
        assert forall k :: 0 <= k < |texts| ==> texts[k] == first;
      }
    } else {
      assert UnitTexts(units, first) == [];
    }
  }

  /** Appending a unit appends its calls, its success and its texts. */
  lemma AppendUnit(units: seq<seq<bool>>, tries: seq<bool>, first: Option<string>)
    requires |tries| > 0
    ensures Flatten(units + [tries]) == Flatten(units) + tries
    ensures Succeeded(units + [tries]) == Succeeded(units) + if tries[|tries| - 1] then 1 else 0
    ensures UnitTexts(units + [tries], first)
         == UnitTexts(units, first) + Repeat(|tries|, if |units| == 0 then first else None)
  {
    assert (units + [tries])[..|units|] == units;
  }

  /** The retry loops shared by both bursts. The calls of unit `i` carry
      `first` when `i == 0` and nothing otherwise; `messages[k]` is what the
      k-th call carried. */
  method RunBurst(times: nat, api: nat -> bool, first: Option<string>)
    returns (units: seq<seq<bool>>, messages: seq<Option<string>>, successCount: nat)
    ensures WellRun(units, times, api)
    ensures successCount == Succeeded(units) <= times
    ensures times <= |Flatten(units)| <= MaxTries * times
    ensures messages == UnitTexts(units, first)
  {
    units, messages := [], [];
    successCount := 0;
    var calls := 0;
    var i := 0;
    while i < times
      invariant 0 <= i <= times && |units| == i
      invariant forall u :: 0 <= u < i ==> UnitShape(units[u])
      invariant calls == |Flatten(units)|
      invariant forall k :: 0 <= k < calls ==> Flatten(units)[k] == api(k)
      invariant successCount == Succeeded(units) <= i
      invariant i <= calls <= MaxTries * i
      invariant messages == UnitTexts(units, first)
    {
      var tries := RunUnit(calls, api);
      if tries[|tries| - 1] {
        successCount := successCount + 1;
      }
      var sent := Repeat(|tries|, if i == 0 then first else None);
      AppendUnit(units, tries, first);
      units := units + [tries];
      messages := messages + sent;
      calls := calls + |tries|;
      i := i + 1;
    }
  }

  /** `like_room`: nothing at all when today's ledger already holds the like
      for this medal; otherwise a full burst of `times` units. */
  method LikeRoom(logs: Log, today: Date, medal: Medal, times: nat, api: nat -> bool)
    returns (units: seq<seq<bool>>, successCount: nat)
    ensures IsTaskDone(logs, today, medal.targetId, Like) ==> units == [] && successCount == 0
    ensures !IsTaskDone(logs, today, medal.targetId, Like) ==> WellRun(units, times, api)
    ensures successCount == Succeeded(units) <= times
    ensures |Flatten(units)| <= MaxTries * times
  {
    if IsTaskDone(logs, today, medal.targetId, Like) {
      return [], 0;
    }
    var texts;
    units, texts, successCount := RunBurst(times, api, None);
  }

  /** The text of the first danmaku: "机器人自动打卡，共{times}条~". */
  function CheckinText(times: nat): string
  {
    "机器人自动打卡，共" + ShowNat(times) + "条~"
  }

  /** `send_danmaku`: nothing when today's ledger already holds the danmaku
      for this medal; otherwise a full burst whose first unit carries the
      check-in text. Every call of the first unit, retries included, carries
      it, and no later call carries text. */
  method SendDanmaku(logs: Log, today: Date, medal: Medal, times: nat, api: nat -> bool)
    returns (units: seq<seq<bool>>, messages: seq<Option<string>>, successCount: nat)
    ensures IsTaskDone(logs, today, medal.targetId, Danmaku) ==> units == [] && messages == [] && successCount == 0
    ensures !IsTaskDone(logs, today, medal.targetId, Danmaku) ==> WellRun(units, times, api)
    ensures successCount == Succeeded(units) <= times
    ensures |messages| == |Flatten(units)| <= MaxTries * times
    ensures forall k :: 0 <= k < |messages| ==>
      messages[k] == if k < |units[0]| then Some(CheckinText(times)) else None
  {
    if IsTaskDone(logs, today, medal.targetId, Danmaku) {
      return [], [], 0;
    }
    units, messages, successCount := RunBurst(times, api, Some(CheckinText(times)));
    UnitTextsLead(units, Some(CheckinText(times)));
  }

  /** The first unit's calls are the first calls of the burst. */
  lemma {:induction false} FirstUnitLeads(units: seq<seq<bool>>)
    requires |units| > 0
    ensures |units[0]| <= |Flatten(units)|
    ensures Flatten(units)[..|units[0]|] == units[0]
  {
    if |units| > 1 {
      var n := |units| - 1;
      FirstUnitLeads(units[..n]);
      assert units[..n][0] == units[0];
    } else {
      assert units[..0] == [];
    }
  }

  /** When every call succeeds, every unit takes one call and succeeds. */
  lemma {:induction false} AllSucceed(units: seq<seq<bool>>, times: nat, api: nat -> bool)
    requires WellRun(units, times, api)
    requires forall k :: api(k)
    ensures Succeeded(units) == times && |Flatten(units)| == times
  {
    if times > 0 {
      var n := |units| - 1;
      var pre := units[..n];
      assert Flatten(units) == Flatten(pre) + units[n];
      assert forall k :: 0 <= k < |Flatten(pre)| ==> Flatten(pre)[k] == Flatten(units)[k];
      AllSucceed(pre, n, api);
      var t := units[n];
      assert t[0] == Flatten(units)[|Flatten(pre)|] == api(|Flatten(pre)|);
      assert |t| == 1;
    }
  }
}
