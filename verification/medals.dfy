/** `get_medals`: the medal listing, filtered and ordered by the whitelist or
    the blacklist, and the three task queues built from it. */
module Medals {
  import opened Wrappers
  import opened Seqs
  import opened Ledger

  /** One fan medal as the remote listing returns it: `medal.target_id`,
      `medal.guard_level`, `room_info.room_id`, and the streamer's
      `anchor_info` nickname (`None` when `anchor_info` is missing or empty). */
  datatype Medal = Medal(targetId: int, guardLevel: int, roomId: int, anchorName: Option<string>)

  /** `all_medals`: a Python dict from target id to medal. `order` is the
      dict's iteration order, `byId` its contents. */
  datatype MedalIndex = MedalIndex(order: seq<int>, byId: map<int, Medal>)

  predicate Distinct(s: seq<int>)
  {
    forall i, j :: 0 <= i < j < |s| ==> s[i] != s[j]
  }

  function Ids(medals: seq<Medal>): (ids: seq<int>)
    ensures |ids| == |medals|
    ensures forall k :: 0 <= k < |medals| ==> ids[k] == medals[k].targetId
  {
    if |medals| == 0 then [] else Ids(medals[..|medals| - 1]) + [medals[|medals| - 1].targetId]
  }

  /** `all_medals[m.target_id] = m`. */
  function Insert(idx: MedalIndex, m: Medal): MedalIndex
  {
    if m.targetId in idx.byId then idx.(byId := idx.byId[m.targetId := m])
    else MedalIndex(idx.order + [m.targetId], idx.byId[m.targetId := m])
  }

  /** Every key of the dict holds a medal for that very target id. */
  predicate WellKeyed(idx: MedalIndex)
  {
    forall u :: u in idx.byId ==> idx.byId[u].targetId == u
  }

  /** The dict built from the remote listing: every listed target id is a key
      exactly once, and the keys are exactly the listed target ids. */
  function IndexMedals(remote: seq<Medal>): (idx: MedalIndex)
    ensures Distinct(idx.order)
    ensures forall u :: u in idx.byId <==> u in idx.order
    ensures forall u :: u in idx.order <==> u in Ids(remote)
    ensures WellKeyed(idx)
  {
    if |remote| == 0 then MedalIndex([], map[])
    else
      var n := |remote| - 1;
      var prev := IndexMedals(remote[..n]);
      assert Ids(remote) == Ids(remote[..n]) + [remote[n].targetId];
      Insert(prev, remote[n])
  }

  /** Each key holds a medal that was listed. */
  lemma {:induction false} IndexHoldsListed(remote: seq<Medal>)
    ensures forall u :: u in IndexMedals(remote).byId ==> IndexMedals(remote).byId[u] in remote
  {
    if |remote| > 0 {
      var n := |remote| - 1;
      var pre := remote[..n];
      var prev := IndexMedals(pre);
      var idx := IndexMedals(remote);
      IndexHoldsListed(pre);
      forall u | u in idx.byId ensures idx.byId[u] in remote {
        if u != remote[n].targetId {
          assert idx.byId[u] == prev.byId[u] && prev.byId[u] in pre;
        }
      }
    }
  }

  /** No medal listed after position `i` has the same target id. */
  predicate LastListed(remote: seq<Medal>, i: int)
    requires 0 <= i < |remote|
  {
    forall j :: i < j < |remote| ==> remote[j].targetId != remote[i].targetId
  }

  /** Each key holds the LAST medal listed under it (later assignments to the
      same dict key overwrite earlier ones). */
  lemma IndexLastWins(remote: seq<Medal>)
    ensures forall i :: 0 <= i < |remote| && LastListed(remote, i)
              ==> IndexMedals(remote).byId[remote[i].targetId] == remote[i]
  {
    forall i | 0 <= i < |remote| && LastListed(remote, i)
      ensures IndexMedals(remote).byId[remote[i].targetId] == remote[i]
    {
      LastWinsAt(remote, i);
    }
  }

  /** `IndexLastWins` for one position, by induction on the listing. */
  lemma {:induction false} LastWinsAt(remote: seq<Medal>, i: nat)
    requires i < |remote| && LastListed(remote, i)
    ensures IndexMedals(remote).byId[remote[i].targetId] == remote[i]
    decreases |remote|
  {
    var n := |remote| - 1;
    var pre := remote[..n];
    assert IndexMedals(remote) == Insert(IndexMedals(pre), remote[n]);
    if i < n {
      assert pre[i] == remote[i];
      assert LastListed(pre, i);
      LastWinsAt(pre, i);
      assert remote[n].targetId != remote[i].targetId;
      assert Ids(pre)[i] == remote[i].targetId;
    }
  }

  /** Keys iterate in the order their target ids were first listed. */
  lemma {:induction false} IndexFirstSeenOrder(remote: seq<Medal>)
    ensures forall a, b :: 0 <= a < b < |IndexMedals(remote).order|
              ==> IndexOf(Ids(remote), IndexMedals(remote).order[a]) < IndexOf(Ids(remote), IndexMedals(remote).order[b])
  {
    if |remote| > 0 {
      var n := |remote| - 1;
      var prev := IndexMedals(remote[..n]);
      var m := remote[n];
      var idx := IndexMedals(remote);
      IndexFirstSeenOrder(remote[..n]);
      assert Ids(remote) == Ids(remote[..n]) + [m.targetId];
      forall a, b | 0 <= a < b < |idx.order|
        ensures IndexOf(Ids(remote), idx.order[a]) < IndexOf(Ids(remote), idx.order[b])
      {
        IndexOfAppend(Ids(remote[..n]), m.targetId, idx.order[a]);
        IndexOfAppend(Ids(remote[..n]), m.targetId, idx.order[b]);
        if b == |prev.order| {
          assert m.targetId !in prev.byId;
          assert idx.order[a] == prev.order[a];
        } else {
          assert idx.order[a] == prev.order[a] && idx.order[b] == prev.order[b];
        }
      }
    }
  }

  /** The medal under a target id exists and has `anchor_info`. */
  predicate Listed(idx: MedalIndex, u: int)
  {
    u in idx.byId && idx.byId[u].anchorName.Some?
  }

  /** The whitelist branch: each whitelisted UID in turn, when it names a
      medal with `anchor_info` (a repeated UID repeats its medal). */
  function FromWhitelist(idx: MedalIndex, white: seq<int>): (medals: seq<Medal>)
    requires WellKeyed(idx)
    ensures |medals| <= |white|
    ensures forall m :: m in medals <==> m.targetId in white && Listed(idx, m.targetId) && idx.byId[m.targetId] == m
  {
    if |white| == 0 then []
    else
      var n := |white| - 1;
      var rest := FromWhitelist(idx, white[..n]);
      assert white == white[..n] + [white[n]];
      if Listed(idx, white[n]) then rest + [idx.byId[white[n]]] else rest
  }

  /** The listing branch: every key of the dict in its order, when its medal
      has `anchor_info` and the key is not blacklisted. */
  function FromListing(idx: MedalIndex, keys: seq<int>, banned: seq<int>): (medals: seq<Medal>)
    requires WellKeyed(idx)
    ensures |medals| <= |keys|
    ensures forall m :: m in medals <==> m.targetId in keys && Listed(idx, m.targetId) && idx.byId[m.targetId] == m && m.targetId !in banned
  {
    if |keys| == 0 then []
    else
      var n := |keys| - 1;
      var rest := FromListing(idx, keys[..n], banned);
      assert keys == keys[..n] + [keys[n]];
      if Listed(idx, keys[n]) && keys[n] !in banned then rest + [idx.byId[keys[n]]] else rest
  }

  /** Whitelist order is kept: medals for earlier whitelist entries come first. */
  lemma {:induction false} FromWhitelistAppend(idx: MedalIndex, a: seq<int>, b: seq<int>)
    requires WellKeyed(idx)
    ensures FromWhitelist(idx, a + b) == FromWhitelist(idx, a) + FromWhitelist(idx, b)
  {
    if |b| == 0 {
      assert a + b == a;
    } else {
      var n := |b| - 1;
      var u := b[n];
      var last := if Listed(idx, u) then [idx.byId[u]] else [];
      assert (a + b)[..|a + b| - 1] == a + b[..n] && (a + b)[|a + b| - 1] == u;
      assert FromWhitelist(idx, a + b) == FromWhitelist(idx, a + b[..n]) + last;
      assert FromWhitelist(idx, b) == FromWhitelist(idx, b[..n]) + last;
      FromWhitelistAppend(idx, a, b[..n]);
      ConcatAssoc(FromWhitelist(idx, a), FromWhitelist(idx, b[..n]), last);
    }
  }

  /** Listing order is kept in the same way. */
  lemma {:induction false} FromListingAppend(idx: MedalIndex, a: seq<int>, b: seq<int>, banned: seq<int>)
    requires WellKeyed(idx)
    ensures FromListing(idx, a + b, banned) == FromListing(idx, a, banned) + FromListing(idx, b, banned)
  {
    if |b| == 0 {
      assert a + b == a;
    } else {
      var n := |b| - 1;
      var u := b[n];
      var last := if Listed(idx, u) && u !in banned then [idx.byId[u]] else [];
      assert (a + b)[..|a + b| - 1] == a + b[..n] && (a + b)[|a + b| - 1] == u;
      assert FromListing(idx, a + b, banned) == FromListing(idx, a + b[..n], banned) + last;
      assert FromListing(idx, b, banned) == FromListing(idx, b[..n], banned) + last;
      FromListingAppend(idx, a, b[..n], banned);
      ConcatAssoc(FromListing(idx, a, banned), FromListing(idx, b[..n], banned), last);
    }
  }

  /** The medal list of `get_medals` (src/user.py:159-184): with a non-empty
      whitelist, the whitelisted medals having `anchor_info` and the
      blacklist plays no part; otherwise every listed medal having
      `anchor_info` whose target is not blacklisted, once each. */
  function SelectMedals(remote: seq<Medal>, white: seq<int>, banned: seq<int>): (medals: seq<Medal>)
    ensures |white| > 0 ==> forall m :: m in medals <==>
      m.targetId in white && Listed(IndexMedals(remote), m.targetId) && IndexMedals(remote).byId[m.targetId] == m
    ensures |white| == 0 ==> forall m :: m in medals <==>
      m.targetId in Ids(remote) && m.targetId !in banned
      && Listed(IndexMedals(remote), m.targetId) && IndexMedals(remote).byId[m.targetId] == m
    ensures |white| == 0 ==> Distinct(Ids(medals))
  {
    var idx := IndexMedals(remote);
    if |white| > 0 then FromWhitelist(idx, white)
    else
      var r := FromListing(idx, idx.order, banned);
      ListingDistinct(idx, idx.order, banned);
      r
  }

  lemma {:induction false} ListingDistinct(idx: MedalIndex, keys: seq<int>, banned: seq<int>)
    requires WellKeyed(idx) && Distinct(keys)
    ensures Distinct(Ids(FromListing(idx, keys, banned)))
    ensures forall u :: u in Ids(FromListing(idx, keys, banned)) ==> u in keys
  {
    if |keys| > 0 {
      var n := |keys| - 1;
      var pre := keys[..n];
      assert Distinct(pre);
      ListingDistinct(idx, pre, banned);
      var rest := FromListing(idx, pre, banned);
      assert keys == pre + [keys[n]];
      if Listed(idx, keys[n]) && keys[n] !in banned {
        var m := idx.byId[keys[n]];
        assert FromListing(idx, keys, banned) == rest + [m];
        assert keys[n] !in Ids(rest) by {
          assert keys[n] !in pre;
        }
        IdsSnoc(rest, m);
        DistinctSnoc(Ids(rest), keys[n]);
      } else {
        assert FromListing(idx, keys, banned) == rest;
      }
    }
  }

  /** `Ids` of a sequence extended by one medal. */
  lemma IdsSnoc(medals: seq<Medal>, m: Medal)
    ensures Ids(medals + [m]) == Ids(medals) + [m.targetId]
  {
    assert (medals + [m])[..|medals|] == medals;
  }

  /** Appending a new value keeps a sequence free of repeats. */
  lemma DistinctSnoc(s: seq<int>, x: int)
    requires Distinct(s) && x !in s
    ensures Distinct(s + [x])
  {
  }

  /** The medals whose UID is not in `done`, in order. */
  function Pending(medals: seq<Medal>, done: seq<int>): (r: seq<Medal>)
    ensures |r| <= |medals|
    ensures forall m :: m in r <==> m in medals && m.targetId !in done
  {
    if |medals| == 0 then []
    else
      var n := |medals| - 1;
      assert medals == medals[..n] + [medals[n]];
      Pending(medals[..n], done) + (if medals[n].targetId !in done then [medals[n]] else [])
  }

  /** The medals whose reported progress, times five, is below the target;
      a medal whose progress query failed (no entry) is left out. */
  function BelowTarget(medals: seq<Medal>, progress: map<int, int>, target: int): (r: seq<Medal>)
    ensures |r| <= |medals|
    ensures forall m :: m in r <==> m in medals && m.targetId in progress && progress[m.targetId] * 5 < target
  {
    if |medals| == 0 then []
    else
      var n := |medals| - 1;
      var m := medals[n];
      assert medals == medals[..n] + [m];
      BelowTarget(medals[..n], progress, target)
        + (if m.targetId in progress && progress[m.targetId] * 5 < target then [m] else [])
  }

  /** The three task queues of `get_medals`. */
  datatype Queues = Queues(like: seq<Medal>, danmaku: seq<Medal>, watch: seq<Medal>)

  /** `get_medals` (src/user.py:186-208): one pass over the medals filling the
      like and danmaku queues with those not yet in today's ledger and the
      watch queue with those still below the watch target. `progress` holds
      `getWatchLiveProgress` per UID; a missing entry is a failed query. */
  method BuildQueues(medals: seq<Medal>, logs: Log, today: Date, progress: map<int, int>, watchTarget: int)
    returns (q: Queues)
    ensures q.like == Pending(medals, Entries(logs, today, Like))
    ensures q.danmaku == Pending(medals, Entries(logs, today, Danmaku))
    ensures q.watch == BelowTarget(medals, progress, watchTarget)
    ensures forall m :: m in q.like <==> m in medals && !IsTaskDone(logs, today, m.targetId, Like)
    ensures forall m :: m in q.danmaku <==> m in medals && !IsTaskDone(logs, today, m.targetId, Danmaku)
    ensures forall m :: m in q.watch <==>
      m in medals && m.targetId in progress && progress[m.targetId] * 5 < watchTarget
  {
    var likeDone := Entries(logs, today, Like);
    var danmakuDone := Entries(logs, today, Danmaku);
    var like: seq<Medal> := [];
    var danmaku: seq<Medal> := [];
    var watch: seq<Medal> := [];
    var i := 0;
    while i < |medals|
      invariant 0 <= i <= |medals|
      invariant like == Pending(medals[..i], likeDone)
      invariant danmaku == Pending(medals[..i], danmakuDone)
      invariant watch == BelowTarget(medals[..i], progress, watchTarget)
    {
      var m := medals[i];
      assert medals[..i + 1][..i] == medals[..i];
      if m.targetId !in likeDone {
        like := like + [m];
      }
      if m.targetId !in danmakuDone {
        danmaku := danmaku + [m];
      }
      if m.targetId in progress {
        var watched := progress[m.targetId] * 5;
        if watched < watchTarget {
          watch := watch + [m];
        }
      }
      i := i + 1;
    }
    assert medals[..i] == medals;
    q := Queues(like, danmaku, watch);
  }
}
