/** A cache of the most recently requested keys. */
module LruCache {
  import opened Wrappers

  type Key = nat

  /** When each requested key was last requested, counted from 1. */
  ghost function LastRequests(history: seq<Key>): map<Key, nat> {
    if history == [] then map[]
    else LastRequests(history[..|history| - 1])[history[|history| - 1] := |history|]
  }

  /** The recorded time is that of the key's last occurrence, for exactly the keys that occur. */
  lemma {:induction false} LastRequestsAreLast(history: seq<Key>)
    ensures forall i :: 0 <= i < |history| ==> history[i] in LastRequests(history)
    ensures forall k :: k in LastRequests(history) ==>
              var t := LastRequests(history)[k];
              1 <= t <= |history| && history[t - 1] == k && forall i :: t <= i < |history| ==> history[i] != k
  {
    if history != [] {
      var n := |history| - 1;
      LastRequestsAreLast(history[..n]);
      forall i | 0 <= i < |history|
        ensures history[i] in LastRequests(history)
      {
        assert i < n ==> history[..n][i] == history[i];
      }
    }
  }

  /** `usages` lists the (up to) `max` most recently requested distinct keys, newest first. */
  ghost predicate IsRecent(history: seq<Key>, usages: seq<Key>, max: nat) {
    TopBy(LastRequests(history), usages, max)
  }

  /** `top` lists, by strictly falling time, the (up to) `max` keys with the latest times. */
  ghost predicate TopBy(time: map<Key, nat>, top: seq<Key>, max: nat) {
    && |top| <= max
    && (forall k :: k in top ==> k in time)
    && (forall i, j :: 0 <= i < j < |top| ==> time[top[i]] > time[top[j]])
    && (forall k :: k in time && k !in top ==> |top| == max && forall x :: x in top ==> time[k] < time[x])
  }

  /** The specification leaves no choice: it determines the list. */
  lemma RecentIsUnique(history: seq<Key>, u: seq<Key>, v: seq<Key>, max: nat)
    requires IsRecent(history, u, max) && IsRecent(history, v, max)
    ensures u == v
  {
    var time := LastRequests(history);
    LastRequestsAreLast(history);
    AgreeUpTo(time, u, v, max, if |u| < |v| then |u| else |v|);
    LengthsAgree(time, u, v, max);
    LengthsAgree(time, v, u, max);
  }

  lemma LengthsAgree(time: map<Key, nat>, u: seq<Key>, v: seq<Key>, max: nat)
    requires TopBy(time, u, max) && TopBy(time, v, max)
    requires forall j :: 0 <= j < |u| && j < |v| ==> u[j] == v[j]
    ensures |v| <= |u|
  {
    if |u| < |v| {
      BeyondPrefix(time, u, v, max);
    }
  }

  lemma BeyondPrefix(time: map<Key, nat>, u: seq<Key>, v: seq<Key>, max: nat)
    requires TopBy(time, v, max) && |u| < |v|
    requires forall j :: 0 <= j < |u| ==> u[j] == v[j]
    ensures v[|u|] !in u && v[|u|] in time && |u| < max
  {
    assert v[|u|] in v;
  }

  lemma {:induction false} AgreeUpTo(time: map<Key, nat>, u: seq<Key>, v: seq<Key>, max: nat, n: nat)
    requires TopBy(time, u, max) && TopBy(time, v, max) && n <= |u| && n <= |v|
    requires forall k, l :: k in time && l in time && time[k] == time[l] ==> k == l
    ensures forall j :: 0 <= j < n ==> u[j] == v[j]
  {
    if n > 0 {
      AgreeUpTo(time, u, v, max, n - 1);
      NoneFresher(time, u, v, max, n - 1);
      NoneFresher(time, v, u, max, n - 1);
    }
  }

  lemma NoneFresher(time: map<Key, nat>, u: seq<Key>, v: seq<Key>, max: nat, i: nat)
    requires TopBy(time, u, max) && TopBy(time, v, max) && i < |u| && i < |v|
    requires forall j :: 0 <= j < i ==> u[j] == v[j]
    ensures time[u[i]] <= time[v[i]]
  {
    if u[i] in v {
      var j :| 0 <= j < |v| && v[j] == u[i];
      assert time[u[i]] <= time[v[i]];
    }
  }

  /** Where position `j` comes from when the key at `i` moves to the front. */
  ghost function Source(i: nat, j: nat): nat {
    if j == 0 then i else if j <= i then j - 1 else j
  }

  ghost predicate MovedToFront(before: seq<Key>, i: nat, after: seq<Key>) {
    && i < |before| == |after|
    && forall j :: 0 <= j < |after| ==> after[j] == before[Source(i, j)]
  }

  lemma RemoveThenPush(s: seq<Key>, i: nat)
    requires i < |s|
    ensures MovedToFront(s, i, [s[i]] + (s[..i] + s[i + 1..]))
  {
    var rest := s[..i] + s[i + 1..];
    var after := [s[i]] + rest;
    forall j | 0 <= j < |after|
      ensures after[j] == s[Source(i, j)]
    {
      if j > 0 {
        assert after[j] == rest[j - 1];
      }
    }
  }

  lemma MovedMembers(before: seq<Key>, i: nat, after: seq<Key>)
    requires MovedToFront(before, i, after)
    ensures forall x :: x in after <==> x in before
  {
    forall x | x in before
      ensures x in after
    {
      var j :| 0 <= j < |before| && before[j] == x;
      assert after[if j < i then j + 1 else if j == i then 0 else j] == x;
    }
  }

  /** Requesting a listed key moves it to the front. */
  lemma HitKeepsTop(time: map<Key, nat>, time': map<Key, nat>, top: seq<Key>, max: nat, i: nat, now: nat, after: seq<Key>)
    requires TopBy(time, top, max) && MovedToFront(top, i, after)
    requires (forall x :: x in time ==> time[x] < now) && time' == time[top[i] := now]
    ensures TopBy(time', after, max)
  {
    MovedMembers(top, i, after);
    FallingAfterMove(time, time', top, i, now, after);
  }

  lemma FallingAfterMove(time: map<Key, nat>, time': map<Key, nat>, top: seq<Key>, i: nat, now: nat, after: seq<Key>)
    requires (forall k :: k in top ==> k in time) && MovedToFront(top, i, after)
    requires forall a, b :: 0 <= a < b < |top| ==> time[top[a]] > time[top[b]]
    requires (forall x :: x in time ==> time[x] < now) && time' == time[top[i] := now]
    ensures (forall k :: k in after ==> k in time')
    ensures forall a, b :: 0 <= a < b < |after| ==> time'[after[a]] > time'[after[b]]
  {
    forall a, b | 0 <= a < b < |after|
      ensures time'[after[a]] > time'[after[b]]
    {
      assert after[b] == top[Source(i, b)] && after[a] == top[Source(i, a)];
    }
  }

  /** Requesting another key puts it in front of what fits. */
  lemma MissKeepsTop(time: map<Key, nat>, time': map<Key, nat>, top: seq<Key>, max: nat, k: Key, now: nat,
                     kept: seq<Key>, after: seq<Key>)
    requires TopBy(time, top, max) && k !in top && max >= 1
    requires (forall x :: x in time ==> time[x] < now) && time' == time[k := now]
    requires kept == (if |top| == max then top[..max - 1] else top) && after == [k] + kept
    ensures TopBy(time', after, max)
  {
    KeptMembers(top, max, kept);
    assert forall x :: x in after <==> x == k || x in kept;
    FallingAfterPush(time, time', kept, k, now, after);
    forall x | x in time' && x !in after
      ensures |after| == max && forall y :: y in after ==> time'[x] < time'[y]
    {
      if x in top {
        assert |top| == max && x == top[max - 1];
      }
    }
  }

  lemma KeptMembers(top: seq<Key>, max: nat, kept: seq<Key>)
    requires 1 <= max && |top| <= max && kept == if |top| == max then top[..max - 1] else top
    ensures forall x :: x in top <==> x in kept || (|top| == max && x == top[max - 1])
  {
    assert |top| == max ==> top == kept + [top[max - 1]];
  }

  lemma FallingAfterPush(time: map<Key, nat>, time': map<Key, nat>, kept: seq<Key>, k: Key, now: nat, after: seq<Key>)
    requires forall x :: x in kept ==> x in time
    requires forall i, j :: 0 <= i < j < |kept| ==> time[kept[i]] > time[kept[j]]
    requires k !in kept && after == [k] + kept
    requires (forall x :: x in time ==> time[x] < now) && time' == time[k := now]
    ensures forall x :: x in after ==> x in time'
    ensures forall i, j :: 0 <= i < j < |after| ==> time'[after[i]] > time'[after[j]]
  {
    forall i, j | 0 <= i < j < |after|
      ensures time'[after[i]] > time'[after[j]]
    {
      assert after[j] == kept[j - 1] && kept[j - 1] in kept;
      if i > 0 {
        assert after[i] == kept[i - 1] && kept[i - 1] in kept;
      }
    }
  }

  lemma RequestIsNewest(history: seq<Key>, k: Key)
    ensures LastRequests(history + [k]) == LastRequests(history)[k := |history| + 1]
    ensures forall x :: x in LastRequests(history) ==> LastRequests(history)[x] < |history| + 1
  {
    LastRequestsAreLast(history);
    assert (history + [k])[..|history|] == history;
  }

  lemma HitKeepsRecent(history: seq<Key>, usages: seq<Key>, max: nat, i: nat, after: seq<Key>)
    requires IsRecent(history, usages, max) && i < |usages|
    requires MovedToFront(usages, i, after)
    ensures IsRecent(history + [usages[i]], after, max)
  {
    var history' := history + [usages[i]];
    RequestIsNewest(history, usages[i]);
    HitKeepsTop(LastRequests(history), LastRequests(history'), usages, max, i, |history| + 1, after);
  }

  /** The list is the most recent requests, and the cache holds exactly the listed keys. */
  ghost predicate InStep(history: seq<Key>, usages: seq<Key>, keys: set<Key>, max: nat) {
    IsRecent(history, usages, max) && forall k :: k in keys <==> k in usages
  }

  lemma HitKeepsInStep(history: seq<Key>, usages: seq<Key>, keys: set<Key>, max: nat, i: nat)
    requires InStep(history, usages, keys, max) && i < |usages|
    ensures InStep(history + [usages[i]], [usages[i]] + (usages[..i] + usages[i + 1..]), keys, max)
  {
    var after := [usages[i]] + (usages[..i] + usages[i + 1..]);
    RemoveThenPush(usages, i);
    MovedMembers(usages, i, after);
    HitKeepsRecent(history, usages, max, i, after);
  }

  lemma StoreKeepsInStep(history: seq<Key>, usages: seq<Key>, keys: set<Key>, max: nat, k: Key)
    requires InStep(history, usages, keys, max) && k !in usages && max >= 1
    ensures var evicted := if |usages| == max then {usages[max - 1]} else {};
            InStep(history + [k], [k] + Kept(usages, max), keys - evicted + {k}, max)
  {
    MissKeepsRecent(history, usages, max, k);
  }

  /** What stays when a further key comes in. */
  ghost function Kept(usages: seq<Key>, max: nat): seq<Key>
    requires max >= 1
  {
    if |usages| == max then usages[..max - 1] else usages
  }

  lemma MissKeepsRecent(history: seq<Key>, usages: seq<Key>, max: nat, k: Key)
    requires IsRecent(history, usages, max) && k !in usages && max >= 1
    ensures IsRecent(history + [k], [k] + Kept(usages, max), max)
    ensures forall x :: x in [k] + Kept(usages, max) <==> x == k || (x in usages && (|usages| == max ==> x != usages[max - 1]))
  {
    var history' := history + [k];
    var kept := Kept(usages, max);
    RequestIsNewest(history, k);
    MissKeepsTop(LastRequests(history), LastRequests(history'), usages, max, k, |history| + 1, kept, [k] + kept);
    KeptMembers(usages, max, kept);
    RecentIsDistinct(history, usages, max);
  }

  lemma RecentIsDistinct(history: seq<Key>, usages: seq<Key>, max: nat)
    requires IsRecent(history, usages, max)
    ensures forall i, j :: 0 <= i < j < |usages| ==> usages[i] != usages[j]
    ensures |usages| <= max
  {
  }

  lemma {:induction false} DistinctCount(s: seq<Key>, keys: set<Key>)
    requires forall i, j :: 0 <= i < j < |s| ==> s[i] != s[j]
    requires forall k :: k in keys <==> k in s
    ensures |keys| == |s|
  {
    if s == [] {
      assert keys == {};
    } else {
      assert s == [s[0]] + s[1..];
      DistinctCount(s[1..], keys - {s[0]});
    }
  }

  /** What a load came to: a cached item, a load just started, or the panic of a cache without room for anything. */
  datatype Outcome<V> = Hit(item: V) | Started | Panicked

  class SimpleLruCache<V> {
    const maxItems: nat
    var usages: seq<Key>
    var cache: map<Key, V>
    /** Every key requested so far. */
    ghost var history: seq<Key>

    ghost predicate Valid()
      reads this
    {
      InStep(history, usages, cache.Keys, maxItems)
    }

    constructor (maxItems: nat)
      ensures Valid() && history == [] && this.maxItems == maxItems
    {
      this.maxItems := maxItems;
      usages, cache, history := [], map[], [];
    }

    /** Requests `hash`; `item` is what a load that starts now would store. */
    method Load(hash: Key, item: V) returns (r: Outcome<V>, evicted: Option<V>)
      requires Valid()
      modifies this
      ensures Valid()
      ensures history == if maxItems == 0 then old(history) else old(history) + [hash]
      ensures r == if hash in old(cache) then Hit(old(cache)[hash]) else if maxItems == 0 then Panicked else Started
      ensures r.Hit? || r.Panicked? ==> cache == old(cache) && evicted == None
      ensures r.Started? ==>
                var full := |old(usages)| == maxItems;
                && evicted == (if full then Some(old(cache)[old(usages)[maxItems - 1]]) else None)
                && cache == (if full then old(cache) - {old(usages)[maxItems - 1]} else old(cache))[hash := item]
    {
      RecentIsDistinct(history, usages, maxItems);
      DistinctCount(usages, cache.Keys);
      assert |usages| == |cache|;
      assert |cache| <= maxItems;
      if hash in cache {
        MoveToFront(hash);
        return Hit(cache[hash]), None;
      }
      if |usages| == maxItems && |usages| == 0 {
        return Panicked, None;
      }
      evicted := Store(hash, item);
      r := Started;
    }

    method MoveToFront(hash: Key)
      requires Valid() && hash in usages
      modifies this`usages, this`history
      ensures Valid() && history == old(history) + [hash]
    {
      var currentIx := Position(usages, hash);
      HitKeepsInStep(history, usages, cache.Keys, maxItems, currentIx);
      ghost var moved := [hash] + (usages[..currentIx] + usages[currentIx + 1..]);
      usages := usages[..currentIx] + usages[currentIx + 1..];
      usages := [hash] + usages;
      history := history + [hash];
      assert usages == moved;
    }

    /** Stores a new item, after evicting the least recently requested one from a full cache. */
    method Store(hash: Key, item: V) returns (evicted: Option<V>)
      requires Valid() && hash !in usages && maxItems >= 1
      requires forall i, j :: 0 <= i < j < |usages| ==> usages[i] != usages[j]
      modifies this`usages, this`cache, this`history
      ensures Valid() && history == old(history) + [hash]
      ensures var full := |old(usages)| == maxItems;
              && evicted == (if full then Some(old(cache)[old(usages)[maxItems - 1]]) else None)
              && cache == (if full then old(cache) - {old(usages)[maxItems - 1]} else old(cache))[hash := item]
    {
      StoreKeepsInStep(history, usages, cache.Keys, maxItems, hash);
      ghost var keys := cache.Keys - (if |usages| == maxItems then {usages[maxItems - 1]} else {}) + {hash};
      ghost var listed := [hash] + Kept(usages, maxItems);
      evicted := None;
      if |usages| == maxItems {
        evicted := EvictOldest();
      }
      cache := cache[hash := item];
      usages := [hash] + usages;
      history := history + [hash];
      assert cache.Keys == keys && usages == listed;
    }

    method EvictOldest() returns (evicted: Option<V>)
      requires usages != [] && usages[|usages| - 1] in cache
      modifies this`usages, this`cache
      ensures evicted == Some(old(cache)[old(usages)[|old(usages)| - 1]])
      ensures cache == old(cache) - {old(usages)[|old(usages)| - 1]}
      ensures usages == old(usages)[..|old(usages)| - 1]
    {
      var oldest := usages[|usages| - 1];
      usages := usages[..|usages| - 1];
      evicted := Some(cache[oldest]);
      cache := cache - {oldest};
    }
  }

  /** The first position of `k`. */
  function Position(s: seq<Key>, k: Key): (i: nat)
    requires k in s
    ensures i < |s| && s[i] == k
    ensures forall j :: 0 <= j < i ==> s[j] != k
  {
    if s[0] == k then 0
    else
      assert s == [s[0]] + s[1..];
      Position(s[1..], k) + 1
  }
}
