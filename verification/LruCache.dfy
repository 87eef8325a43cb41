/**
 * The exact-match response cache: an LRU dictionary with expiry. Its behaviour is stated over
 * the log of touches (stores and hits), from which the recency order of all keys is derived.
 */
module LruCache {
  import opened Windows

  datatype Entry<V> = Entry(value: V, expiresAt: real)

  datatype Touch<K, V> = Stored(key: K, entry: Entry<V>) | Hit(key: K)

  function Without<K(==)>(keys: seq<K>, k: K): seq<K> {
    if keys == [] then []
    else Without(keys[..|keys| - 1], k) + if keys[|keys| - 1] == k then [] else [keys[|keys| - 1]]
  }

  /** Every key ever touched, the one touched longest ago first. */
  function Recency<K(==), V>(log: seq<Touch<K, V>>): seq<K> {
    if log == [] then []
    else Without(Recency(log[..|log| - 1]), log[|log| - 1].key) + [log[|log| - 1].key]
  }

  /** How many keys come after `k`. */
  function RankOf<K(==)>(keys: seq<K>, k: K): nat {
    if keys == [] || keys[|keys| - 1] == k then 0 else RankOf(keys[..|keys| - 1], k) + 1
  }

  /** The entry last stored under a key. */
  function LatestStore<K(==), V>(log: seq<Touch<K, V>>, k: K): Option<Entry<V>> {
    if log == [] then None
    else
      var last := log[|log| - 1];
      if last.Stored? && last.key == k then Some(last.entry) else LatestStore(log[..|log| - 1], k)
  }

  predicate Fresh<V>(entry: Option<Entry<V>>, now: real) {
    entry.Some? && entry.value.expiresAt >= now
  }

  // ---------- recency is what it says ----------

  /** The keys touched after the last touch of `k`. */
  function TouchedSince<K(==), V>(log: seq<Touch<K, V>>, k: K): set<K> {
    if log == [] || log[|log| - 1].key == k then {}
    else TouchedSince(log[..|log| - 1], k) + {log[|log| - 1].key}
  }

  /** What was stored last under a key: no store of that key comes after it. */
  lemma {:induction false} LatestStoreIsLast<K, V>(log: seq<Touch<K, V>>, k: K)
    ensures LatestStore(log, k).None? ==> forall i :: 0 <= i < |log| && log[i].Stored? ==> log[i].key != k
    ensures LatestStore(log, k).Some? ==>
      exists i :: 0 <= i < |log| && log[i] == Stored(k, LatestStore(log, k).value)
        && forall j :: i < j < |log| && log[j].Stored? ==> log[j].key != k
  {
    if log != [] {
      var n := |log| - 1;
      LatestStoreIsLast(log[..n], k);
      if log[n].Stored? && log[n].key == k {
        assert log[n] == Stored(k, LatestStore(log, k).value);
      } else if LatestStore(log, k).Some? {
        var i :| 0 <= i < n && log[..n][i] == Stored(k, LatestStore(log, k).value)
          && forall j :: i < j < n && log[..n][j].Stored? ==> log[..n][j].key != k;
        assert log[i] == log[..n][i];
        assert forall j :: i < j < n ==> log[j] == log[..n][j];
      } else {
        assert forall i :: 0 <= i < n ==> log[i] == log[..n][i];
      }
    }
  }

  /** A key was touched since `k` when it was touched at a moment from which on `k` was not. */
  lemma {:induction false} TouchedSinceIs<K, V>(log: seq<Touch<K, V>>, k: K, x: K)
    ensures x in TouchedSince(log, k)
       <==> exists i :: 0 <= i < |log| && log[i].key == x && forall j :: i <= j < |log| ==> log[j].key != k
  {
    if log != [] {
      var n := |log| - 1;
      TouchedSinceIs(log[..n], k, x);
      assert forall j :: 0 <= j < n ==> log[..n][j] == log[j];
      if log[n].key != k && x in TouchedSince(log[..n], k) {
        var i :| 0 <= i < n && log[..n][i].key == x && forall j :: i <= j < n ==> log[..n][j].key != k;
        assert log[i].key == x && forall j :: i <= j < |log| ==> log[j].key != k;
      }
      if i :| 0 <= i < |log| && log[i].key == x && forall j :: i <= j < |log| ==> log[j].key != k {
        assert log[n].key != k;
        assert i < n ==> log[..n][i].key == x;
      }
    }
  }

  predicate NoRepeats<K(==)>(keys: seq<K>) {
    keys == [] || (keys[|keys| - 1] !in keys[..|keys| - 1] && NoRepeats(keys[..|keys| - 1]))
  }

  lemma {:induction false} WithoutMembers<K>(keys: seq<K>, k: K)
    ensures forall x :: x in Without(keys, k) <==> x in keys && x != k
    ensures NoRepeats(keys) ==> NoRepeats(Without(keys, k))
  {
    if keys != [] {
      var init, last := keys[..|keys| - 1], keys[|keys| - 1];
      WithoutMembers(init, k);
      assert keys == init + [last];
      assert (Without(init, k) + [last])[..|Without(init, k)|] == Without(init, k);
      assert Without(init, k) + [] == Without(init, k);
    }
  }

  lemma {:induction false} RecencyMembers<K, V>(log: seq<Touch<K, V>>)
    ensures NoRepeats(Recency(log))
    ensures forall x :: x in Recency(log) <==> exists i :: 0 <= i < |log| && log[i].key == x
  {
    if log != [] {
      var init, last := log[..|log| - 1], log[|log| - 1];
      RecencyMembers(init);
      WithoutMembers(Recency(init), last.key);
      var r := Without(Recency(init), last.key);
      assert (r + [last.key])[..|r|] == r;
      forall x ensures x in Recency(log) <==> exists i :: 0 <= i < |log| && log[i].key == x {
        if i :| 0 <= i < |log| && log[i].key == x {
          assert i < |init| ==> init[i].key == x;
        }
        if x in Recency(init) {
          var i :| 0 <= i < |init| && init[i].key == x;
          assert log[i].key == x;
        }
        assert log[|log| - 1].key == last.key;
      }
    }
  }

  lemma {:induction false} WithoutAbsent<K>(keys: seq<K>, k: K)
    requires k !in keys
    ensures Without(keys, k) == keys
  {
    if keys != [] {
      assert keys[|keys| - 1] in keys;
      WithoutAbsent(keys[..|keys| - 1], k);
    }
  }

  lemma {:induction false} RankWithout<K>(keys: seq<K>, k: K, x: K)
    requires NoRepeats(keys) && x != k
    ensures RankOf(keys, x) <= RankOf(Without(keys, k), x) + 1
  {
    if keys != [] {
      var init, last := keys[..|keys| - 1], keys[|keys| - 1];
      if last == k {
        WithoutAbsent(init, k);
        assert Without(keys, k) == init;
      } else if last != x {
        RankWithout(init, k, x);
        assert (Without(init, k) + [last])[..|Without(init, k)|] == Without(init, k);
      }
    }
  }

  function KeysAfter<K(==)>(keys: seq<K>, k: K): set<K> {
    if keys == [] || keys[|keys| - 1] == k then {}
    else KeysAfter(keys[..|keys| - 1], k) + {keys[|keys| - 1]}
  }

  lemma {:induction false} KeysAfterMembers<K>(keys: seq<K>, k: K)
    requires NoRepeats(keys)
    ensures forall x :: x in KeysAfter(keys, k) ==> x in keys
    ensures |KeysAfter(keys, k)| == RankOf(keys, k)
  {
    if keys != [] && keys[|keys| - 1] != k {
      KeysAfterMembers(keys[..|keys| - 1], k);
    }
  }

  lemma {:induction false} KeysAfterWithout<K>(keys: seq<K>, l: K, k: K)
    requires k != l
    ensures KeysAfter(Without(keys, l), k) == KeysAfter(keys, k) - {l}
  {
    if keys != [] {
      var init, last := keys[..|keys| - 1], keys[|keys| - 1];
      KeysAfterWithout(init, l, k);
      assert (Without(init, l) + [last])[..|Without(init, l)|] == Without(init, l);
      assert Without(init, l) + [] == Without(init, l);
    }
  }

  lemma {:induction false} TouchedSinceIsAfter<K, V>(log: seq<Touch<K, V>>, k: K)
    ensures TouchedSince(log, k) == KeysAfter(Recency(log), k)
  {
    if log != [] {
      var init, last := log[..|log| - 1], log[|log| - 1];
      TouchedSinceIsAfter(init, k);
      var rest := Without(Recency(init), last.key);
      assert (rest + [last.key])[..|rest|] == rest;
      if last.key != k {
        KeysAfterWithout(Recency(init), last.key, k);
      }
    }
  }

  /** A key's rank is the number of distinct other keys touched since its own last touch. */
  lemma RankIsTouchedSince<K, V>(log: seq<Touch<K, V>>, k: K)
    ensures RankOf(Recency(log), k) == |TouchedSince(log, k)|
  {
    TouchedSinceIsAfter(log, k);
    RecencyMembers(log);
    KeysAfterMembers(Recency(log), k);
  }

  // ---------- the dictionary against the log ----------

  /** The keys of the list that are in the dictionary, in the list's order. */
  function Kept<K(==), V>(keys: seq<K>, data: map<K, Entry<V>>): seq<K> {
    if keys == [] then []
    else Kept(keys[..|keys| - 1], data) + if keys[|keys| - 1] in data then [keys[|keys| - 1]] else []
  }

  /** Gone although touched: expired, or pushed out by `max` more recent keys. */
  predicate MayBeGone<K(==), V>(log: seq<Touch<K, V>>, k: K, max: nat, clock: real) {
    !Fresh(LatestStore(log, k), clock) || RankOf(Recency(log), k) >= max
  }

  /** The dictionary keeps under each key what was last stored there. */
  ghost predicate Sound<K(!new), V>(data: map<K, Entry<V>>, log: seq<Touch<K, V>>) {
    forall k :: k in data ==> k in Recency(log) && LatestStore(log, k) == Some(data[k])
  }

  /** The dictionary has lost only keys that may be gone. */
  ghost predicate Complete<K(!new), V>(max: nat, data: map<K, Entry<V>>, log: seq<Touch<K, V>>, clock: real) {
    forall k :: k in Recency(log) && k !in data ==> MayBeGone(log, k, max, clock)
  }

  /** The dictionary lists its keys by last touch and never holds more than `max`. */
  ghost predicate Consistent<K(!new), V>(
      max: nat, order: seq<K>, data: map<K, Entry<V>>, log: seq<Touch<K, V>>, clock: real)
  {
    order == Kept(Recency(log), data) && |order| <= max && Sound(data, log) && Complete(max, data, log, clock)
  }

  lemma {:induction false} KeptMembers<K, V>(keys: seq<K>, data: map<K, Entry<V>>)
    ensures forall k :: k in Kept(keys, data) <==> k in keys && k in data
    ensures NoRepeats(keys) ==> NoRepeats(Kept(keys, data))
    ensures |Kept(keys, data)| <= |keys|
  {
    if keys != [] {
      var init, last := keys[..|keys| - 1], keys[|keys| - 1];
      KeptMembers(init, data);
      assert keys == init + [last];
      assert (Kept(init, data) + [last])[..|Kept(init, data)|] == Kept(init, data);
      assert Kept(init, data) + [] == Kept(init, data);
    }
  }

  /** Dropping a key from the dictionary drops it from the list of kept keys; other changes of entries do not show. */
  lemma {:induction false} KeptRemove<K, V>(keys: seq<K>, data: map<K, Entry<V>>, data': map<K, Entry<V>>, k: K)
    requires forall x :: x in data' <==> x in data && x != k
    ensures Kept(keys, data') == Without(Kept(keys, data), k)
  {
    if keys != [] {
      var init, last := keys[..|keys| - 1], keys[|keys| - 1];
      KeptRemove(init, data, data', k);
      assert (Kept(init, data) + [last])[..|Kept(init, data)|] == Kept(init, data);
      assert Kept(init, data) + [] == Kept(init, data);
    }
  }

  /** Moving a key to the end of the recency order moves it to the end of the kept keys. */
  lemma {:induction false} KeptTouch<K, V>(keys: seq<K>, data: map<K, Entry<V>>, data': map<K, Entry<V>>, k: K)
    requires forall x :: x in data' <==> x in data || x == k
    ensures Kept(Without(keys, k), data') == Without(Kept(keys, data), k)
  {
    if keys != [] {
      var init, last := keys[..|keys| - 1], keys[|keys| - 1];
      KeptTouch(init, data, data', k);
      assert (Without(init, k) + [last])[..|Without(init, k)|] == Without(init, k);
      assert Without(init, k) + [] == Without(init, k);
      assert (Kept(init, data) + [last])[..|Kept(init, data)|] == Kept(init, data);
      assert Kept(init, data) + [] == Kept(init, data);
      assert Without(Kept(init, data), k) + [] == Without(Kept(init, data), k);
    }
  }

  /** A kept key has at least as many keys after it in the whole order as among the kept ones. */
  lemma {:induction false} RankInKept<K, V>(keys: seq<K>, data: map<K, Entry<V>>, k: K)
    requires k in data
    ensures RankOf(Kept(keys, data), k) <= RankOf(keys, k)
  {
    if keys != [] {
      var init, last := keys[..|keys| - 1], keys[|keys| - 1];
      RankInKept(init, data, k);
      assert (Kept(init, data) + [last])[..|Kept(init, data)|] == Kept(init, data);
      assert Kept(init, data) + [] == Kept(init, data);
    }
  }

  /** The front of a list without repeats has all the others after it, and leaves first. */
  lemma {:induction false} FrontRank<K>(keys: seq<K>)
    requires keys != [] && NoRepeats(keys)
    ensures RankOf(keys, keys[0]) == |keys| - 1
    ensures Without(keys, keys[0]) == keys[1..]
  {
    if |keys| > 1 {
      var init, last := keys[..|keys| - 1], keys[|keys| - 1];
      FrontRank(init);
      assert keys[0] in init;
      assert keys[1..] == init[1..] + [last];
    } else {
      assert keys[..0] == [];
    }
  }

  // ---------- each operation keeps the dictionary consistent ----------

  lemma TouchLog<K, V>(log: seq<Touch<K, V>>, t: Touch<K, V>, k: K)
    ensures Recency(log + [t]) == Without(Recency(log), t.key) + [t.key]
    ensures LatestStore(log + [t], k) == if t.Stored? && t.key == k then Some(t.entry) else LatestStore(log, k)
    ensures k in Recency(log + [t]) <==> k in Recency(log) || k == t.key
  {
    assert (log + [t])[..|log|] == log;
    WithoutMembers(Recency(log), t.key);
  }

  /** Touching a key never lowers the rank of another. */
  lemma RankAfterTouch<K, V>(log: seq<Touch<K, V>>, t: Touch<K, V>, x: K)
    requires x != t.key
    ensures RankOf(Recency(log), x) <= RankOf(Recency(log + [t]), x)
  {
    RecencyMembers(log);
    TouchLog(log, t, x);
    var rest := Without(Recency(log), t.key);
    assert (rest + [t.key])[..|rest|] == rest;
    RankWithout(Recency(log), t.key, x);
  }

  /** Time alone keeps the dictionary consistent. */
  lemma Wait<K(!new), V>(max: nat, order: seq<K>, data: map<K, Entry<V>>, log: seq<Touch<K, V>>, clock: real, now: real)
    requires Consistent(max, order, data, log, clock) && clock <= now
    ensures Consistent(max, order, data, log, now)
  {
  }

  lemma TouchOrder<K(!new), V>(order: seq<K>, data: map<K, Entry<V>>, log: seq<Touch<K, V>>, t: Touch<K, V>, e: Entry<V>)
    requires order == Kept(Recency(log), data)
    ensures Without(order, t.key) + [t.key] == Kept(Recency(log + [t]), data[t.key := e])
    ensures |Without(order, t.key)| <= |order|
    ensures t.key in data && t.key in Recency(log) ==> |Without(order, t.key)| < |order|
  {
    TouchLog(log, t, t.key);
    KeptTouch(Recency(log), data, data[t.key := e], t.key);
    var rest := Without(Recency(log), t.key);
    assert (rest + [t.key])[..|rest|] == rest;
    SizeWithout(order, t.key);
    KeptMembers(Recency(log), data);
  }

  lemma TouchSound<K(!new), V>(data: map<K, Entry<V>>, log: seq<Touch<K, V>>, t: Touch<K, V>, e: Entry<V>)
    requires Sound(data, log)
    requires if t.Stored? then t.entry == e else t.key in data && data[t.key] == e
    ensures Sound(data[t.key := e], log + [t])
  {
    var data' := data[t.key := e];
    forall k | k in data' ensures k in Recency(log + [t]) && LatestStore(log + [t], k) == Some(data'[k]) {
      TouchLog(log, t, k);
    }
  }

  lemma TouchComplete<K(!new), V>(
      max: nat, data: map<K, Entry<V>>, log: seq<Touch<K, V>>, now: real, t: Touch<K, V>, e: Entry<V>)
    requires Complete(max, data, log, now)
    ensures Complete(max, data[t.key := e], log + [t], now)
  {
    forall k | k in Recency(log + [t]) && k !in data[t.key := e] ensures MayBeGone(log + [t], k, max, now) {
      TouchLog(log, t, k);
      RankAfterTouch(log, t, k);
    }
  }

  lemma {:induction false} SizeWithout<K>(keys: seq<K>, k: K)
    ensures |Without(keys, k)| <= |keys|
    ensures k in keys ==> |Without(keys, k)| < |keys|
  {
    if keys != [] {
      SizeWithout(keys[..|keys| - 1], k);
      assert keys == keys[..|keys| - 1] + [keys[|keys| - 1]];
    }
  }

  /** Removing a key that may be gone. */
  lemma RemoveKeeps<K(!new), V>(
      max: nat, order: seq<K>, data: map<K, Entry<V>>, log: seq<Touch<K, V>>, now: real, k: K)
    requires order == Kept(Recency(log), data) && Sound(data, log) && Complete(max, data, log, now)
    requires k in data && MayBeGone(log, k, max, now)
    ensures Without(order, k) == Kept(Recency(log), data - {k}) && |Without(order, k)| < |order|
    ensures Sound(data - {k}, log) && Complete(max, data - {k}, log, now)
  {
    KeptRemove(Recency(log), data, data - {k}, k);
    KeptMembers(Recency(log), data);
    SizeWithout(order, k);
  }

  /** The front of an overfull list may be pushed out. */
  lemma FrontMayGo<K(!new), V>(max: nat, order: seq<K>, data: map<K, Entry<V>>, log: seq<Touch<K, V>>, now: real)
    requires order == Kept(Recency(log), data) && |order| > max
    ensures order[0] in data && MayBeGone(log, order[0], max, now)
    ensures Without(order, order[0]) == order[1..]
  {
    RecencyMembers(log);
    KeptMembers(Recency(log), data);
    assert order[0] in order;
    FrontRank(order);
    RankInKept(Recency(log), data, order[0]);
  }

  lemma HitKeeps<K(!new), V>(
      max: nat, order: seq<K>, data: map<K, Entry<V>>, log: seq<Touch<K, V>>, now: real, k: K)
    requires Consistent(max, order, data, log, now) && k in data
    ensures Consistent(max, Without(order, k) + [k], data, log + [Hit(k)], now)
  {
    TouchOrder(order, data, log, Hit(k), data[k]);
    TouchSound(data, log, Hit(k), data[k]);
    TouchComplete(max, data, log, now, Hit(k), data[k]);
    assert data[k := data[k]] == data;
  }

  /** A fresh key touched by fewer than `max` others since is still there. */
  lemma FreshIsThere<K(!new), V>(
      max: nat, order: seq<K>, data: map<K, Entry<V>>, log: seq<Touch<K, V>>, now: real, k: K)
    requires Consistent(max, order, data, log, now)
    ensures Fresh(LatestStore(log, k), now) && |TouchedSince(log, k)| < max ==> k in data
    ensures k in data ==> LatestStore(log, k) == Some(data[k])
  {
    RankIsTouchedSince(log, k);
    StoredIsTouched(log, k);
  }

  lemma {:induction false} SetFitsList<K>(keys: seq<K>, members: set<K>)
    requires forall k :: k in members ==> k in keys
    ensures |members| <= |keys|
  {
    if keys == [] {
      assert members == {};
    } else {
      var last := keys[|keys| - 1];
      SetFitsList(keys[..|keys| - 1], members - {last});
      assert members <= (members - {last}) + {last};
      assert |members| <= |members - {last}| + 1;
    }
  }

  /** The dictionary never holds more than `max` entries. */
  lemma {:induction false} SizeIsBounded<K(!new), V>(
      max: nat, order: seq<K>, data: map<K, Entry<V>>, log: seq<Touch<K, V>>, now: real)
    requires Consistent(max, order, data, log, now)
    ensures |data| <= max
  {
    KeptMembers(Recency(log), data);
    SetFitsList(order, data.Keys);
  }

  class InMemoryCache<K(==, !new), V> {
    const max: nat
    var order: seq<K>
    var data: map<K, Entry<V>>

    ghost var log: seq<Touch<K, V>>
    ghost var clock: real

    ghost predicate Valid()
      reads this
    {
      Consistent(max, order, data, log, clock)
    }

    constructor (max: nat, ghost now: real)
      ensures Valid() && this.max == max && log == [] && clock == now
    {
      this.max := max;
      order, data := [], map[];
      log, clock := [], now;
    }

    /**
     * A hit returns what was last stored under the key, unexpired. A key still fresh, with fewer
     * than `max` distinct other keys touched since its own last touch, is always a hit.
     */
    method Get(key: K, now: real) returns (r: Option<V>)
      requires Valid() && clock <= now
      modifies this
      ensures Valid() && clock == now
      ensures var latest := LatestStore(old(log), key);
        r.Some? ==> latest.Some? && latest.value.expiresAt >= now && r.value == latest.value.value
      ensures log == if r.Some? then old(log) + [Hit(key)] else old(log)
      ensures var latest := LatestStore(old(log), key);
        latest.Some? && latest.value.expiresAt >= now && |TouchedSince(old(log), key)| < max ==> r.Some?
    {
      Wait(max, order, data, log, clock, now);
      clock := now;
      FreshIsThere(max, order, data, log, now, key);
      if key !in data {
        return None;
      }
      var entry := data[key];
      if entry.expiresAt < now {
        RemoveKeeps(max, order, data, log, now, key);
        order, data := Without(order, key), data - {key};
        return None;
      }
      HitKeeps(max, order, data, log, now, key);
      order := Without(order, key) + [key];
      log := log + [Hit(key)];
      r := Some(entry.value);
    }

    /** The key becomes the most recent; the least recent one leaves when there is no room. */
    method Set(key: K, value: V, ttl: real, now: real)
      requires Valid() && clock <= now
      modifies this
      ensures Valid() && clock == now
      ensures log == old(log) + [Stored(key, Entry(value, now + ttl))]
    {
      Wait(max, order, data, log, clock, now);
      var entry := Entry(value, now + ttl);
      TouchOrder(order, data, log, Stored(key, entry), entry);
      TouchSound(data, log, Stored(key, entry), entry);
      TouchComplete(max, data, log, now, Stored(key, entry), entry);
      data := data[key := entry];
      order := Without(order, key) + [key];
      log, clock := log + [Stored(key, entry)], now;
      Trim();
    }

    /** Pops the least recent entries until the dictionary fits. */
    method Trim()
      requires order == Kept(Recency(log), data) && Sound(data, log) && Complete(max, data, log, clock)
      modifies this`order, this`data
      ensures Valid()
    {
      while |order| > max
        invariant order == Kept(Recency(log), data) && Sound(data, log) && Complete(max, data, log, clock)
        decreases |order|
      {
        FrontMayGo(max, order, data, log, clock);
        RemoveKeeps(max, order, data, log, clock, order[0]);
        data := data - {order[0]};
        order := order[1..];
      }
    }
  }

  lemma {:induction false} StoredIsTouched<K, V>(log: seq<Touch<K, V>>, k: K)
    ensures LatestStore(log, k).Some? ==> k in Recency(log)
  {
    if log != [] {
      StoredIsTouched(log[..|log| - 1], k);
      WithoutMembers(Recency(log[..|log| - 1]), log[|log| - 1].key);
    }
  }
}
