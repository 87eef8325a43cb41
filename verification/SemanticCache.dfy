/**
 * The nearest-neighbour response cache: one list of entries per namespace, trimmed oldest
 * first when full, purged of expired entries on lookup, and searched for the most similar vector.
 */
module SemanticCaches {
  import opened Windows
  import opened Traces
  import opened Embeddings
  import opened JsonText

  datatype Item<V> = Item(vector: Vector, value: V, expiresAt: real)

  /** The entries that have not expired, in order. */
  function Unexpired<V>(items: seq<Item<V>>, now: real): seq<Item<V>> {
    if items == [] then []
    else
      var last := items[|items| - 1];
      Unexpired(items[..|items| - 1], now) + if last.expiresAt >= now then [last] else []
  }

  /** The last `n` entries. */
  function LastN<V>(items: seq<Item<V>>, n: nat): seq<Item<V>> {
    if |items| <= n then items else items[|items| - n..]
  }

  function PartitionOf<V>(partitions: map<string, seq<Item<V>>>, namespace: string): seq<Item<V>> {
    if namespace in partitions then partitions[namespace] else []
  }

  lemma {:induction false} UnexpiredMembers<V>(items: seq<Item<V>>, now: real, x: Item<V>)
    ensures x in Unexpired(items, now) <==> x in items && x.expiresAt >= now
  {
    if items != [] {
      UnexpiredMembers(items[..|items| - 1], now, x);
    }
  }

  // ---------- the operations on one namespace ----------

  datatype CacheStep<V> = Store(vector: Vector, value: V, ttl: real, at: real) | Lookup(at: real)

  function ListStep<V>(list: seq<Item<V>>, step: CacheStep<V>, max: nat): seq<Item<V>> {
    match step
    case Store(vector, value, ttl, at) => LastN(list + [Item(vector, value, at + ttl)], max)
    case Lookup(at) => Unexpired(list, at)
  }

  /** The namespace's list after a run. */
  function ListAfter<V>(trace: Trace<CacheStep<V>>, max: nat): seq<Item<V>> {
    match trace
    case Start => []
    case Then(before, last) => ListStep(ListAfter(before, max), last, max)
  }

  function StoredStep<V>(stored: seq<Item<V>>, step: CacheStep<V>): seq<Item<V>> {
    match step
    case Store(vector, value, ttl, at) => stored + [Item(vector, value, at + ttl)]
    case Lookup(_) => stored
  }

  /** Everything ever stored in the namespace. */
  function Stored<V>(trace: Trace<CacheStep<V>>): seq<Item<V>> {
    match trace
    case Start => []
    case Then(before, last) => StoredStep(Stored(before), last)
  }

  function RunOf<V>(runs: map<string, Trace<CacheStep<V>>>, namespace: string): Trace<CacheStep<V>> {
    if namespace in runs then runs[namespace] else Start
  }

  function Extended<V>(runs: map<string, Trace<CacheStep<V>>>, namespace: string, step: CacheStep<V>):
    map<string, Trace<CacheStep<V>>>
  {
    runs[namespace := Then(RunOf(runs, namespace), step)]
  }

  ghost predicate Explains<V>(runs: map<string, Trace<CacheStep<V>>>, partitions: map<string, seq<Item<V>>>, max: nat) {
    forall namespace :: PartitionOf(partitions, namespace) == ListAfter(RunOf(runs, namespace), max)
  }

  /** One more step explains the change of one list. */
  lemma {:induction false} StepExplains<V>(runs: map<string, Trace<CacheStep<V>>>,
      partitions: map<string, seq<Item<V>>>, max: nat, namespace: string, step: CacheStep<V>,
      after: map<string, seq<Item<V>>>)
    requires Explains(runs, partitions, max)
    requires PartitionOf(after, namespace) == ListStep(PartitionOf(partitions, namespace), step, max)
    requires forall other :: other != namespace ==> PartitionOf(after, other) == PartitionOf(partitions, other)
    ensures Explains(Extended(runs, namespace, step), after, max)
  {
    var longer := Extended(runs, namespace, step);
    forall other ensures PartitionOf(after, other) == ListAfter(RunOf(longer, other), max) {
      if other != namespace {
        assert RunOf(longer, other) == RunOf(runs, other);
      } else {
        assert RunOf(longer, other) == Then(RunOf(runs, namespace), step);
      }
    }
  }

  /** What a lookup in this namespace can find. */
  function Visible<V>(trace: Trace<CacheStep<V>>, max: nat, now: real): seq<Item<V>> {
    Unexpired(ListAfter(trace, max), now)
  }

  /** The unexpired part of the last `max` stores. */
  function Recent<V>(trace: Trace<CacheStep<V>>, max: nat, now: real): seq<Item<V>> {
    Unexpired(LastN(Stored(trace), max), now)
  }

  /** The steps happened in time order, the last no later than `now`. */
  ghost predicate Timely<V>(trace: Trace<CacheStep<V>>, now: real) {
    trace.Start? || (trace.last.at <= now && Timely(trace.before, trace.last.at))
  }

  /** Every store used one of the two lifetimes. */
  ghost predicate Uses<V>(trace: Trace<CacheStep<V>>, ttl: real, other: real) {
    trace.Start? || (
      && Uses(trace.before, ttl, other)
      && (trace.last.Store? ==> trace.last.ttl == ttl || trace.last.ttl == other))
  }

  lemma {:induction false} TimelyLater<V>(trace: Trace<CacheStep<V>>, now: real, later: real)
    requires Timely(trace, now) && now <= later
    ensures Timely(trace, later)
  {
  }

  class SemanticCache<V> {
    const threshold: real
    const max: nat
    const embed: Text -> Vector
    const similarity: (Vector, Vector) -> real
    var partitions: map<string, seq<Item<V>>>
    ghost var runs: map<string, Trace<CacheStep<V>>>
    ghost var clock: real

    /** Every list is what the operations on its namespace, in the order they came, leave behind. */
    ghost predicate Valid()
      reads this
    {
      Explains(runs, partitions, max) && AllTimely(runs, clock)
    }

    constructor (threshold: real, max: nat, embed: Text -> Vector, similarity: (Vector, Vector) -> real,
        ghost now: real)
      ensures forall ttl :: OneLifetime(runs, ttl)
      ensures clock == now
      ensures this.threshold == threshold && this.max == max
      ensures this.embed == embed && this.similarity == similarity
      ensures Valid() && runs == map[]
    {
      this.threshold, this.max, this.embed, this.similarity := threshold, max, embed, similarity;
      partitions, runs, clock := map[], map[], now;
    }

    method EvictExpired(namespace: string, now: real)
      requires namespace in partitions
      modifies this`partitions
      ensures partitions == old(partitions)[namespace := Unexpired(old(partitions)[namespace], now)]
    {
      var kept: seq<Item<V>> := [];
      var items := partitions[namespace];
      for i := 0 to |items|
        invariant partitions == old(partitions)
        invariant kept == Unexpired(items[..i], now)
      {
        assert items[..i + 1][..i] == items[..i];
        if items[i].expiresAt >= now {
          kept := kept + [items[i]];
        }
      }
      assert items[..|items|] == items;
      partitions := partitions[namespace := kept];
    }

    /** The earliest entry of greatest similarity above -1, or none. */
    method Nearest(items: seq<Item<V>>, query: Vector) returns (best: int, bestSim: real)
      ensures -1 <= best < |items|
      ensures best == -1 ==> forall j :: 0 <= j < |items| ==> similarity(query, items[j].vector) <= -1.0
      ensures best != -1 ==>
        && bestSim == similarity(query, items[best].vector) && bestSim > -1.0
        && (forall j :: 0 <= j < |items| ==> similarity(query, items[j].vector) <= bestSim)
        && (forall j :: 0 <= j < best ==> similarity(query, items[j].vector) < bestSim)
    {
      best, bestSim := -1, -1.0;
      for i := 0 to |items|
        invariant -1 <= best < i
        invariant best == -1 ==> bestSim == -1.0
        invariant best != -1 ==> bestSim == similarity(query, items[best].vector) && bestSim > -1.0
        invariant forall j :: 0 <= j < i ==> similarity(query, items[j].vector) <= bestSim
        invariant forall j :: 0 <= j < best ==> similarity(query, items[j].vector) < bestSim
      {
        var sim := similarity(query, items[i].vector);
        if sim > bestSim {
          bestSim := sim;
          best := i;
        }
      }
    }

    /**
     * Finds the earliest entry of greatest similarity among the unexpired ones of the namespace,
     * and returns it when it passes the threshold; misses exactly when no entry passes. While all stores
     * use one lifetime, those are the unexpired entries among the last `max` stores in the namespace.
     */
    method GetSemantic(namespace: string, text: Text, now: real) returns (r: Option<(V, real)>)
      requires Valid() && clock <= now
      modifies this
      ensures Valid() && clock == now && runs == Extended(old(runs), namespace, Lookup(now))
      ensures forall ttl :: OneLifetime(old(runs), ttl) ==>
        OneLifetime(runs, ttl) && Exact(RunOf(old(runs), namespace), max, now)
      ensures Answered(r, Visible(RunOf(old(runs), namespace), max, now), embed(text))
      ensures forall other :: other != namespace ==> PartitionOf(partitions, other) == PartitionOf(old(partitions), other)
      ensures var items := if namespace in old(partitions) then old(partitions)[namespace] else [];
        && (r.None? <==>
             forall x :: x in items && x.expiresAt >= now ==>
               similarity(embed(text), x.vector) < threshold || similarity(embed(text), x.vector) <= -1.0)
        && (r.Some? ==>
             && (exists x :: x in items && x.expiresAt >= now && r.value == (x.value, similarity(embed(text), x.vector)))
             && (forall x :: x in items && x.expiresAt >= now ==> similarity(embed(text), x.vector) <= r.value.1))
    {
      var items := LiveEntries(namespace, now);
      r := NearestPassing(items, text);
      AnsweredMeans(r, PartitionOf(old(partitions), namespace), now, embed(text));
    }

    /** The search over live entries; the text is embedded only when there are any. */
    method NearestPassing(items: seq<Item<V>>, text: Text) returns (r: Option<(V, real)>)
      ensures Answered(r, items, embed(text))
    {
      if items == [] {
        return None;
      }
      var query := embed(text);
      var best, bestSim := Nearest(items, query);
      if best == -1 || bestSim < threshold {
        return None;
      }
      r := Some((items[best].value, bestSim));
    }

    lemma AnsweredMeans(r: Option<(V, real)>, items: seq<Item<V>>, now: real, query: Vector)
      requires Answered(r, Unexpired(items, now), query)
      ensures r.None? <==>
        forall x :: x in items && x.expiresAt >= now ==>
          similarity(query, x.vector) < threshold || similarity(query, x.vector) <= -1.0
      ensures r.Some? ==>
        && (exists x :: x in items && x.expiresAt >= now && r.value == (x.value, similarity(query, x.vector)))
        && (forall x :: x in items && x.expiresAt >= now ==> similarity(query, x.vector) <= r.value.1)
    {
      var live := Unexpired(items, now);
      forall x | x in items && x.expiresAt >= now ensures exists i :: 0 <= i < |live| && live[i] == x {
        UnexpiredMembers(items, now, x);
      }
      if r.Some? {
        var i :| 0 <= i < |live| && r.value == (live[i].value, similarity(query, live[i].vector))
          && r.value.1 >= threshold && r.value.1 > -1.0;
        UnexpiredMembers(items, now, live[i]);
        assert live[i] in items;
      } else {
        forall x | x in items && x.expiresAt >= now
          ensures similarity(query, x.vector) < threshold || similarity(query, x.vector) <= -1.0
        {
          var i :| 0 <= i < |live| && live[i] == x;
        }
      }
    }

    /** The namespace's entries after purging the expired ones; nothing to purge in an unknown or empty one. */
    method LiveEntries(namespace: string, now: real) returns (items: seq<Item<V>>)
      requires Valid() && clock <= now
      modifies this
      ensures Valid() && clock == now && runs == Extended(old(runs), namespace, Lookup(now))
      ensures forall ttl :: OneLifetime(old(runs), ttl) ==>
        OneLifetime(runs, ttl) && Exact(RunOf(old(runs), namespace), max, now)
      ensures items == Visible(RunOf(old(runs), namespace), max, now)
      ensures items == Unexpired(PartitionOf(old(partitions), namespace), now)
      ensures forall other :: other != namespace ==> PartitionOf(partitions, other) == PartitionOf(old(partitions), other)
    {
      ghost var before := partitions;
      if namespace !in partitions || partitions[namespace] == [] {
        items := [];
      } else {
        EvictExpired(namespace, now);
        items := partitions[namespace];
      }
      assert items == Unexpired(PartitionOf(before, namespace), now);
      Extend(namespace, Lookup(now), before);
    }

    /** A miss exactly when no live entry passes; a hit is the earliest of greatest similarity. */
    ghost predicate Answered(r: Option<(V, real)>, live: seq<Item<V>>, query: Vector) {
      && (r.None? <==>
           forall i :: 0 <= i < |live| ==>
             similarity(query, live[i].vector) < threshold || similarity(query, live[i].vector) <= -1.0)
      && (r.Some? ==>
           exists i ::
             && 0 <= i < |live| && r.value == (live[i].value, similarity(query, live[i].vector))
             && r.value.1 >= threshold && r.value.1 > -1.0
             && (forall j :: 0 <= j < |live| ==> similarity(query, live[j].vector) <= r.value.1)
             && (forall j :: 0 <= j < i ==> similarity(query, live[j].vector) < r.value.1))
    }

    /** Writes a step down after it changed one list. */
    ghost method Extend(namespace: string, step: CacheStep<V>, before: map<string, seq<Item<V>>>)
      requires Explains(runs, before, max) && AllTimely(runs, clock) && clock <= step.at
      requires PartitionOf(partitions, namespace) == ListStep(PartitionOf(before, namespace), step, max)
      requires forall other :: other != namespace ==> PartitionOf(partitions, other) == PartitionOf(before, other)
      modifies this`runs, this`clock
      ensures Valid() && clock == step.at && runs == Extended(old(runs), namespace, step)
      ensures forall ttl :: OneLifetime(old(runs), ttl) && (step.Store? ==> step.ttl == ttl) ==> OneLifetime(runs, ttl)
      ensures forall ttl :: OneLifetime(old(runs), ttl) ==> Exact(RunOf(old(runs), namespace), max, step.at)
    {
      StepExplains(runs, before, max, namespace, step, partitions);
      ExtendedIsTimely(runs, namespace, step, clock);
      ghost var longer := Extended(runs, namespace, step);
      forall ttl | OneLifetime(runs, ttl) ensures Exact(RunOf(runs, namespace), max, step.at) {
        TimelyLater(RunOf(runs, namespace), clock, step.at);
        OneLifetimeIsExact(RunOf(runs, namespace), max, ttl, step.at);
      }
      forall ttl, other | OneLifetime(runs, ttl) && (step.Store? ==> step.ttl == ttl) ensures Uses(RunOf(longer, other), ttl, ttl) {
        ExtendedRun(runs, namespace, step, other);
        assert Uses(RunOf(runs, other), ttl, ttl) && Uses(RunOf(runs, namespace), ttl, ttl);
      }
      runs, clock := longer, step.at;
    }

    /** Appends to the namespace's list and pops its front until it fits. */
    method SetSemantic(namespace: string, text: Text, value: V, ttl: real, now: real)
      requires Valid() && clock <= now
      modifies this
      ensures Valid() && clock == now && runs == Extended(old(runs), namespace, Store(embed(text), value, ttl, now))
      ensures OneLifetime(old(runs), ttl) ==> OneLifetime(runs, ttl)
      ensures var all := (if namespace in old(partitions) then old(partitions)[namespace] else [])
          + [Item(embed(text), value, now + ttl)];
        partitions == old(partitions)[namespace := if |all| <= max then all else all[|all| - max..]]
    {
      var items := PartitionOf(partitions, namespace) + [Item(embed(text), value, now + ttl)];
      ghost var all, cut := items, 0;
      while |items| > max
        invariant cut <= |all| && items == all[cut..]
        invariant |items| >= max || cut == 0
      {
        items := items[1..];
        cut := cut + 1;
      }
      ghost var before := partitions;
      partitions := partitions[namespace := items];
      Extend(namespace, Store(embed(text), value, ttl, now), before);
    }
  }

  /** Every store so far used this lifetime. */
  ghost predicate OneLifetime<V>(runs: map<string, Trace<CacheStep<V>>>, ttl: real) {
    forall namespace :: Uses(RunOf(runs, namespace), ttl, ttl)
  }

  ghost predicate AllTimely<V>(runs: map<string, Trace<CacheStep<V>>>, clock: real) {
    forall namespace :: Timely(RunOf(runs, namespace), clock)
  }

  lemma {:induction false} ExtendedRun<V>(runs: map<string, Trace<CacheStep<V>>>, namespace: string,
      step: CacheStep<V>, other: string)
    ensures RunOf(Extended(runs, namespace, step), other)
         == if other == namespace then Then(RunOf(runs, namespace), step) else RunOf(runs, other)
  {
  }

  lemma {:induction false} ExtendedIsTimely<V>(runs: map<string, Trace<CacheStep<V>>>, namespace: string,
      step: CacheStep<V>, clock: real)
    requires AllTimely(runs, clock) && clock <= step.at
    ensures AllTimely(Extended(runs, namespace, step), step.at)
  {
    forall other ensures Timely(RunOf(Extended(runs, namespace, step), other), step.at) {
      ExtendedRun(runs, namespace, step, other);
      TimelyLater(RunOf(runs, other), clock, step.at);
    }
  }

  // ---------- what a lookup can see ----------

  /** What a lookup finds is what was stored last and has not expired. */
  ghost predicate Exact<V>(trace: Trace<CacheStep<V>>, max: nat, now: real) {
    Visible(trace, max, now) == Recent(trace, max, now)
  }

  /** Expiry times never fall along the list. */
  ghost predicate Rises<V>(items: seq<Item<V>>) {
    |items| <= 1 || (items[|items| - 2].expiresAt <= items[|items| - 1].expiresAt && Rises(items[..|items| - 1]))
  }

  lemma {:induction false} RisesIndices<V>(items: seq<Item<V>>)
    requires Rises(items)
    ensures forall i, j :: 0 <= i <= j < |items| ==> items[i].expiresAt <= items[j].expiresAt
  {
    if |items| > 1 {
      RisesIndices(items[..|items| - 1]);
    }
  }

  lemma {:induction false} RisesAppend<V>(items: seq<Item<V>>, x: Item<V>)
    ensures Rises(items + [x]) <==> Rises(items) && (items != [] ==> items[|items| - 1].expiresAt <= x.expiresAt)
  {
    assert (items + [x])[..|items|] == items;
  }

  /** `cut` separates the expired entries from the rest. */
  predicate Separates<V>(items: seq<Item<V>>, cut: nat, now: real) {
    && cut <= |items|
    && (forall i :: 0 <= i < cut ==> items[i].expiresAt < now)
    && (forall i :: cut <= i < |items| ==> items[i].expiresAt >= now)
  }

  lemma {:induction false} UnexpiredIsSuffix<V>(items: seq<Item<V>>, cut: nat, now: real)
    requires Separates(items, cut, now)
    ensures Unexpired(items, now) == items[cut..]
  {
    if items != [] {
      var init, last := items[..|items| - 1], items[|items| - 1];
      if cut == |items| {
        UnexpiredIsSuffix(init, cut - 1, now);
      } else {
        UnexpiredIsSuffix(init, cut, now);
        assert items[cut..] == init[cut..] + [last];
      }
    }
  }

  lemma {:induction false} FindCut<V>(items: seq<Item<V>>, now: real) returns (cut: nat)
    requires Rises(items)
    ensures Separates(items, cut, now)
  {
    cut := |items|;
    if items != [] {
      RisesIndices(items);
      if items[|items| - 1].expiresAt >= now {
        cut := FindCut(items[..|items| - 1], now);
      }
    }
  }

  /** On a list that ages in order, what is unexpired among the entries from `from` on is again a suffix. */
  lemma {:induction false} UnexpiredFrom<V>(items: seq<Item<V>>, cut: nat, from: nat, now: real)
    requires Separates(items, cut, now) && from <= |items|
    ensures Unexpired(items[from..], now) == items[if from <= cut then cut else from..]
  {
    UnexpiredIsSuffix(items[from..], if from <= cut then cut - from else 0, now);
  }

  /** The list is a suffix of what was stored, and what is missing from the last `max` has expired. */
  ghost predicate Suffix<V>(list: seq<Item<V>>, stored: seq<Item<V>>, max: nat, clock: real) {
    && |list| <= max && |list| <= |stored| && list == stored[|stored| - |list|..]
    && (|list| == max || |list| == |stored| || stored[|stored| - |list| - 1].expiresAt < clock)
  }

  /** Stored entries expire in order and the list is a suffix of them. */
  ghost predicate InStep<V>(list: seq<Item<V>>, stored: seq<Item<V>>, max: nat, clock: real) {
    Suffix(list, stored, max, clock) && Rises(stored)
  }

  lemma {:induction false} TimePasses<V>(list: seq<Item<V>>, stored: seq<Item<V>>, max: nat, clock: real, now: real)
    requires InStep(list, stored, max, clock) && clock <= now
    ensures InStep(list, stored, max, now)
  {
  }

  lemma {:induction false} StoreKeepsSuffix<V>(list: seq<Item<V>>, stored: seq<Item<V>>, max: nat, clock: real,
      x: Item<V>)
    requires Suffix(list, stored, max, clock)
    ensures Suffix(LastN(list + [x], max), stored + [x], max, clock)
  {
    var from := |stored| - |list|;
    assert list + [x] == (stored + [x])[from..];
    if |list| == max {
      assert LastN(list + [x], max) == (stored + [x])[from + 1..];
    } else {
      assert (stored + [x])[from..] == LastN(list + [x], max);
      assert from > 0 ==> (stored + [x])[from - 1] == stored[from - 1];
    }
  }

  lemma {:induction false} LookupKeepsSuffix<V>(list: seq<Item<V>>, stored: seq<Item<V>>, max: nat, now: real)
    requires Suffix(list, stored, max, now) && Rises(stored)
    ensures Suffix(Unexpired(list, now), stored, max, now)
  {
    var from := |stored| - |list|;
    var cut := FindCut(stored, now);
    UnexpiredFrom(stored, cut, from, now);
    var kept := if from <= cut then cut else from;
    assert |stored| - |stored[kept..]| == kept;
  }

  lemma {:induction false} StoreStaysInStep<V>(list: seq<Item<V>>, stored: seq<Item<V>>, step: CacheStep<V>, max: nat)
    requires InStep(list, stored, max, step.at) && step.Store? && Rises(StoredStep(stored, step))
    ensures InStep(ListStep(list, step, max), StoredStep(stored, step), max, step.at)
  {
    var x := Item(step.vector, step.value, step.at + step.ttl);
    assert ListStep(list, step, max) == LastN(list + [x], max);
    assert StoredStep(stored, step) == stored + [x];
    StoreKeepsSuffix(list, stored, max, step.at, x);
  }

  lemma {:induction false} LookupStaysInStep<V>(list: seq<Item<V>>, stored: seq<Item<V>>, step: CacheStep<V>, max: nat)
    requires InStep(list, stored, max, step.at) && step.Lookup?
    ensures InStep(ListStep(list, step, max), StoredStep(stored, step), max, step.at)
  {
    assert ListStep(list, step, max) == Unexpired(list, step.at);
    assert StoredStep(stored, step) == stored;
    LookupKeepsSuffix(list, stored, max, step.at);
  }

  lemma {:induction false} StepStaysInStep<V>(list: seq<Item<V>>, stored: seq<Item<V>>, step: CacheStep<V>, max: nat)
    returns (list': seq<Item<V>>, stored': seq<Item<V>>)
    requires InStep(list, stored, max, step.at) && Rises(StoredStep(stored, step))
    ensures list' == ListStep(list, step, max) && stored' == StoredStep(stored, step)
    ensures InStep(list', stored', max, step.at)
  {
    list', stored' := ListStep(list, step, max), StoredStep(stored, step);
    if step.Store? {
      StoreStaysInStep(list, stored, step, max);
    } else {
      LookupStaysInStep(list, stored, step, max);
    }
  }

  lemma {:induction false} EmptyInStep<V>(max: nat, clock: real)
    ensures InStep<V>([], [], max, clock)
  {
  }

  lemma {:induction false} EarlierRises<V>(stored: seq<Item<V>>, step: CacheStep<V>)
    requires Rises(StoredStep(stored, step))
    ensures Rises(stored)
  {
    if step.Store? {
      RisesAppend(stored, Item(step.vector, step.value, step.at + step.ttl));
    }
  }

  lemma {:induction false} RunStaysInStep<V>(trace: Trace<CacheStep<V>>, max: nat, now: real)
    returns (list: seq<Item<V>>, stored: seq<Item<V>>)
    requires Timely(trace, now) && Rises(Stored(trace))
    ensures list == ListAfter(trace, max) && stored == Stored(trace)
    ensures InStep(list, stored, max, now)
  {
    match trace
    case Start =>
      list, stored := [], [];
      EmptyInStep<V>(max, now);
    case Then(before, last) =>
      EarlierRises(Stored(before), last);
      list, stored := RunStaysInStep(before, max, last.at);
      list, stored := StepStaysInStep(list, stored, last, max);
      TimePasses(list, stored, max, last.at, now);
  }

  lemma {:induction false} SuffixSeesTheRecent<V>(list: seq<Item<V>>, stored: seq<Item<V>>, max: nat, now: real)
    requires InStep(list, stored, max, now)
    ensures Unexpired(list, now) == Unexpired(LastN(stored, max), now)
  {
    var cut := FindCut(stored, now);
    UnexpiredFrom(stored, cut, |stored| - |list|, now);
    var from := if |stored| <= max then 0 else |stored| - max;
    UnexpiredFrom(stored, cut, from, now);
    assert stored[from..] == LastN(stored, max);
  }

  /**
   * With a clock that never runs back and stores whose expiry times never fall, what a lookup can see is
   * exactly the unexpired part of the last `max` stores in the namespace.
   */
  lemma {:induction false} SurvivorsAreTheRecentUnexpired<V>(trace: Trace<CacheStep<V>>, max: nat, now: real)
    requires Timely(trace, now) && Rises(Stored(trace))
    ensures Exact(trace, max, now)
  {
    var list, stored := RunStaysInStep(trace, max, now);
    SuffixSeesTheRecent(list, stored, max, now);
  }

  /** One lifetime makes expiry times rise. */
  lemma {:induction false} OneLifetimeRises<V>(trace: Trace<CacheStep<V>>, ttl: real, now: real)
    requires Timely(trace, now) && Uses(trace, ttl, ttl)
    ensures Rises(Stored(trace))
    ensures Stored(trace) != [] ==> Stored(trace)[|Stored(trace)| - 1].expiresAt <= now + ttl
  {
    match trace
    case Start =>
    case Then(before, last) =>
      OneLifetimeRises(before, ttl, last.at);
      if last.Store? {
        RisesAppend(Stored(before), Item(last.vector, last.value, last.at + last.ttl));
      }
  }

  lemma {:induction false} OneLifetimeIsExact<V>(trace: Trace<CacheStep<V>>, max: nat, ttl: real, now: real)
    requires Timely(trace, now) && Uses(trace, ttl, ttl)
    ensures Exact(trace, max, now)
  {
    OneLifetimeRises(trace, ttl, now);
    SurvivorsAreTheRecentUnexpired(trace, max, now);
  }

  // ---------- two lifetimes ----------

  /** Room for at most one entry: the list holds the last store, or nothing once that has expired. */
  ghost predicate LastOnly<V>(list: seq<Item<V>>, stored: seq<Item<V>>, max: nat, clock: real) {
    list == LastN(stored, max) || (list == [] && stored != [] && stored[|stored| - 1].expiresAt < clock)
  }

  lemma {:induction false} StepIsLastOnly<V>(list: seq<Item<V>>, stored: seq<Item<V>>, step: CacheStep<V>, max: nat)
    requires LastOnly(list, stored, max, step.at) && max <= 1
    ensures LastOnly(ListStep(list, step, max), StoredStep(stored, step), max, step.at)
  {
    if step.Lookup? && list != [] {
      assert list == [stored[|stored| - 1]];
      UnexpiredOf([], list[0], step.at);
      assert [] + [list[0]] == list;
    }
  }

  lemma {:induction false} SmallCacheIsLastOnly<V>(trace: Trace<CacheStep<V>>, max: nat, now: real)
    requires Timely(trace, now) && max <= 1
    ensures LastOnly(ListAfter(trace, max), Stored(trace), max, now)
  {
    match trace
    case Start =>
    case Then(before, last) =>
      SmallCacheIsLastOnly(before, max, last.at);
      StepIsLastOnly(ListAfter(before, max), Stored(before), last, max);
  }

  /** A cache of at most one entry is exact whatever the lifetimes. */
  lemma {:induction false} SmallCacheIsExact<V>(trace: Trace<CacheStep<V>>, max: nat, now: real)
    requires Timely(trace, now) && max <= 1
    ensures Exact(trace, max, now)
  {
    SmallCacheIsLastOnly(trace, max, now);
    var list, stored := ListAfter(trace, max), Stored(trace);
    if list != LastN(stored, max) {
      var recent := LastN(stored, max);
      assert max == 0 ==> recent == [];
      assert max == 1 ==> recent == [stored[|stored| - 1]];
      if max == 1 {
        UnexpiredOf([], recent[0], now);
        assert [] + [recent[0]] == recent;
      }
    }
  }

  ghost predicate AllExpired<V>(items: seq<Item<V>>, now: real) {
    forall i :: 0 <= i < |items| ==> items[i].expiresAt < now
  }

  lemma {:induction false} NothingUnexpired<V>(items: seq<Item<V>>, now: real)
    requires AllExpired(items, now)
    ensures Unexpired(items, now) == []
  {
    if items != [] {
      NothingUnexpired(items[..|items| - 1], now);
    }
  }

  lemma {:induction false} UnexpiredAreItems<V>(items: seq<Item<V>>, now: real, later: real)
    requires AllExpired(items, later)
    ensures AllExpired(Unexpired(items, now), later)
  {
    if items != [] {
      UnexpiredAreItems(items[..|items| - 1], now, later);
    }
  }

  /** Negative lifetimes: every entry is expired as soon as it is stored. */
  lemma {:induction false} StillbornEntries<V>(trace: Trace<CacheStep<V>>, max: nat, ttl: real, other: real, now: real)
    requires Timely(trace, now) && Uses(trace, ttl, other) && ttl < 0.0 && other < 0.0
    ensures AllExpired(ListAfter(trace, max), now) && AllExpired(Stored(trace), now)
  {
    match trace
    case Start =>
    case Then(before, last) =>
      StillbornEntries(before, max, ttl, other, last.at);
      if last.Lookup? {
        UnexpiredAreItems(ListAfter(before, max), last.at, now);
      }
  }

  lemma {:induction false} StillbornIsExact<V>(trace: Trace<CacheStep<V>>, max: nat, ttl: real, other: real, now: real)
    requires Timely(trace, now) && Uses(trace, ttl, other) && ttl < 0.0 && other < 0.0
    ensures Exact(trace, max, now)
  {
    StillbornEntries(trace, max, ttl, other, now);
    NothingUnexpired(ListAfter(trace, max), now);
    NothingUnexpired(LastN(Stored(trace), max), now);
  }

  function Copies<V>(x: Item<V>, n: nat): (r: seq<Item<V>>)
    ensures |r| == n && forall i :: 0 <= i < n ==> r[i] == x
  {
    if n == 0 then [] else Copies(x, n - 1) + [x]
  }

  lemma {:induction false} UnexpiredCopies<V>(x: Item<V>, n: nat, now: real)
    requires x.expiresAt >= now
    ensures Unexpired(Copies(x, n), now) == Copies(x, n)
  {
    if n > 0 {
      UnexpiredCopies(x, n - 1, now);
      UnexpiredOf(Copies(x, n - 1), x, now);
    }
  }

  /** What the failing run leaves: the long entry has outlived the short one stored after it. */
  ghost predicate Outlived<V>(trace: Trace<CacheStep<V>>, max: nat, a: Item<V>, b: Item<V>, c: Item<V>, n: nat) {
    ListAfter(trace, max) == [a] + Copies(c, n) && Stored(trace) == [a, b] + Copies(c, n)
  }

  /** A long-lived entry, and a short-lived one. */
  lemma {:induction false} TwoStores<V>(v: V, max: nat, short: real, long: real) returns (trace: Trace<CacheStep<V>>)
    requires short < long && long >= 0.0 && max >= 2
    ensures Timely(trace, 0.0) && Uses(trace, short, long)
    ensures var both := [Item([], v, long), Item([], v, short)];
      ListAfter(trace, max) == both && Stored(trace) == both
  {
    var a, b := Item([], v, long), Item([], v, short);
    var one := Then(Start, Store([], v, long, 0.0));
    assert [] + [a] == [a] && [a] + [b] == [a, b];
    assert ListAfter(one, max) == [a];
    assert Stored(one) == [a];
    assert Timely(one, 0.0);
    assert Uses(one, short, long);
    trace := Then(one, Store([], v, short, 0.0));
  }

  /** Then a lookup when only the second has expired. */
  lemma {:induction false} OutlivedRun<V>(v: V, max: nat, short: real, long: real) returns (trace: Trace<CacheStep<V>>)
    requires short < long && long >= 0.0 && max >= 2
    ensures Timely(trace, long) && Uses(trace, short, long)
    ensures Outlived(trace, max, Item([], v, long), Item([], v, short), Item([], v, long + long), 0)
  {
    var a, b := Item([], v, long), Item([], v, short);
    var two := TwoStores(v, max, short, long);
    TimelyLater(two, 0.0, long);
    trace := Then(two, Lookup(long));
    assert [a] + [b] == [a, b] && [] + [a] == [a];
    UnexpiredOf([a], b, long);
    UnexpiredOf([], a, long);
    assert Unexpired([a, b], long) == [a];
    assert [a] + [] == [a] && [a, b] + [] == [a, b];
  }

  lemma {:induction false} MoreStores<V>(v: V, max: nat, short: real, long: real, n: nat)
    returns (trace: Trace<CacheStep<V>>)
    requires short < long && long >= 0.0 && max >= 2 && n < max
    ensures Timely(trace, long) && Uses(trace, short, long)
    ensures Outlived(trace, max, Item([], v, long), Item([], v, short), Item([], v, long + long), n)
  {
    if n == 0 {
      trace := OutlivedRun(v, max, short, long);
    } else {
      var before := MoreStores(v, max, short, long, n - 1);
      var a, b, c := Item([], v, long), Item([], v, short), Item([], v, long + long);
      trace := Then(before, Store([], v, long, long));
      assert [a] + Copies(c, n - 1) + [c] == [a] + Copies(c, n);
      assert [a, b] + Copies(c, n - 1) + [c] == [a, b] + Copies(c, n);
    }
  }

  lemma {:induction false} OutlivedIsNotExact<V>(trace: Trace<CacheStep<V>>, max: nat, a: Item<V>, b: Item<V>, c: Item<V>,
      now: real)
    requires max >= 2 && Outlived(trace, max, a, b, c, max - 1)
    requires a.expiresAt >= now && b.expiresAt < now && c.expiresAt >= now
    ensures |Visible(trace, max, now)| == max && |Recent(trace, max, now)| == max - 1
  {
    var n := max - 1;
    var more := Copies(c, n);
    UnexpiredCopies(c, n, now);
    assert LastN([a, b] + more, max) == [b] + more;
    UnexpiredAfter([a], more, now);
    UnexpiredAfter([b], more, now);
    UnexpiredOf([], a, now);
    UnexpiredOf([], b, now);
    assert [] + [a] == [a] && [] + [b] == [b];
  }

  lemma {:induction false} UnexpiredAfter<V>(items: seq<Item<V>>, more: seq<Item<V>>, now: real)
    ensures Unexpired(items + more, now) == Unexpired(items, now) + Unexpired(more, now)
  {
    if more == [] {
      assert items + more == items;
    } else {
      var n := |more| - 1;
      UnexpiredAfter(items, more[..n], now);
      assert items + more == (items + more[..n]) + [more[n]] && more == more[..n] + [more[n]];
      UnexpiredOf(items + more[..n], more[n], now);
      UnexpiredOf(more[..n], more[n], now);
    }
  }

  /**
   * Two lifetimes: every lookup of every run sees exactly the recent unexpired stores if and only if the
   * cache has room for at most one entry, or neither lifetime lets an entry live at all.
   */
  lemma {:induction false} TwoLifetimesAreExactIff<V(!new)>(v: V, max: nat, short: real, long: real)
    requires short < long
    ensures (forall trace: Trace<CacheStep<V>>, now: real ::
               Timely(trace, now) && Uses(trace, short, long) ==> Exact(trace, max, now))
       <==> max <= 1 || long < 0.0
  {
    if max <= 1 || long < 0.0 {
      forall trace: Trace<CacheStep<V>>, now: real | Timely(trace, now) && Uses(trace, short, long)
        ensures Exact(trace, max, now)
      {
        if max <= 1 {
          SmallCacheIsExact(trace, max, now);
        } else {
          StillbornIsExact(trace, max, short, long, now);
        }
      }
    } else {
      var trace := MoreStores(v, max, short, long, max - 1);
      OutlivedIsNotExact(trace, max, Item([], v, long), Item([], v, short), Item([], v, long + long), long);
      assert !Exact(trace, max, long);
    }
  }

  lemma {:induction false} UnexpiredOf<V>(items: seq<Item<V>>, x: Item<V>, now: real)
    ensures Unexpired<V>([], now) == []
    ensures Unexpired(items + [x], now) == Unexpired(items, now) + if x.expiresAt >= now then [x] else []
  {
    assert (items + [x])[..|items|] == items;
  }

  /**
   * A prompt with the tokens of a stored one, in whatever order, passes every threshold up to 1; and nothing
   * but an equal embedding passes the threshold 1.
   */
  lemma {:induction false} RepeatedTokensMatch(a: seq<string>, b: seq<string>, hash: string -> nat, dim: nat,
      sqrt: real -> real, threshold: real)
    requires dim > 0 && IsSqrt(sqrt) && a != [] && threshold <= 1.0
    ensures var va, vb := Normalised(Counts(a, hash, dim), sqrt), Normalised(Counts(b, hash, dim), sqrt);
      && |va| == |vb|
      && (multiset(a) == multiset(b) ==> CosineOf(va, vb, sqrt) >= threshold && CosineOf(va, vb, sqrt) > -1.0)
      && (CosineOf(va, vb, sqrt) >= 1.0 ==> va == vb)
  {
    var ca, cb := Counts(a, hash, dim), Counts(b, hash, dim);
    NormalisingKeepsSimilarity(ca, cb, sqrt);
    CosineRange(ca, cb, sqrt);
    SimilarityOneIffSameEmbedding(ca, cb, sqrt);
    if multiset(a) == multiset(b) {
      SameTokensMatchExactly(a, b, hash, dim, sqrt);
    }
  }
}
