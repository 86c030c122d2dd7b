// The shared block cache. Each method is one region under the cache's lock, or
// the resolution of one promise, so any interleaving of threads is a sequence
// of calls. Valid() holds between any two of them.
module BlockCache {
  import opened Options
  import opened UploadPlan

  datatype Entry = Entry(bytes: nat, usedAt: nat, generation: nat)

  type Blocks = map<string, Entry>

  // A fetch, by its generation: running; stored and accounted but not yet
  // visible to waiters; failed; or over, with its promise resolved. And what it
  // brought, once it has brought it.
  datatype Phase = Fetching | Stored | Dropped | Resolved

  datatype Fetch = Fetch(key: string, phase: Phase, data: Option<seq<Byte>>)

  type Fetches = map<nat, Fetch>

  type Futures = map<nat, Option<seq<Byte>>>

  // ----- The sum of the bytes of the mapped entries -----

  ghost function Sum(blocks: Blocks): nat {
    if blocks == map[] then 0
    else
      var k :| k in blocks;
      blocks[k].bytes + Sum(blocks - {k})
  }

  lemma {:induction false} SumWithout(blocks: Blocks, k: string)
    requires k in blocks
    ensures Sum(blocks) == blocks[k].bytes + Sum(blocks - {k})
    decreases |blocks|
  {
    var j :| j in blocks && Sum(blocks) == blocks[j].bytes + Sum(blocks - {j});
    if j != k {
      SumWithout(blocks - {j}, k);
      SumWithout(blocks - {k}, j);
      assert blocks - {j} - {k} == blocks - {k} - {j};
    }
  }

  lemma SumWith(blocks: Blocks, k: string, e: Entry)
    ensures Sum(blocks[k := e]) == e.bytes + Sum(blocks - {k})
    ensures k !in blocks ==> blocks - {k} == blocks
    ensures k in blocks ==> Sum(blocks) == blocks[k].bytes + Sum(blocks - {k})
  {
    SumWithout(blocks[k := e], k);
    assert blocks[k := e] - {k} == blocks - {k};
    if k in blocks {
      SumWithout(blocks, k);
    }
  }

  // ----- What holds between any two steps -----

  predicate InFlight(f: Fetch) { f.phase == Fetching || f.phase == Stored }

  function Flights(fetches: Fetches): set<nat> { set g | g in fetches && InFlight(fetches[g]) }

  function SizeOf(f: Fetch): nat { if f.data.Some? then |f.data.value| else 0 }

  predicate PhaseOk(f: Fetch) {
    && (f.phase == Fetching || f.phase == Dropped ==> f.data.None?)
    && (f.phase == Stored ==> f.data.Some?)
  }

  // An entry belongs to the fetch that inserted it. It has no bytes accounted
  // while that fetch is running, and those of its data afterwards.
  predicate OwnedBy(e: Entry, k: string, f: Fetch) {
    && f.key == k && f.phase != Dropped && e.bytes == SizeOf(f)
    && (f.phase == Resolved ==> f.data.Some?)
  }

  predicate EntryOwned(e: Entry, k: string, fetches: Fetches, clock: nat) {
    e.usedAt <= clock && e.generation in fetches && OwnedBy(e, k, fetches[e.generation])
  }

  ghost predicate EntriesOwned(blocks: Blocks, fetches: Fetches, nextGeneration: nat, clock: nat) {
    && (forall g <- fetches :: g <= nextGeneration && PhaseOk(fetches[g]))
    && (forall k <- blocks :: EntryOwned(blocks[k], k, fetches, clock))
  }

  // Recency is strict: each tick of the clock was one use of one entry.
  ghost predicate DistinctUse(blocks: Blocks, users: map<nat, string>, clock: nat) {
    && (forall t <- users :: t <= clock)
    && (forall k <- blocks :: blocks[k].usedAt in users && users[blocks[k].usedAt] == k)
  }

  // A fetch in flight is still mapped, unless it was orphaned.
  ghost predicate FlightsMapped(blocks: Blocks, fetches: Fetches, orphans: set<nat>) {
    forall g <- fetches :: InFlight(fetches[g]) && g !in orphans ==>
      fetches[g].key in blocks && blocks[fetches[g].key].generation == g
  }

  ghost predicate ReadyIsResolved(fetches: Fetches, ready: set<nat>) {
    forall g <- fetches :: g in ready <==> fetches[g].phase == Resolved
  }

  // A resolved future holds what its fetch brought, or the error.
  ghost predicate FuturesHold(futures: Futures, fetches: Fetches) {
    forall g <- futures :: g in fetches && futures[g] == fetches[g].data
  }

  // Only resolved entries were removed, least recently used first: those
  // removed were last used before `mark`, the resolved ones kept not before.
  ghost predicate EvictedFrom(before: Blocks, after: Blocks, ready: set<nat>, mark: nat) {
    && (forall k <- after :: k in before && after[k] == before[k])
    && (forall k <- before :: k !in after ==> before[k].generation in ready && before[k].usedAt < mark)
    && (forall k <- after :: after[k].generation in ready ==> mark <= after[k].usedAt)
  }

  // Nothing was removed, or the last entry removed had to go: with it the cache
  // was above its capacity.
  ghost predicate StoppedInTime(before: Blocks, after: Blocks, cachedBytes: nat, capacity: nat, last: string) {
    after == before || (last in before && last !in after && cachedBytes + before[last].bytes > capacity)
  }

  ghost predicate Consistent(blocks: Blocks, cachedBytes: nat, clock: nat, nextGeneration: nat, ready: set<nat>,
                             fetches: Fetches, orphans: set<nat>, users: map<nat, string>) {
    && cachedBytes == Sum(blocks)
    && EntriesOwned(blocks, fetches, nextGeneration, clock)
    && DistinctUse(blocks, users, clock)
    && FlightsMapped(blocks, fetches, orphans)
    && ReadyIsResolved(fetches, ready)
  }

  lemma ReadyIsOver(b: Blocks, c: nat, clock: nat, n: nat, ready: set<nat>, f: Fetches, o: set<nat>,
                    u: map<nat, string>, k: string)
    requires Consistent(b, c, clock, n, ready, f, o, u) && k in b && b[k].generation in ready
    ensures b[k].generation in f && !InFlight(f[b[k].generation])
  {
    assert EntryOwned(b[k], k, f, clock);
  }

  lemma NotReadyYet(b: Blocks, c: nat, clock: nat, n: nat, ready: set<nat>, f: Fetches, o: set<nat>,
                    u: map<nat, string>, g: nat)
    requires Consistent(b, c, clock, n, ready, f, o, u) && g in f && f[g].phase != Resolved
    ensures g !in ready
  {
  }

  lemma NewIsNotReady(b: Blocks, c: nat, clock: nat, n: nat, futures: Futures, f: Fetches, o: set<nat>,
                      u: map<nat, string>)
    requires Consistent(b, c, clock, n, futures.Keys, f, o, u) && FuturesHold(futures, f)
    ensures n + 1 !in f && n + 1 !in futures && futures.Keys <= f.Keys
  {
  }

  lemma FuturesKeep(futures: Futures, fetches: Fetches, g: nat, f: Fetch)
    requires FuturesHold(futures, fetches) && g !in futures
    ensures FuturesHold(futures, fetches[g := f])
  {
  }

  // ----- Each change keeps it -----

  lemma TouchKeeps(b: Blocks, c: nat, k: string, clock: nat, n: nat, ready: set<nat>, f: Fetches, o: set<nat>,
                   u: map<nat, string>)
    requires Consistent(b, c, clock, n, ready, f, o, u) && k in b
    ensures Consistent(b[k := b[k].(usedAt := clock + 1)], c, clock + 1, n, ready, f, o, u[clock + 1 := k])
  {
    SumWith(b, k, b[k].(usedAt := clock + 1));
  }

  lemma InsertKeeps(b: Blocks, c: nat, k: string, clock: nat, n: nat, ready: set<nat>, f: Fetches, o: set<nat>,
                    u: map<nat, string>, tick: nat, g: nat)
    requires Consistent(b, c, clock, n, ready, f, o, u) && k !in b && ready <= f.Keys
    requires tick == clock + 1 && g == n + 1
    ensures g !in f
    ensures Consistent(b[k := Entry(0, tick, g)], c, tick, g, ready, f[g := Fetch(k, Fetching, None)], o, u[tick := k])
  {
    var e := Entry(0, tick, g);
    SumWith(b, k, e);
    var f' := f[g := Fetch(k, Fetching, None)];
    assert forall h <- f :: h != g && f'[h] == f[h];
    assert EntriesOwned(b[k := e], f', g, tick);
    assert DistinctUse(b[k := e], u[tick := k], tick);
    assert FlightsMapped(b[k := e], f', o);
  }

  lemma AccountKeeps(b: Blocks, c: nat, k: string, g: nat, data: seq<Byte>, clock: nat, n: nat, ready: set<nat>,
                     f: Fetches, o: set<nat>, u: map<nat, string>)
    requires Consistent(b, c, clock, n, ready, f, o, u) && g in f && f[g] == Fetch(k, Fetching, None)
    ensures Consistent(Accounted(b, k, g, |data|), if OwnEntry(b, k, g) then c + |data| else c, clock, n, ready,
                       f[g := Fetch(k, Stored, Some(data))], o, u)
  {
    hide Sum;
    if OwnEntry(b, k, g) {
      SumWith(b, k, b[k].(bytes := |data|));
    }
    var f', b' := f[g := Fetch(k, Stored, Some(data))], Accounted(b, k, g, |data|);
    assert EntriesOwned(b', f', n, clock);
    assert FlightsMapped(b', f', o);
  }

  // Removing an entry whose fetch is over, or over from now on.
  lemma RemoveKeeps(b: Blocks, c: nat, k: string, clock: nat, n: nat, ready: set<nat>, f: Fetches, o: set<nat>,
                    u: map<nat, string>)
    requires Consistent(b, c, clock, n, ready, f, o, u) && k in b && !InFlight(f[b[k].generation])
    ensures b[k].bytes <= c
    ensures Consistent(b - {k}, c - b[k].bytes, clock, n, ready, f, o, u)
  {
    SumWithout(b, k);
  }

  lemma EraseKeeps(b: Blocks, c: nat, k: string, g: nat, clock: nat, n: nat, ready: set<nat>, f: Fetches, o: set<nat>,
                   u: map<nat, string>)
    requires Consistent(b, c, clock, n, ready, f, o, u) && g in f && f[g] == Fetch(k, Fetching, None)
    ensures OwnEntry(b, k, g) ==> b[k].bytes <= c
    ensures Consistent(if OwnEntry(b, k, g) then b - {k} else b, if OwnEntry(b, k, g) then c - b[k].bytes else c,
                       clock, n, ready, f[g := Fetch(k, Dropped, None)], o, u)
  {
    var f' := f[g := Fetch(k, Dropped, None)];
    var b' := if OwnEntry(b, k, g) then b - {k} else b;
    if OwnEntry(b, k, g) {
      SumWithout(b, k);
    }
    assert EntriesOwned(b', f', n, clock);
    assert FlightsMapped(b', f', o);
  }

  // The same, with the futures.
  lemma CreditKeeps(b: Blocks, c: nat, k: string, g: nat, data: seq<Byte>, clock: nat, n: nat, futures: Futures,
                    f: Fetches, o: set<nat>, u: map<nat, string>)
    requires Consistent(b, c, clock, n, futures.Keys, f, o, u) && FuturesHold(futures, f)
    requires g in f && f[g] == Fetch(k, Fetching, None)
    ensures var f' := f[g := Fetch(k, Stored, Some(data))];
            && FuturesHold(futures, f')
            && Consistent(Accounted(b, k, g, |data|), if OwnEntry(b, k, g) then c + |data| else c, clock, n,
                          futures.Keys, f', o, u)
  {
    NotReadyYet(b, c, clock, n, futures.Keys, f, o, u, g);
    FuturesKeep(futures, f, g, Fetch(k, Stored, Some(data)));
    hide Consistent, FuturesHold;
    AccountKeeps(b, c, k, g, data, clock, n, futures.Keys, f, o, u);
  }

  lemma FailKeeps(b: Blocks, c: nat, k: string, g: nat, clock: nat, n: nat, futures: Futures, f: Fetches,
                  o: set<nat>, u: map<nat, string>)
    requires Consistent(b, c, clock, n, futures.Keys, f, o, u) && FuturesHold(futures, f)
    requires g in f && f[g] == Fetch(k, Fetching, None)
    ensures OwnEntry(b, k, g) ==> b[k].bytes <= c
    ensures var f' := f[g := Fetch(k, Dropped, None)];
            && FuturesHold(futures, f')
            && Consistent(if OwnEntry(b, k, g) then b - {k} else b, if OwnEntry(b, k, g) then c - b[k].bytes else c,
                          clock, n, futures.Keys, f', o, u)
  {
    NotReadyYet(b, c, clock, n, futures.Keys, f, o, u, g);
    FuturesKeep(futures, f, g, Fetch(k, Dropped, None));
    hide Consistent, FuturesHold;
    EraseKeeps(b, c, k, g, clock, n, futures.Keys, f, o, u);
  }

  lemma ResolveKeeps(b: Blocks, c: nat, g: nat, clock: nat, n: nat, futures: Futures, f: Fetches, o: set<nat>,
                     u: map<nat, string>)
    requires Consistent(b, c, clock, n, futures.Keys, f, o, u) && FuturesHold(futures, f)
    requires g in f && (f[g].phase == Stored || f[g].phase == Dropped)
    ensures var f', futures' := f[g := f[g].(phase := Resolved)], futures[g := f[g].data];
            Consistent(b, c, clock, n, futures'.Keys, f', o, u) && FuturesHold(futures', f')
  {
    var f', futures' := f[g := f[g].(phase := Resolved)], futures[g := f[g].data];
    forall k <- b ensures EntryOwned(b[k], k, f', clock) {
      assert EntryOwned(b[k], k, f, clock);
    }
    assert FlightsMapped(b, f', o) && ReadyIsResolved(f', futures'.Keys);
  }

  lemma DropAllKeeps(b: Blocks, c: nat, clock: nat, n: nat, ready: set<nat>, f: Fetches, o: set<nat>,
                     u: map<nat, string>)
    requires Consistent(b, c, clock, n, ready, f, o, u)
    ensures Consistent(map[], 0, clock, n, ready, f, o + Flights(f), u)
  {
  }

  lemma EvictOneMore(before: Blocks, b: Blocks, k: string, ready: set<nat>, mark: nat)
    requires EvictedFrom(before, b, ready, mark) && k in b && b[k].generation in ready
    requires forall j <- b :: b[j].generation in ready && j != k ==> b[k].usedAt < b[j].usedAt
    ensures EvictedFrom(before, b - {k}, ready, b[k].usedAt + 1)
  {
  }

  predicate OwnEntry(blocks: Blocks, key: string, generation: nat) {
    key in blocks && blocks[key].generation == generation
  }

  function Accounted(blocks: Blocks, key: string, generation: nat, size: nat): Blocks {
    if OwnEntry(blocks, key, generation) then blocks[key := blocks[key].(bytes := size)] else blocks
  }

  class GDriveBlockCache {
    var blocks: Blocks
    var capacityBytes: nat
    var cachedBytes: nat
    var clock: nat
    var nextGeneration: nat
    // The futures that are ready, by generation.
    var futures: Futures
    // Every fetch ever begun, as the thread that runs it knows it.
    var fetches: Fetches
    // Fetches that lost their entry while in flight, to Clear or to a zero
    // capacity.
    ghost var orphans: set<nat>
    // Who used the cache at each tick of the clock.
    ghost var users: map<nat, string>

    ghost predicate Valid()
      reads this
    {
      && Consistent(blocks, cachedBytes, clock, nextGeneration, futures.Keys, fetches, orphans, users)
      && FuturesHold(futures, fetches)
    }

    lemma ValidMeans()
      ensures Valid() <==>
        && Consistent(blocks, cachedBytes, clock, nextGeneration, futures.Keys, fetches, orphans, users)
        && FuturesHold(futures, fetches)
    {
    }

    constructor ()
      ensures Valid() && blocks == map[] && fetches == map[] && orphans == {} && capacityBytes == 0
    {
      blocks, capacityBytes, cachedBytes, clock, nextGeneration, futures := map[], 0, 0, 0, 0, map[];
      fetches, orphans, users := map[], {}, map[];
    }

    // No two fetches of one key are in flight together, unless Clear or a zero
    // capacity took the entry of one of them away.
    lemma OneFetchPerKey(g: nat, h: nat)
      requires Valid() && g in fetches && h in fetches && g != h
      requires InFlight(fetches[g]) && InFlight(fetches[h]) && fetches[g].key == fetches[h].key
      ensures g in orphans || h in orphans
    {
    }

    // The least recently used entry whose fetch is complete.
    method FindVictim() returns (victim: string, found: bool)
      requires Valid()
      ensures found <==> exists k :: k in blocks && blocks[k].generation in futures
      ensures found ==> victim in blocks && blocks[victim].generation in futures
      ensures found ==> forall k <- blocks :: blocks[k].generation in futures && k != victim ==>
        blocks[victim].usedAt < blocks[k].usedAt
    {
      assert DistinctUse(blocks, users, clock);
      hide Valid;
      victim, found := "", false;
      var todo := blocks.Keys;
      while todo != {}
        invariant todo <= blocks.Keys
        invariant found ==> victim in blocks && blocks[victim].generation in futures
        invariant found ==> forall k <- blocks.Keys - todo :: blocks[k].generation in futures && k != victim ==>
          blocks[victim].usedAt < blocks[k].usedAt
        invariant !found ==> forall k <- blocks.Keys - todo :: blocks[k].generation !in futures
        decreases todo
      {
        var k :| k in todo;
        todo := todo - {k};
        if blocks[k].generation in futures {
          if !found || blocks[k].usedAt < blocks[victim].usedAt {
            victim, found := k, true;
          }
        }
      }
    }

    // One turn of the loop below.
    method EvictOne(ghost before: Blocks, ghost mark: nat) returns (victim: string, found: bool, ghost mark': nat)
      requires Valid() && EvictedFrom(before, blocks, futures.Keys, mark)
      modifies `blocks, `cachedBytes
      ensures Valid() && EvictedFrom(before, blocks, futures.Keys, mark')
      ensures found ==> |blocks| < |old(blocks)| && victim in old(blocks) && victim !in blocks
      ensures found ==> cachedBytes + old(blocks)[victim].bytes == old(cachedBytes)
      ensures !found ==> blocks == old(blocks) && cachedBytes == old(cachedBytes)
      ensures !found ==> forall k <- blocks :: blocks[k].generation !in futures
    {
      hide Valid, Consistent, EvictedFrom, FuturesHold, InFlight;
      victim, found := FindVictim();
      ValidMeans();
      mark' := mark;
      if found {
        ReadyIsOver(blocks, cachedBytes, clock, nextGeneration, futures.Keys, fetches, orphans, users, victim);
        RemoveKeeps(blocks, cachedBytes, victim, clock, nextGeneration, futures.Keys, fetches, orphans, users);
        EvictOneMore(before, blocks, victim, futures.Keys, mark);
        mark' := blocks[victim].usedAt + 1;
        cachedBytes := cachedBytes - blocks[victim].bytes;
        blocks := blocks - {victim};
        ValidMeans();
      }
    }

    // Caller holds the lock. Ends at or below capacity, or with nothing left
    // that may be evicted; a zero capacity empties the cache.
    method EvictLocked() returns (ghost mark: nat, ghost last: string)
      requires Valid()
      modifies `blocks, `cachedBytes, `orphans
      ensures Valid()
      ensures capacityBytes == 0 ==> blocks == map[] && cachedBytes == 0 && orphans == old(orphans) + Flights(fetches)
      ensures capacityBytes > 0 ==>
        && EvictedFrom(old(blocks), blocks, futures.Keys, mark) && orphans == old(orphans)
        && (cachedBytes <= capacityBytes || forall k <- blocks :: blocks[k].generation !in futures)
        && StoppedInTime(old(blocks), blocks, cachedBytes, capacityBytes, last)
    {
      hide Valid, Consistent, FuturesHold;
      mark, last := 0, "";
      ValidMeans();
      if capacityBytes == 0 {
        DropAllKeeps(blocks, cachedBytes, clock, nextGeneration, futures.Keys, fetches, orphans, users);
        orphans := orphans + Flights(fetches);
        blocks, cachedBytes := map[], 0;
        ValidMeans();
        return;
      }
      while cachedBytes > capacityBytes
        invariant Valid() && orphans == old(orphans)
        invariant EvictedFrom(old(blocks), blocks, futures.Keys, mark)
        invariant StoppedInTime(old(blocks), blocks, cachedBytes, capacityBytes, last)
        decreases |blocks|
      {
        var victim, found;
        victim, found, mark := EvictOne(old(blocks), mark);
        if !found {
          return;
        }
        last := victim;
      }
    }

    method SetCapacity(bytes: nat) returns (ghost mark: nat, ghost last: string)
      requires Valid()
      modifies `capacityBytes, `blocks, `cachedBytes, `orphans
      ensures Valid() && capacityBytes == bytes
      ensures bytes == 0 ==> blocks == map[]
      ensures bytes > 0 ==>
        && EvictedFrom(old(blocks), blocks, futures.Keys, mark) && orphans == old(orphans)
        && (cachedBytes <= bytes || forall k <- blocks :: blocks[k].generation !in futures)
        && StoppedInTime(old(blocks), blocks, cachedBytes, bytes, last)
    {
      capacityBytes := bytes;
      mark, last := EvictLocked();
    }

    method Clear()
      requires Valid()
      modifies `blocks, `cachedBytes, `orphans
      ensures Valid() && blocks == map[] && cachedBytes == 0 && orphans == old(orphans) + Flights(fetches)
    {
      hide Valid, Consistent, FuturesHold;
      ValidMeans();
      DropAllKeeps(blocks, cachedBytes, clock, nextGeneration, futures.Keys, fetches, orphans, users);
      orphans := orphans + Flights(fetches);
      blocks, cachedBytes := map[], 0;
      ValidMeans();
    }

    method Touch(key: string)
      requires Valid() && key in blocks
      modifies `blocks, `clock, `users
      ensures Valid() && clock == old(clock) + 1
      ensures blocks == old(blocks)[key := old(blocks[key]).(usedAt := clock)]
    {
      hide Valid, Consistent, FuturesHold;
      ValidMeans();
      TouchKeeps(blocks, cachedBytes, key, clock, nextGeneration, futures.Keys, fetches, orphans, users);
      clock := clock + 1;
      users := users[clock := key];
      blocks := blocks[key := blocks[key].(usedAt := clock)];
      ValidMeans();
    }

    method Insert(key: string) returns (generation: nat)
      requires Valid() && key !in blocks
      modifies `blocks, `clock, `nextGeneration, `fetches, `users
      ensures Valid() && clock == old(clock) + 1 && generation !in old(fetches)
      ensures blocks == old(blocks)[key := Entry(0, clock, generation)]
      ensures fetches == old(fetches)[generation := Fetch(key, Fetching, None)]
    {
      hide Valid, Consistent, FuturesHold;
      ValidMeans();
      NewIsNotReady(blocks, cachedBytes, clock, nextGeneration, futures, fetches, orphans, users);
      var tick := clock + 1;
      generation := nextGeneration + 1;
      FuturesKeep(futures, fetches, generation, Fetch(key, Fetching, None));
      InsertKeeps(blocks, cachedBytes, key, clock, nextGeneration, futures.Keys, fetches, orphans, users, tick,
                  generation);
      blocks := blocks[key := Entry(0, tick, generation)];
      fetches := fetches[generation := Fetch(key, Fetching, None)];
      users := users[tick := key];
      clock, nextGeneration := tick, generation;
      ValidMeans();
    }

    // First region of GetBlock: join the fetch of a mapped block, or insert
    // the future and become the one who fetches.
    method Begin(key: string) returns (iFetch: bool, generation: nat)
      requires Valid()
      modifies `blocks, `clock, `nextGeneration, `fetches, `users
      ensures Valid() && key in blocks && blocks[key].generation == generation
      ensures blocks == old(blocks)[key := blocks[key]] && blocks[key].usedAt == clock > old(clock)
      ensures iFetch <==> key !in old(blocks)
      ensures !iFetch ==> fetches == old(fetches) && blocks[key] == old(blocks[key]).(usedAt := clock)
      ensures iFetch ==>
        generation !in old(fetches) && fetches == old(fetches)[generation := Fetch(key, Fetching, None)]
    {
      iFetch := key !in blocks;
      if iFetch {
        generation := Insert(key);
      } else {
        generation := blocks[key].generation;
        Touch(key);
      }
    }

    method Credit(key: string, generation: nat, data: seq<Byte>)
      requires Valid() && generation in fetches && fetches[generation] == Fetch(key, Fetching, None)
      modifies `blocks, `cachedBytes, `fetches
      ensures Valid() && fetches == old(fetches)[generation := Fetch(key, Stored, Some(data))]
      ensures blocks == Accounted(old(blocks), key, generation, |data|)
    {
      hide Valid, Consistent, FuturesHold;
      ValidMeans();
      CreditKeeps(blocks, cachedBytes, key, generation, data, clock, nextGeneration, futures, fetches, orphans, users);
      if key in blocks && blocks[key].generation == generation {
        blocks := blocks[key := blocks[key].(bytes := |data|)];
        cachedBytes := cachedBytes + |data|;
      }
      fetches := fetches[generation := Fetch(key, Stored, Some(data))];
      ValidMeans();
    }

    // The fetch succeeded: account its bytes to its own entry, if that is
    // still there, and evict. A newer generation under the key is not touched.
    method Account(key: string, generation: nat, data: seq<Byte>) returns (ghost mark: nat, ghost last: string)
      requires Valid() && generation in fetches && fetches[generation] == Fetch(key, Fetching, None)
      modifies `blocks, `cachedBytes, `fetches, `orphans
      ensures Valid() && fetches == old(fetches)[generation := Fetch(key, Stored, Some(data))]
      ensures capacityBytes == 0 ==> blocks == map[]
      ensures capacityBytes > 0 ==>
        && EvictedFrom(Accounted(old(blocks), key, generation, |data|), blocks, futures.Keys, mark)
        && orphans == old(orphans)
        && (cachedBytes <= capacityBytes || forall k <- blocks :: blocks[k].generation !in futures)
        && StoppedInTime(Accounted(old(blocks), key, generation, |data|), blocks, cachedBytes, capacityBytes, last)
    {
      hide Valid, Consistent, EvictedFrom, StoppedInTime, Accounted;
      Credit(key, generation, data);
      mark, last := EvictLocked();
    }

    // The fetch failed: erase its own entry, if that is still there.
    method Erase(key: string, generation: nat)
      requires Valid() && generation in fetches && fetches[generation] == Fetch(key, Fetching, None)
      modifies `blocks, `cachedBytes, `fetches
      ensures Valid() && fetches == old(fetches)[generation := Fetch(key, Dropped, None)]
      ensures blocks == if key in old(blocks) && old(blocks)[key].generation == generation
                        then old(blocks) - {key} else old(blocks)
    {
      hide Valid, Consistent, FuturesHold;
      ValidMeans();
      FailKeeps(blocks, cachedBytes, key, generation, clock, nextGeneration, futures, fetches, orphans, users);
      if key in blocks && blocks[key].generation == generation {
        cachedBytes := cachedBytes - blocks[key].bytes;
        blocks := blocks - {key};
      }
      fetches := fetches[generation := Fetch(key, Dropped, None)];
      ValidMeans();
    }

    // promise.set_value or set_exception: the future becomes ready, and only
    // now may the entry be evicted.
    method Resolve(generation: nat)
      requires Valid() && generation in fetches
      requires fetches[generation].phase == Stored || fetches[generation].phase == Dropped
      modifies `futures, `fetches
      ensures Valid() && futures == old(futures)[generation := old(fetches[generation].data)]
      ensures fetches == old(fetches)[generation := old(fetches[generation]).(phase := Resolved)]
    {
      hide Valid, Consistent, FuturesHold;
      ValidMeans();
      ResolveKeeps(blocks, cachedBytes, generation, clock, nextGeneration, futures, fetches, orphans, users);
      futures := futures[generation := fetches[generation].data];
      fetches := fetches[generation := fetches[generation].(phase := Resolved)];
      ValidMeans();
    }
  }
}
