// File metadata shared between the threads of one query, and never served to a
// query from before it began. Each method is one critical section; queries of
// other numbers may begin, on other threads, between any two.
module QueryMetadata {
  import opened Keys
  import opened PathCache

  type Tid = nat

  // ----- Keys -----

  function MetadataPrefix(key: CacheKey): string { key.Prefix("meta" + [SEP]) }

  function MetadataKey(key: CacheKey, fileId: string): string { key.Prefix(Fields("meta", fileId)) }

  lemma PrefixAndRest(key: CacheKey, rest: string)
    ensures MetadataPrefix(key) + rest == MetadataKey(key, rest)
  {
    PrefixExtends(key, "meta" + [SEP]);
    PrefixExtends(key, Fields("meta", rest));
    assert Fields("meta", rest) == "meta" + [SEP] + rest;
    assert key.Prefix("") + ("meta" + [SEP]) + rest == key.Prefix("") + ("meta" + [SEP] + rest);
  }

  // Dropping by prefix drops the metadata of one identity, whichever files it
  // is of, and of no other.
  lemma PrefixIsIdentity(key: CacheKey, other: CacheKey, fileId: string, separators: nat)
    requires WellBuilt(key, separators) && WellBuilt(other, separators)
    ensures MetadataPrefix(key) <= MetadataKey(other, fileId) <==> SameIdentity(key, other)
  {
    var stored := MetadataKey(other, fileId);
    if MetadataPrefix(key) <= stored {
      var rest := stored[|MetadataPrefix(key)|..];
      PrefixAndRest(key, rest);
      var a, b := key.(canonicalPath := Fields("meta", rest)), other.(canonicalPath := Fields("meta", fileId));
      assert a.ToString() == stored == b.ToString();
      ToStringIsInjective(a, b, separators);
    }
    if SameIdentity(key, other) {
      PrefixAndRest(other, fileId);
      assert MetadataPrefix(key) == MetadataPrefix(other);
    }
  }

  // ----- The cache -----

  // A fetch: of what, and when it was started.
  datatype Fetch = Fetch(key: string, startedAt: nat)

  datatype Answer = Uncached | Share(fetch: nat) | Start(fetch: nat)

  // When each query was first heard of, when the generation last changed, which
  // query each thread serves, and when what begins with a prefix was last dropped.
  datatype Clock = Clock(now: nat, begun: map<nat, nat>, changedAt: nat, own: map<Tid, nat>, dropped: map<string, nat>)

  ghost predicate EntryOk(entries: map<string, nat>, fetches: seq<Fetch>, changedAt: nat, key: string)
    requires key in entries
  {
    entries[key] < |fetches| && fetches[entries[key]].key == key && fetches[entries[key]].startedAt >= changedAt
  }

  ghost predicate OwnOk(clock: Clock, tid: Tid)
    requires tid in clock.own
  {
    clock.own[tid] in clock.begun && clock.begun[clock.own[tid]] <= clock.changedAt
  }

  // Nothing cached under a prefix was asked for before that prefix was dropped.
  ghost predicate SinceDrop(entries: map<string, nat>, fetches: seq<Fetch>, clock: Clock, prefix: string)
    requires prefix in clock.dropped
  {
    forall key <- entries :: prefix <= key ==>
      entries[key] < |fetches| && fetches[entries[key]].startedAt >= clock.dropped[prefix]
  }

  // All that is cached was asked for since the generation last changed, which
  // is since the query of every thread began.
  ghost predicate Scoped(generation: nat, entries: map<string, nat>, fetches: seq<Fetch>, clock: Clock) {
    && (forall prefix <- clock.dropped ::
          clock.dropped[prefix] <= clock.now && SinceDrop(entries, fetches, clock, prefix))
    && clock.changedAt <= clock.now
    && (generation == 0 ==> entries == map[])
    && generation in clock.begun && clock.begun[generation] <= clock.changedAt
    && (forall q <- clock.begun :: clock.begun[q] <= clock.now)
    && (forall key <- entries :: EntryOk(entries, fetches, clock.changedAt, key))
    && (forall tid <- clock.own :: OwnOk(clock, tid))
  }

  lemma FewerIsScoped(generation: nat, entries: map<string, nat>, fewer: map<string, nat>, fetches: seq<Fetch>,
                      clock: Clock)
    requires Scoped(generation, entries, fetches, clock)
    requires forall key <- fewer :: key in entries && fewer[key] == entries[key]
    ensures Scoped(generation, fewer, fetches, clock)
  {
    forall key <- fewer ensures EntryOk(fewer, fetches, clock.changedAt, key) {
      assert EntryOk(entries, fetches, clock.changedAt, key);
    }
    forall prefix <- clock.dropped ensures SinceDrop(fewer, fetches, clock, prefix) {
      assert SinceDrop(entries, fetches, clock, prefix);
    }
  }

  lemma DroppedIsScoped(generation: nat, entries: map<string, nat>, fetches: seq<Fetch>, clock: Clock, prefix: string)
    requires Scoped(generation, entries, fetches, clock) && forall key <- entries :: !(prefix <= key)
    ensures Scoped(generation, entries, fetches, AfterDrop(clock, prefix))
  {
    var after := AfterDrop(clock, prefix);
    forall p <- after.dropped ensures SinceDrop(entries, fetches, after, p) {
      if p != prefix {
        assert SinceDrop(entries, fetches, clock, p);
      }
    }
    forall tid <- after.own ensures OwnOk(after, tid) {
      assert OwnOk(clock, tid);
    }
  }

  ghost function AfterDrop(clock: Clock, prefix: string): Clock {
    clock.(now := clock.now + 1, dropped := clock.dropped[prefix := clock.now + 1])
  }

  class QueryCache {
    var generation: nat
    var entries: map<string, nat>
    ghost var fetches: seq<Fetch>
    ghost var clock: Clock

    ghost predicate Valid()
      reads this
    {
      Scoped(generation, entries, fetches, clock)
    }

    constructor ()
      ensures Valid() && generation == 0 && entries == map[]
    {
      generation, entries, fetches, clock := 0, map[], [], Clock(0, map[0 := 0], 0, map[], map[]);
    }

    // A new query revalidates: whatever was cached for another is dropped.
    method BeginQuery(ghost tid: Tid, q: nat)
      requires Valid()
      modifies `generation, `entries, `clock
      ensures Valid() && generation == q && clock.own == old(clock.own)[tid := q]
      ensures entries == if q == old(generation) then old(entries) else map[]
      ensures forall other <- old(clock.begun) :: other in clock.begun && clock.begun[other] == old(clock.begun)[other]
      ensures q !in old(clock.begun) ==> clock.begun[q] > old(clock.now)
      ensures clock.dropped == old(clock.dropped)
    {
      ghost var now := clock.now + 1;
      ghost var begun := if q in clock.begun then clock.begun else clock.begun[q := now];
      clock := Clock(now, begun, if q == generation then clock.changedAt else now, clock.own[tid := q], clock.dropped);
      if q != generation {
        entries := map[];
        generation := q;
      }
    }

    // Shares the fetch under way or done for this key, or starts one and lets
    // others share it. What is shared was asked for since this thread's query
    // began, whichever query's thread asked. `next` names the new fetch.
    method GetOrStart(ghost tid: Tid, key: string, next: nat) returns (answer: Answer)
      requires Valid() && tid in clock.own && next == |fetches|
      modifies `entries, `fetches, `clock
      ensures Valid() && generation == old(generation) && clock.own == old(clock.own) && clock.begun == old(clock.begun)
      ensures answer.Uncached? <==> generation == 0
      ensures answer.Share? ==> answer.fetch < |fetches| && fetches[answer.fetch].key == key
      ensures answer.Share? ==> fetches[answer.fetch].startedAt >= clock.begun[clock.own[tid]]
      ensures answer.Share? ==> forall prefix <- clock.dropped :: prefix <= key ==>
        fetches[answer.fetch].startedAt >= clock.dropped[prefix]
      ensures clock.dropped == old(clock.dropped)
      ensures answer.Share? <==> generation != 0 && key in old(entries)
      ensures answer.Start? ==> fetches == old(fetches) + [Fetch(key, clock.now)] && answer.fetch == |old(fetches)|
      ensures !answer.Start? ==> fetches == old(fetches) && entries == old(entries)
      ensures answer.Start? ==> entries == old(entries)[key := answer.fetch]
    {
      clock := clock.(now := clock.now + 1);
      assert forall t <- clock.own :: OwnOk(old(clock), t) && OwnOk(clock, t);
      if generation == 0 {
        answer := Uncached;
      } else if key in entries {
        assert EntryOk(entries, fetches, clock.changedAt, key);
        assert forall p <- clock.dropped :: SinceDrop(entries, fetches, clock, p);
        answer := Share(entries[key]);
      } else {
        entries := entries[key := next];
        fetches := fetches + [Fetch(key, clock.now)];
        assert forall k <- old(entries) :: EntryOk(old(entries), old(fetches), old(clock).changedAt, k);
        answer := Start(next);
      }
    }

    // A fetch that finds nothing, or fails, leaves nothing behind. It erases
    // the entry of its key, even one put there since for a later query:
    // that costs a second fetch and never serves anything older.
    method Forget(key: string)
      requires Valid()
      modifies `entries
      ensures Valid() && entries == old(entries) - {key}
    {
      hide Scoped;
      FewerIsScoped(generation, entries, entries - {key}, fetches, clock);
      entries := entries - {key};
    }

    // A mutation by path does not know which files it touches, so it drops the
    // metadata of its whole identity. A fetch in flight goes on, for those who
    // share it already; whoever asks from now on starts another.
    method InvalidateIdentity(key: CacheKey)
      requires Valid()
      modifies `entries, `clock
      ensures Valid() && generation == old(generation) && clock.own == old(clock.own) && clock.begun == old(clock.begun)
      ensures entries == map k <- old(entries) | !(MetadataPrefix(key) <= k) :: old(entries)[k]
      ensures clock.dropped == old(clock.dropped)[MetadataPrefix(key) := clock.now] && clock.now > old(clock.now)
    {
      hide Scoped;
      var prefix := MetadataPrefix(key);
      ghost var before := entries;
      entries := map k <- entries | !(prefix <= k) :: entries[k];
      FewerIsScoped(generation, before, entries, fetches, clock);
      DroppedIsScoped(generation, entries, fetches, clock, prefix);
      clock := AfterDrop(clock, prefix);
    }
  }
}
