// The path cache: a map with use times that behaves as a bounded recency list,
// and its keys.
module PathCache {
  import opened Keys
  import opened Options
  import opened Paths

  // ----- Keys -----

  datatype CacheKey = CacheKey(identity: string, driveId: string, rootFolderId: string, canonicalPath: string)
  {
    function Prefix(path: string): string { Fields(identity, Fields(driveId, Fields(rootFolderId, path))) }

    function ToString(): string { Prefix(canonicalPath) }
  }

  // How keys are built: identities all hold the same number of separators
  // (provider, name and hash), drive and folder ids none.
  ghost predicate WellBuilt(key: CacheKey, separators: nat) {
    Count(key.identity) == separators && Count(key.driveId) == 0 && Count(key.rootFolderId) == 0
  }

  lemma ToStringIsInjective(a: CacheKey, b: CacheKey, separators: nat)
    requires WellBuilt(a, separators) && WellBuilt(b, separators) && a.ToString() == b.ToString()
    ensures a == b
  {
    var x, y := Fields(a.rootFolderId, a.canonicalPath), Fields(b.rootFolderId, b.canonicalPath);
    FieldsAreInjective(a.identity, Fields(a.driveId, x), b.identity, Fields(b.driveId, y));
    FieldsAreInjective(a.driveId, x, b.driveId, y);
    FieldsAreInjective(a.rootFolderId, a.canonicalPath, b.rootFolderId, b.canonicalPath);
  }

  predicate SameIdentity(a: CacheKey, b: CacheKey) {
    a.identity == b.identity && a.driveId == b.driveId && a.rootFolderId == b.rootFolderId
  }

  // The test InvalidatePrefix makes on a stored key.
  predicate IsHit(stored: string, key: CacheKey) {
    key.Prefix("") <= stored && (stored == key.ToString() || key.ToString() + "/" <= stored)
  }

  lemma PrefixExtends(key: CacheKey, path: string)
    ensures key.Prefix("") + path == key.Prefix(path)
  {
  }

  // Within one identity the test means: the path itself, or text below it.
  lemma OwnHitMeans(other: CacheKey, key: CacheKey)
    requires SameIdentity(other, key)
    ensures IsHit(other.ToString(), key) <==>
      other.canonicalPath == key.canonicalPath || key.canonicalPath + "/" <= other.canonicalPath
  {
    var p := key.Prefix("");
    PrefixExtends(key, key.canonicalPath);
    PrefixExtends(key, key.canonicalPath + "/");
    PrefixExtends(other, other.canonicalPath);
    assert p + key.canonicalPath + "/" == p + (key.canonicalPath + "/");
    PlusPrefix(p, key.canonicalPath + "/", other.canonicalPath);
    PlusSame(p, key.canonicalPath, other.canonicalPath);
  }

  lemma PlusPrefix(p: string, a: string, b: string)
    ensures p + a <= p + b <==> a <= b
  {
    assert (p + b)[|p|..] == b && (p + a)[|p|..] == a;
    if p + a <= p + b {
      assert b[..|a|] == (p + b)[|p|..|p| + |a|] == a;
    }
  }

  lemma PlusSame(p: string, a: string, b: string)
    ensures p + a == p + b <==> a == b
  {
    assert (p + b)[|p|..] == b && (p + a)[|p|..] == a;
  }

  // Across identities it never hits.
  lemma HitMeans(other: CacheKey, key: CacheKey, separators: nat)
    requires WellBuilt(other, separators) && WellBuilt(key, separators)
    ensures IsHit(other.ToString(), key) <==>
      && SameIdentity(other, key)
      && (other.canonicalPath == key.canonicalPath || key.canonicalPath + "/" <= other.canonicalPath)
  {
    var stored := other.ToString();
    if key.Prefix("") <= stored {
      var rest := stored[|key.Prefix("")|..];
      PrefixExtends(key, rest);
      ToStringIsInjective(other, key.(canonicalPath := rest), separators);
    }
    if SameIdentity(other, key) {
      OwnHitMeans(other, key);
    }
  }

  // For paths made of segments: exactly the identity's entries at the path or
  // below it.
  lemma InvalidationIsExact(other: CacheKey, key: CacheKey, separators: nat, a: seq<string>, b: seq<string>)
    requires WellBuilt(other, separators) && WellBuilt(key, separators)
    requires AllNoSlash(a) && AllNoSlash(b) && a != [] && b != []
    requires other.canonicalPath == Join(a) && key.canonicalPath == Join(b)
    ensures IsHit(other.ToString(), key) <==> SameIdentity(other, key) && b <= a
  {
    HitMeans(other, key, separators);
    AtOrBelow(a, b);
  }

  lemma AtOrBelow(a: seq<string>, b: seq<string>)
    requires AllNoSlash(a) && AllNoSlash(b) && a != [] && b != []
    ensures Join(a) == Join(b) || Join(b) + "/" <= Join(a) <==> b <= a
  {
    PrefixInText(b, a);
    assert b <= a <==> b == a || b < a;
    if Join(a) == Join(b) {
      JoinIsInjective(a, b);
    }
  }

  // At the root it is not: nothing below the root goes, since no path of real
  // segments starts with a slash.
  lemma RootInvalidationMissesAll(other: CacheKey, key: CacheKey, separators: nat, a: seq<string>)
    requires WellBuilt(other, separators) && WellBuilt(key, separators)
    requires AllNoSlash(a) && a != [] && a[0] != "" && other.canonicalPath == Join(a)
    requires key.canonicalPath == ""
    ensures !IsHit(other.ToString(), key)
  {
    HitMeans(other, key, separators);
    assert Join(a)[0] == a[0][0];
    assert a[0][0] in a[0];
  }

  // ----- The recency list -----

  datatype PathEntry<V> = PathEntry(meta: V, usedAt: nat)

  function Without(list: seq<string>, k: string): seq<string> {
    if list == [] then []
    else if list[0] == k then Without(list[1..], k)
    else [list[0]] + Without(list[1..], k)
  }

  function ToFront(list: seq<string>, k: string): seq<string> { [k] + Without(list, k) }

  function Truncate(list: seq<string>, max: nat): seq<string> {
    if max == 0 || |list| <= max then list else list[..max]
  }

  function Keeping(list: seq<string>, gone: set<string>): seq<string> {
    if list == [] then []
    else if list[0] in gone then Keeping(list[1..], gone)
    else [list[0]] + Keeping(list[1..], gone)
  }

  // Most recent first: the list holds the keys, in order of their last use.
  ghost predicate Listed<V>(list: seq<string>, entries: map<string, PathEntry<V>>, top: nat)
    decreases |list|
  {
    if list == [] then entries == map[]
    else
      && list[0] in entries && entries[list[0]].usedAt <= top && entries[list[0]].usedAt > 0
      && Listed(list[1..], entries - {list[0]}, entries[list[0]].usedAt - 1)
  }

  lemma {:induction false} ListedFacts<V>(list: seq<string>, entries: map<string, PathEntry<V>>, top: nat)
    requires Listed(list, entries, top)
    ensures |list| == |entries|
    ensures forall k :: k in list <==> k in entries
    ensures forall k <- entries :: entries[k].usedAt <= top
    decreases |list|
  {
    if list != [] {
      var k := list[0];
      ListedFacts(list[1..], entries - {k}, entries[k].usedAt - 1);
      assert forall j :: j in list <==> j == k || j in list[1..];
      assert entries.Keys == (entries - {k}).Keys + {k};
      assert |entries.Keys| == |entries| && |(entries - {k}).Keys| == |entries - {k}|;
    }
  }

  lemma {:induction false} ListedLater<V>(list: seq<string>, entries: map<string, PathEntry<V>>, top: nat, later: nat)
    requires Listed(list, entries, top) && top <= later
    ensures Listed(list, entries, later)
  {
  }

  // Removing one key keeps the order of the others.
  lemma {:induction false} ListedWithout<V>(list: seq<string>, entries: map<string, PathEntry<V>>, top: nat, k: string)
    requires Listed(list, entries, top)
    ensures Listed(Without(list, k), entries - {k}, top)
    decreases |list|
  {
    if list != [] {
      var first := list[0];
      var rest, used := entries - {first}, entries[first].usedAt;
      ListedWithout(list[1..], rest, used - 1, k);
      if first == k {
        assert rest - {k} == entries - {k};
        ListedLater(Without(list[1..], k), rest - {k}, used - 1, top);
      } else {
        assert rest - {k} == (entries - {k}) - {first};
        assert Without(list, k)[1..] == Without(list[1..], k);
      }
    }
  }

  lemma ListedToFront<V>(list: seq<string>, entries: map<string, PathEntry<V>>, clock: nat, k: string, e: PathEntry<V>)
    requires Listed(list, entries, clock) && e.usedAt == clock + 1
    ensures Listed(ToFront(list, k), entries[k := e], clock + 1)
  {
    ListedWithout(list, entries, clock, k);
    assert entries[k := e] - {k} == entries - {k};
    assert ToFront(list, k)[1..] == Without(list, k);
  }

  lemma ListedUnfolds<V>(list: seq<string>, entries: map<string, PathEntry<V>>, top: nat)
    requires list != []
    ensures Listed(list, entries, top) <==>
      && list[0] in entries && 0 < entries[list[0]].usedAt <= top
      && Listed(list[1..], entries - {list[0]}, entries[list[0]].usedAt - 1)
  {
  }

  lemma FirstIsNotOldest<V>(list: seq<string>, entries: map<string, PathEntry<V>>, top: nat)
    requires Listed(list, entries, top) && |list| > 1
    ensures exists j <- entries :: entries[j].usedAt < entries[list[0]].usedAt
  {
    var next := list[1..][0];
    assert next in entries && entries[next].usedAt < entries[list[0]].usedAt;
  }

  lemma LastOfRest(list: seq<string>)
    requires |list| > 1
    ensures var n := |list| - 1;
            list[1..][..n - 1] == list[..n][1..] && list[1..][n - 1] == list[n] && list[..n][0] == list[0]
  {
  }

  // The entry used longest ago is the last of the list.
  lemma {:induction false} OldestIsLast<V>(list: seq<string>, entries: map<string, PathEntry<V>>, top: nat, k: string)
    requires Listed(list, entries, top) && k in entries
    requires forall j <- entries :: entries[k].usedAt <= entries[j].usedAt
    ensures list != [] && list[|list| - 1] == k && Listed(list[..|list| - 1], entries - {k}, top)
    decreases |list|
  {
    ListedFacts(list, entries, top);
    ListedUnfolds(list, entries, top);
    var first, n := list[0], |list| - 1;
    var rest, used := entries - {first}, entries[first].usedAt;
    if n == 0 {
      assert list[1..] == list[..n];
      ListedLater(list[..n], rest, used - 1, top);
    } else {
      FirstIsNotOldest(list, entries, top);
      hide Listed;
      OldestIsLast(list[1..], rest, used - 1, k);
      LastOfRest(list);
      assert rest - {k} == (entries - {k}) - {first};
      ListedUnfolds(list[..n], entries - {k}, top);
    }
  }

  lemma {:induction false} ListedKeeping<V>(list: seq<string>, entries: map<string, PathEntry<V>>, top: nat,
                                            gone: set<string>)
    requires Listed(list, entries, top)
    ensures Listed(Keeping(list, gone), entries - gone, top)
    decreases |list|
  {
    if list == [] {
      assert entries - gone == map[];
    } else {
      var first := list[0];
      var rest, used := entries - {first}, entries[first].usedAt;
      ListedKeeping(list[1..], rest, used - 1, gone);
      if first in gone {
        assert rest - gone == entries - gone;
        ListedLater(Keeping(list[1..], gone), rest - gone, used - 1, top);
      } else {
        assert rest - gone == (entries - gone) - {first};
        assert Keeping(list, gone)[1..] == Keeping(list[1..], gone);
      }
    }
  }

  // ----- The cache -----

  class GDrivePathCache<V(==)> {
    var entries: map<string, PathEntry<V>>
    var maxEntries: nat
    var pathClock: nat
    ghost var recency: seq<string>

    ghost predicate Valid()
      reads this
    {
      Listed(recency, entries, pathClock)
    }

    constructor ()
      ensures Valid() && entries == map[] && recency == [] && maxEntries == 0
    {
      entries, maxEntries, pathClock, recency := map[], 0, 0, [];
    }

    method Oldest() returns (victim: string)
      requires entries != map[]
      ensures victim in entries && forall k <- entries :: entries[victim].usedAt <= entries[k].usedAt
    {
      victim :| victim in entries;
      var todo := entries.Keys;
      while todo != {}
        invariant todo <= entries.Keys && victim in entries
        invariant forall k <- entries.Keys - todo :: entries[victim].usedAt <= entries[k].usedAt
        decreases todo
      {
        var k :| k in todo;
        todo := todo - {k};
        if entries[k].usedAt < entries[victim].usedAt {
          victim := k;
        }
      }
    }

    // One turn of the loop below: the entry used longest ago goes.
    method EvictOldest()
      requires Valid() && entries != map[]
      modifies `entries, `recency
      ensures Valid() && old(recency) != [] && recency == old(recency)[..|old(recency)| - 1]
      ensures |entries| == |recency| && forall k <- entries :: k in old(entries) && entries[k] == old(entries)[k]
    {
      hide Listed;
      var victim := Oldest();
      OldestIsLast(recency, entries, pathClock, victim);
      entries := entries - {victim};
      recency := recency[..|recency| - 1];
      ListedFacts(recency, entries, pathClock);
    }

    method EvictPathsLocked()
      requires Valid()
      modifies `entries, `recency
      ensures Valid() && recency == Truncate(old(recency), maxEntries)
      ensures forall k <- entries :: k in old(entries) && entries[k] == old(entries)[k]
      ensures maxEntries == 0 || |old(entries)| <= maxEntries ==> entries == old(entries)
    {
      ListedFacts(recency, entries, pathClock);
      hide Valid;
      if maxEntries == 0 {
        return;
      }
      while |entries| > maxEntries
        invariant Valid() && |recency| == |entries|
        invariant |recency| <= |old(recency)| && recency == old(recency)[..|recency|]
        invariant |recency| == |old(recency)| || |recency| >= maxEntries
        invariant |old(entries)| <= maxEntries ==> entries == old(entries)
        invariant forall k <- entries :: k in old(entries) && entries[k] == old(entries)[k]
        decreases |entries|
      {
        EvictOldest();
      }
    }

    method SetMaxEntries(max: nat)
      requires Valid()
      modifies `entries, `recency, `maxEntries
      ensures Valid() && maxEntries == max && recency == Truncate(old(recency), max)
      ensures forall k <- entries :: k in old(entries) && entries[k] == old(entries)[k]
    {
      maxEntries := max;
      EvictPathsLocked();
    }

    // A hit moves the entry to the front.
    method TryGet(key: CacheKey) returns (hit: Option<V>)
      requires Valid()
      modifies `entries, `pathClock, `recency
      ensures Valid()
      ensures hit.None? <==> key.ToString() !in old(entries)
      ensures hit.Some? ==>
        hit.value == old(entries)[key.ToString()].meta && recency == ToFront(old(recency), key.ToString())
      ensures hit.None? ==> entries == old(entries) && recency == old(recency)
      ensures entries.Keys == old(entries.Keys) && forall k <- entries :: entries[k].meta == old(entries)[k].meta
    {
      var k := key.ToString();
      if k !in entries {
        return None;
      }
      pathClock := pathClock + 1;
      ListedToFront(recency, entries, pathClock - 1, k, entries[k].(usedAt := pathClock));
      recency := ToFront(recency, k);
      entries := entries[k := entries[k].(usedAt := pathClock)];
      return Some(entries[k].meta);
    }

    // Stores at the front, dropping from the back what no longer fits.
    method Put(key: CacheKey, meta: V)
      requires Valid()
      modifies `entries, `pathClock, `recency
      ensures Valid() && recency == Truncate(ToFront(old(recency), key.ToString()), maxEntries)
      ensures key.ToString() in entries && entries[key.ToString()].meta == meta
      ensures forall k <- entries :: k != key.ToString() ==> k in old(entries) && entries[k] == old(entries)[k]
      ensures |entries| <= |old(entries)| + 1
      ensures maxEntries == 0 || |old(entries)| < maxEntries ==> entries.Keys == old(entries).Keys + {key.ToString()}
    {
      var k := key.ToString();
      pathClock := pathClock + 1;
      ListedToFront(recency, entries, pathClock - 1, k, PathEntry(meta, pathClock));
      recency := ToFront(recency, k);
      entries := entries[k := PathEntry(meta, pathClock)];
      assert entries.Keys == old(entries).Keys + {k} && |entries.Keys| <= |old(entries).Keys| + 1;
      ghost var all := entries;
      EvictPathsLocked();
      FewerMembers(entries.Keys, all.Keys);
      ListedFacts(recency, entries, pathClock);
      assert recency[0] == k;
    }

    // Drops the entries the test hits, in place and in order.
    method InvalidatePrefix(key: CacheKey)
      requires Valid()
      modifies `entries, `recency
      ensures Valid()
      ensures entries == map k <- old(entries) | !IsHit(k, key) :: old(entries)[k]
      ensures recency == Keeping(old(recency), set k <- old(entries) | IsHit(k, key))
    {
      ghost var before := entries;
      var todo := entries.Keys;
      while todo != {}
        invariant todo <= before.Keys
        invariant entries == map k <- before | k in todo || !IsHit(k, key) :: before[k]
        invariant recency == old(recency)
        decreases todo
      {
        var k :| k in todo;
        todo := todo - {k};
        if IsHit(k, key) {
          entries := entries - {k};
        }
      }
      ghost var gone := set k <- before | IsHit(k, key);
      assert entries == before - gone;
      ListedKeeping(recency, before, pathClock, gone);
      recency := Keeping(recency, gone);
    }
  }
}
