// One glob pattern: what it finds, and what it leaves in the path cache.
module GlobMatches {
  import opened DriveTree
  import opened GlobListing
  import opened GlobPath
  import opened Naming
  import opened PathCache
  import opened Paths
  import opened Resolve

  // ----- Repeated names -----

  function Count(listing: seq<Entry>, rel: string): nat {
    if listing == [] then 0
    else
      var n := |listing| - 1;
      Count(listing[..n], rel) + if listing[n].rel == rel then 1 else 0
  }

  lemma {:induction false} CountedOnce(listing: seq<Entry>, e: Entry, f: Entry)
    requires e in listing
    ensures Count(listing, e.rel) >= 1
    ensures Count(listing, e.rel) == 1 && f in listing && f.rel == e.rel ==> f == e
    decreases |listing|
  {
    var n := |listing| - 1;
    assert listing == listing[..n] + [listing[n]];
    if e in listing[..n] {
      CountedOnce(listing[..n], e, f);
    }
    if f in listing[..n] {
      CountedOnce(listing[..n], f, e);
    }
  }

  ghost predicate Counts(listing: seq<Entry>, counts: map<string, nat>) {
    forall rel: string ::
      && (rel in counts <==> Count(listing, rel) > 0)
      && (rel in counts ==> counts[rel] == Count(listing, rel))
  }

  method CountRels(listing: seq<Entry>) returns (counts: map<string, nat>)
    ensures Counts(listing, counts)
  {
    counts := map[];
    for i := 0 to |listing|
      invariant Counts(listing[..i], counts)
    {
      var rel := listing[i].rel;
      assert listing[..i + 1][..i] == listing[..i];
      counts := counts[rel := (if rel in counts then counts[rel] else 0) + 1];
    }
    assert listing[..|listing|] == listing;
  }

  predicate IsUnder(rel: string, ambiguous: string) {
    |rel| > |ambiguous| && rel[..|ambiguous|] == ambiguous && rel[|ambiguous|] == '/'
  }

  method UnderAmbiguous(counts: map<string, nat>, rel: string) returns (under: bool)
    ensures under <==> exists a <- counts :: counts[a] != 1 && IsUnder(rel, a)
  {
    var todo := counts.Keys;
    while todo != {}
      invariant todo <= counts.Keys
      invariant forall a <- counts.Keys - todo :: counts[a] == 1 || !IsUnder(rel, a)
      decreases todo
    {
      var a :| a in todo;
      if counts[a] != 1 && IsUnder(rel, a) {
        return true;
      }
      todo := todo - {a};
    }
    under := false;
  }

  // Neither the relative path nor any folder on it is listed twice.
  ghost predicate Clear(listing: seq<Entry>, rel: seq<string>) {
    forall k :: 0 < k <= |rel| ==> Count(listing, Join(rel[..k])) == 1
  }

  ghost predicate Single(listing: seq<Entry>, rel: string) {
    && Count(listing, rel) == 1
    && forall a: string :: Count(listing, a) > 1 ==> !IsUnder(rel, a)
  }

  lemma SingleIsClear(t: Tree, root: Id, folder: Id, recursive: bool, listing: seq<Entry>, rel: seq<string>, e: Entry)
    requires IsTree(t, root) && Full(t, folder, [], recursive, listing)
    requires IsEntry(t, folder, [], recursive, rel, e) && Single(listing, e.rel)
    ensures Clear(listing, rel)
  {
    NamesIsPath(t, root, folder, rel, e.meta.id);
    assert [] + rel == rel;
    forall k | 0 < k <= |rel| ensures Count(listing, Join(rel[..k])) == 1 {
      if k == |rel| {
        assert rel[..k] == rel;
      } else {
        var part, middle := rel[..k], Above(t, folder, rel, e.meta.id, k);
        assert [] + part == part && InDepth(part, recursive) && Names(t, folder, part, middle);
        CountedOnce(listing, Entry(Join(part), MetaOf(t, middle)), e);
        PrefixInText(part, rel);
        assert IsUnder(e.rel, Join(part));
      }
    }
  }

  lemma OnlyOneOfTheName(t: Tree, folder: Id, recursive: bool, listing: seq<Entry>, rel: seq<string>, id: Id)
    requires Full(t, folder, [], recursive, listing) && Clear(listing, rel)
    requires InDepth(rel, recursive) && Names(t, folder, rel, id)
    ensures Pick(t, t[id].parent, rel[|rel| - 1], false) == Found(MetaOf(t, id))
  {
    var n := |rel| - 1;
    var siblings := Named(t, t[id].parent, rel[n], false);
    assert [] + rel == rel && rel[..|rel|] == rel;
    forall x <- siblings ensures x == id {
      assert Names(t, folder, rel, x);
      CountedOnce(listing, Entry(Join(rel), MetaOf(t, id)), Entry(Join(rel), MetaOf(t, x)));
    }
    assert siblings == {id};
    PickIs(t, t[id].parent, rel[n], false, id);
  }

  // A clear entry is what the walk finds.
  lemma {:induction false} ClearIsFound(t: Tree, root: Id, prefix: seq<string>, folder: Id, recursive: bool,
                                        listing: seq<Entry>, rel: seq<string>, id: Id)
    requires IsTree(t, root) && Full(t, folder, [], recursive, listing) && Clear(listing, rel)
    requires WalkFolder(t, root, prefix).Found? && WalkFolder(t, root, prefix).meta.id == folder
    requires InDepth(rel, recursive) && Names(t, folder, rel, id)
    ensures WalkLeaf(t, root, prefix + rel) == Found(MetaOf(t, id))
    decreases |rel|
  {
    var n := |rel| - 1;
    var front, parent, path := rel[..n], t[id].parent, prefix + rel;
    assert path[..|path| - 1] == prefix + front && path[|path| - 1] == rel[n];
    if n == 0 {
      assert prefix + front == prefix;
    } else {
      assert forall k :: 0 < k <= n ==> front[..k] == rel[..k];
      ClearIsFound(t, root, prefix, folder, recursive, listing, front, parent);
      FolderOrLeaf(t, root, prefix + front);
    }
    OnlyOneOfTheName(t, folder, recursive, listing, rel, id);
  }

  function FullPath(prefix: string, rel: string): string {
    if prefix == "" then rel else prefix + "/" + rel
  }

  lemma JoinFull(prefix: seq<string>, rel: seq<string>)
    requires IsPath(prefix) && rel != []
    ensures Join(prefix + rel) == FullPath(Join(prefix), Join(rel))
  {
    if prefix == [] {
      assert prefix + rel == rel;
    } else {
      JoinAppend(prefix, rel);
      assert IsSegment(prefix[0]);
    }
  }

  // The folder a listing started from, as the walk knows it.
  ghost predicate ListedFrom(t: Tree, root: Id, prefix: seq<string>, folder: Id, recursive: bool, listing: seq<Entry>) {
    && Sound(t, folder, [], recursive, listing) && Full(t, folder, [], recursive, listing) && Once(listing)
    && (listing == [] || (WalkFolder(t, root, prefix).Found? && WalkFolder(t, root, prefix).meta.id == folder))
  }

  lemma SingleIsRight(t: Tree, root: Id, prefix: seq<string>, folder: Id, recursive: bool, listing: seq<Entry>,
                      e: Entry)
    returns (path: seq<string>)
    requires IsTree(t, root) && IsPath(prefix) && ListedFrom(t, root, prefix, folder, recursive, listing)
    requires e in listing && Single(listing, e.rel)
    ensures IsPath(path) && path != [] && Join(path) == FullPath(Join(prefix), e.rel) && Right(t, root, path, e.meta)
  {
    var rel :| IsEntry(t, folder, [], recursive, rel, e);
    assert [] + rel == rel;
    path := prefix + rel;
    SingleIsClear(t, root, folder, recursive, listing, rel, e);
    ClearIsFound(t, root, prefix, folder, recursive, listing, rel, e.meta.id);
    FolderOrLeaf(t, root, path);
    NamesIsPath(t, root, folder, rel, e.meta.id);
    JoinFull(prefix, rel);
  }

  function KeyOf(auth: Auth, prefix: string, rel: string): string {
    CacheKey(auth.identity, auth.driveId, auth.rootFolderId, FullPath(prefix, rel)).ToString()
  }

  // The keys of the first i entries whose paths are clear in the listing.
  ghost function SingleKeys(auth: Auth, prefix: string, listing: seq<Entry>, i: nat): set<string>
    requires i <= |listing|
  {
    set e | e in listing[..i] && Single(listing, e.rel) :: KeyOf(auth, prefix, e.rel)
  }

  lemma OneKeyMore(auth: Auth, prefix: string, listing: seq<Entry>, i: nat)
    requires i < |listing|
    ensures SingleKeys(auth, prefix, listing, i + 1) == SingleKeys(auth, prefix, listing, i)
              + if Single(listing, listing[i].rel) then {KeyOf(auth, prefix, listing[i].rel)} else {}
  {
    assert listing[..i + 1] == listing[..i] + [listing[i]];
  }

  lemma SingleByCounts(listing: seq<Entry>, counts: map<string, nat>, rel: string)
    requires Counts(listing, counts) && rel in counts
    ensures Single(listing, rel) <==> counts[rel] == 1 && !exists a <- counts :: counts[a] != 1 && IsUnder(rel, a)
  {
    if Single(listing, rel) {
      forall a <- counts ensures counts[a] == 1 || !IsUnder(rel, a) {
        assert Count(listing, a) > 0 && counts[a] == Count(listing, a);
      }
    }
    if counts[rel] == 1 && !exists a <- counts :: counts[a] != 1 && IsUnder(rel, a) {
      forall a: string | Count(listing, a) > 1 ensures !IsUnder(rel, a) {
        assert a in counts && counts[a] == Count(listing, a);
      }
    }
  }

  // Only an entry that is right is cached, whatever is listed twice: it is
  // listed once, under folders listed once.
  method CacheEntry(cache: GDrivePathCache<Meta>, auth: Auth, prefix: string, listing: seq<Entry>, e: Entry,
                    counts: map<string, nat>,
                    ghost t: Tree, ghost root: Id, ghost path: seq<string>, ghost folder: Id, ghost recursive: bool)
    requires cache.Valid() && IsTree(t, root) && Coherent(t, root, auth, cache.entries)
    requires IsPath(path) && prefix == Join(path) && ListedFrom(t, root, path, folder, recursive, listing)
    requires e in listing && Counts(listing, counts)
    modifies cache
    ensures cache.Valid() && Coherent(t, root, auth, cache.entries) && cache.maxEntries == old(cache.maxEntries)
    ensures |cache.entries| <= |old(cache.entries)| + 1
    ensures !Single(listing, e.rel) ==> cache.entries == old(cache.entries)
    ensures Single(listing, e.rel) && (cache.maxEntries == 0 || |old(cache.entries)| < cache.maxEntries) ==>
      cache.entries.Keys == old(cache.entries).Keys + {KeyOf(auth, prefix, e.rel)}
  {
    CountedOnce(listing, e, e);
    SingleByCounts(listing, counts, e.rel);
    hide Coherent, ListedFrom, Single, Counts;
    var under := UnderAmbiguous(counts, e.rel);
    if counts[e.rel] != 1 || under {
      return;
    }
    ghost var full := SingleIsRight(t, root, path, folder, recursive, listing, e);
    ghost var before := cache.entries;
    var key := CacheKey(auth.identity, auth.driveId, auth.rootFolderId, FullPath(prefix, e.rel));
    cache.Put(key, e.meta);
    AddedCoherent(t, root, auth, before, cache.entries, full, e.meta);
  }

  // All such entries are cached, if there is room.
  method CacheListing(cache: GDrivePathCache<Meta>, auth: Auth, prefix: string, listing: seq<Entry>,
                      ghost t: Tree, ghost root: Id, ghost path: seq<string>, ghost folder: Id, ghost recursive: bool)
    requires cache.Valid() && IsTree(t, root) && Coherent(t, root, auth, cache.entries)
    requires IsPath(path) && prefix == Join(path) && ListedFrom(t, root, path, folder, recursive, listing)
    modifies cache
    ensures cache.Valid() && Coherent(t, root, auth, cache.entries) && cache.maxEntries == old(cache.maxEntries)
    ensures cache.maxEntries == 0 || |old(cache.entries)| + |listing| <= cache.maxEntries ==>
      cache.entries.Keys == old(cache.entries).Keys + SingleKeys(auth, prefix, listing, |listing|)
  {
    hide Coherent, ListedFrom, Counts, Single, GDrivePathCache.Valid, KeyOf, Filled;
    ghost var was, room := cache.entries, cache.maxEntries == 0 || |cache.entries| + |listing| <= cache.maxEntries;
    var counts := CountRels(listing);
    NothingFilled(was, auth, prefix, listing);
    for i := 0 to |listing|
      invariant cache.Valid() && Coherent(t, root, auth, cache.entries) && cache.maxEntries == old(cache.maxEntries)
      invariant |cache.entries| <= |was| + i
      invariant room ==> Filled(was, cache.entries, auth, prefix, listing, i)
    {
      ghost var before := cache.entries;
      CacheEntry(cache, auth, prefix, listing, listing[i], counts, t, root, path, folder, recursive);
      if room {
        FilledOneMore(was, before, cache.entries, auth, prefix, listing, i);
      }
    }
    FilledAll(was, cache.entries, auth, prefix, listing);
  }

  ghost predicate Filled(was: Entries, now: Entries, auth: Auth, prefix: string, listing: seq<Entry>, i: nat)
    requires i <= |listing|
  {
    now.Keys == was.Keys + SingleKeys(auth, prefix, listing, i)
  }

  lemma NothingFilled(was: Entries, auth: Auth, prefix: string, listing: seq<Entry>)
    ensures Filled(was, was, auth, prefix, listing, 0)
  {
  }

  lemma FilledAll(was: Entries, now: Entries, auth: Auth, prefix: string, listing: seq<Entry>)
    ensures Filled(was, now, auth, prefix, listing, |listing|) ==>
      now.Keys == was.Keys + SingleKeys(auth, prefix, listing, |listing|)
  {
  }

  lemma FilledOneMore(was: Entries, now: Entries, after: Entries, auth: Auth, prefix: string, listing: seq<Entry>,
                      i: nat)
    requires i < |listing|
    requires Single(listing, listing[i].rel) ==> after.Keys == now.Keys + {KeyOf(auth, prefix, listing[i].rel)}
    requires !Single(listing, listing[i].rel) ==> after == now
    ensures Filled(was, now, auth, prefix, listing, i) ==> Filled(was, after, auth, prefix, listing, i + 1)
  {
    OneKeyMore(auth, prefix, listing, i);
    hide Single, SingleKeys, KeyOf;
  }

  // ----- What a repeated path means -----

  // The path names another object too.
  ghost predicate Shared(t: Tree, base: Id, path: seq<string>, id: Id) {
    exists other :: other != id && Names(t, base, path, other)
  }

  lemma {:induction false} RepeatedTwice(listing: seq<Entry>, i: nat) returns (j: nat)
    requires i < |listing| && Count(listing, listing[i].rel) != 1
    ensures j < |listing| && j != i && listing[j].rel == listing[i].rel
  {
    if forall k :: 0 <= k < |listing| && k != i ==> listing[k].rel != listing[i].rel {
      CountAlone(listing, listing[i].rel, i);
    }
    j :| j < |listing| && j != i && listing[j].rel == listing[i].rel;
  }

  // In a listing of everything below a folder, a path is listed again exactly
  // when it names another object too.
  lemma RepeatedIsShared(t: Tree, root: Id, folder: Id, recursive: bool, listing: seq<Entry>, rel: seq<string>,
                         e: Entry)
    requires IsTree(t, root) && Sound(t, folder, [], recursive, listing) && Full(t, folder, [], recursive, listing)
    requires Once(listing) && e in listing && IsEntry(t, folder, [], recursive, rel, e)
    ensures Count(listing, e.rel) != 1 <==> Shared(t, folder, rel, e.meta.id)
  {
    assert [] + rel == rel;
    if Count(listing, e.rel) != 1 {
      var i: nat :| i < |listing| && listing[i] == e;
      var j := RepeatedTwice(listing, i);
      assert listing[j] in listing && listing[j].meta.id != e.meta.id;
      var other :| IsEntry(t, folder, [], recursive, other, listing[j]);
      assert [] + other == other;
      NamesIsPath(t, root, folder, rel, e.meta.id);
      NamesIsPath(t, root, folder, other, listing[j].meta.id);
      JoinIsInjective(rel, other);
    }
    if Shared(t, folder, rel, e.meta.id) {
      var other :| other != e.meta.id && Names(t, folder, rel, other);
      CountedOnce(listing, e, Entry(Join([] + rel), MetaOf(t, other)));
    }
  }

  // ----- Matching the listing -----

  datatype Hit = Hit(path: string, meta: Meta, ambiguous: bool)

  function HitOf(prefix: string, listing: seq<Entry>, e: Entry): Hit {
    Hit(FullPath(prefix, e.rel), e.meta, Count(listing, e.rel) != 1)
  }

  ghost predicate Wanted(pattern: string, prefix: string, e: Entry) {
    !e.meta.folder && MatchesPath(pattern, FullPath(prefix, e.rel))
  }

  ghost predicate IsHitOf(pattern: string, prefix: string, listing: seq<Entry>, hit: Hit) {
    exists e <- listing :: Wanted(pattern, prefix, e) && hit == HitOf(prefix, listing, e)
  }

  // The hits are the wanted entries among the first i.
  ghost predicate HitsUpTo(pattern: string, prefix: string, listing: seq<Entry>, hits: seq<Hit>, i: nat) {
    && (forall hit <- hits :: IsHitOf(pattern, prefix, listing, hit))
    && (forall k :: 0 <= k < i && k < |listing| && Wanted(pattern, prefix, listing[k]) ==>
          HitOf(prefix, listing, listing[k]) in hits)
  }

  lemma HitsOneMore(pattern: string, prefix: string, listing: seq<Entry>, hits: seq<Hit>, i: nat, more: seq<Hit>)
    requires i < |listing| && HitsUpTo(pattern, prefix, listing, hits, i)
    requires more == if Wanted(pattern, prefix, listing[i]) then [HitOf(prefix, listing, listing[i])] else []
    ensures HitsUpTo(pattern, prefix, listing, hits + more, i + 1)
  {
  }

  lemma CountIsAtLeast(listing: seq<Entry>, rel: string, i: nat, j: nat)
    requires i < j < |listing| && listing[i].rel == listing[j].rel == rel
    ensures Count(listing, rel) >= 2
  {
    if j < |listing| - 1 {
      CountIsAtLeast(listing[..|listing| - 1], rel, i, j);
    } else {
      CountedOnce(listing[..j], listing[i], listing[i]);
    }
  }

  lemma {:induction false} CountAlone(listing: seq<Entry>, rel: string, i: nat)
    requires i < |listing| && listing[i].rel == rel
    requires forall j :: 0 <= j < |listing| && j != i ==> listing[j].rel != rel
    ensures Count(listing, rel) == 1
  {
    var n := |listing| - 1;
    if i < n {
      CountAlone(listing[..n], rel, i);
    } else {
      CountNone(listing[..n], rel);
    }
  }

  lemma {:induction false} CountNone(listing: seq<Entry>, rel: string)
    requires forall j :: 0 <= j < |listing| ==> listing[j].rel != rel
    ensures Count(listing, rel) == 0
  {
    if listing != [] {
      CountNone(listing[..|listing| - 1], rel);
    }
  }

  method SharesItsPath(listing: seq<Entry>, i: nat) returns (shared: bool)
    requires i < |listing|
    ensures shared <==> Count(listing, listing[i].rel) != 1
  {
    for j := 0 to |listing|
      invariant forall k :: 0 <= k < j && k != i ==> listing[k].rel != listing[i].rel
    {
      if j != i && listing[j].rel == listing[i].rel {
        CountIsAtLeast(listing, listing[i].rel, if i < j then i else j, if i < j then j else i);
        return true;
      }
    }
    CountAlone(listing, listing[i].rel, i);
    shared := false;
  }

  method MatchListing(pattern: string, prefix: string, listing: seq<Entry>) returns (hits: seq<Hit>)
    ensures HitsUpTo(pattern, prefix, listing, hits, |listing|)
  {
    hits := [];
    for i := 0 to |listing|
      invariant HitsUpTo(pattern, prefix, listing, hits, i)
    {
      var e := listing[i];
      var full := FullPath(prefix, e.rel);
      var matched := MatchPath(pattern, full);
      if !matched || e.meta.folder {
        HitsOneMore(pattern, prefix, listing, hits, i, []);
        assert hits + [] == hits;
        continue;
      }
      var shared := SharesItsPath(listing, i);
      HitsOneMore(pattern, prefix, listing, hits, i, [Hit(full, e.meta, shared)]);
      hits := hits + [Hit(full, e.meta, shared)];
    }
  }
}
