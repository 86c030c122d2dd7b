// Resolving a path segment by segment through the path cache.
module Resolve {
  import opened DriveTree
  import opened Options
  import opened PathCache
  import opened Paths

  datatype Auth = Auth(identity: string, driveId: string, rootFolderId: string)
  {
    function RootFolder(): Id {
      if rootFolderId != "" then rootFolderId else if driveId != "" then driveId else "root"
    }

    function Key(path: seq<string>): CacheKey { CacheKey(identity, driveId, rootFolderId, Join(path)) }
  }

  type Entries = map<string, PathEntry<Meta>>

  // What an entry for this path may hold: a folder that the folders-only walk
  // finds, or another object that the plain walk finds.
  ghost predicate Right(t: Tree, root: Id, path: seq<string>, meta: Meta) {
    (if meta.folder then WalkFolder(t, root, path) else WalkLeaf(t, root, path)) == Found(meta)
  }

  ghost predicate RightAt(t: Tree, root: Id, auth: Auth, entries: Entries, path: seq<string>) {
    var k := auth.Key(path).ToString();
    k in entries ==> Right(t, root, path, entries[k].meta)
  }

  ghost predicate Coherent(t: Tree, root: Id, auth: Auth, entries: Entries) {
    forall path: seq<string> :: IsPath(path) && path != [] ==> RightAt(t, root, auth, entries, path)
  }

  lemma KeysDiffer(auth: Auth, a: seq<string>, b: seq<string>)
    requires IsPath(a) && IsPath(b) && a != [] && b != []
    requires auth.Key(a).ToString() == auth.Key(b).ToString()
    ensures a == b
  {
    var p := auth.Key(a).Prefix("");
    PrefixExtends(auth.Key(a), Join(a));
    PrefixExtends(auth.Key(b), Join(b));
    PlusSame(p, Join(a), Join(b));
    JoinIsInjective(a, b);
  }

  // Entries may go, or be touched, but keep what they hold.
  ghost predicate Kept(before: Entries, after: Entries) {
    forall k <- after :: k in before && after[k].meta == before[k].meta
  }

  lemma KeptCoherent(t: Tree, root: Id, auth: Auth, before: Entries, after: Entries)
    requires Coherent(t, root, auth, before) && Kept(before, after)
    ensures Coherent(t, root, auth, after)
  {
  }

  // One entry may be new; the others are as in Kept.
  ghost predicate Added(before: Entries, after: Entries, key: string, meta: Meta) {
    forall k <- after :: if k == key then after[k].meta == meta else k in before && after[k].meta == before[k].meta
  }

  lemma AddedCoherent(t: Tree, root: Id, auth: Auth, before: Entries, after: Entries, path: seq<string>, meta: Meta)
    requires Coherent(t, root, auth, before) && IsPath(path) && path != []
    requires Added(before, after, auth.Key(path).ToString(), meta) && Right(t, root, path, meta)
    ensures Coherent(t, root, auth, after)
  {
    forall other: seq<string> | IsPath(other) && other != [] ensures RightAt(t, root, auth, after, other) {
      assert RightAt(t, root, auth, before, other);
      if auth.Key(other).ToString() == auth.Key(path).ToString() {
        KeysDiffer(auth, other, path);
      }
    }
  }

  // The same canonical form the walk accumulates.
  lemma CanonicalStep(path: seq<string>, i: nat)
    requires IsPath(path) && i < |path|
    ensures Join(path[..i + 1]) == Join(path[..i]) + (if i == 0 then "" else "/") + path[i]
    ensures Join(path[..i]) == "" <==> i == 0
  {
    assert path[..i + 1] == path[..i] + [path[i]];
    if i > 0 {
      JoinAppend(path[..i], [path[i]]);
      assert path[..i][0] == path[0] && IsSegment(path[0]);
    }
  }

  // ----- The walk -----

  datatype Reply = Got(outcome: Outcome) | Failed

  // Where the walk stands after a prefix of the path.
  ghost predicate Reached(t: Tree, root: Id, walked: seq<string>, meta: Meta) {
    if walked == [] then meta == RootMeta(root) else Right(t, root, walked, meta)
  }

  // Below a file there is nothing, so a cached file in mid-path ends the walk
  // the way the folders-only walk ends before it.
  lemma NextStep(t: Tree, root: Id, path: seq<string>, i: nat, meta: Meta)
    requires IsTree(t, root) && i < |path| && Reached(t, root, path[..i], meta)
    ensures var last := i + 1 == |path|;
            var walk := if last then WalkLeaf(t, root, path[..i + 1]) else WalkFolder(t, root, path[..i + 1]);
            walk == Pick(t, meta.id, path[i], !last)
  {
    var walked := path[..i + 1];
    assert walked[..i] == path[..i] && walked[i] == path[i];
    FolderOrLeaf(t, root, path[..i]);
    if !meta.folder {
      FoundIsThere(t, root, path[..i]);
      assert Named(t, meta.id, path[i], i + 1 != |path|) == {};
    }
  }

  lemma FoundIsThere(t: Tree, root: Id, path: seq<string>)
    ensures var any := WalkLeaf(t, root, path);
            any.Found? && path != [] ==> any.meta.id in t && any.meta == MetaOf(t, any.meta.id)
  {
  }

  // A walk that stops early stops the whole walk in the same way.
  lemma {:induction false} WalkStops(t: Tree, root: Id, path: seq<string>, i: nat)
    requires i < |path| && !WalkFolder(t, root, path[..i]).Found?
    ensures WalkFolder(t, root, path) == WalkFolder(t, root, path[..i]) == WalkLeaf(t, root, path)
    decreases |path|
  {
    var n := |path| - 1;
    if i < n {
      assert path[..n][..i] == path[..i];
      WalkStops(t, root, path[..n], i);
    }
  }

  // What the caller gets: the answer of the walk without a cache, or, where
  // that would call the last name ambiguous, the cached folder of that name.
  ghost predicate Faithful(t: Tree, root: Id, path: seq<string>, outcome: Outcome, hit: bool) {
    var walk := WalkLeaf(t, root, path);
    if hit && walk.Ambiguous? then outcome.Found? && outcome == WalkFolder(t, root, path) else outcome == walk
  }

  lemma ArrivedFaithful(t: Tree, root: Id, path: seq<string>, meta: Meta, hit: bool)
    requires Reached(t, root, path, meta) && (hit || WalkLeaf(t, root, path) == Found(meta))
    ensures Faithful(t, root, path, Found(meta), hit)
  {
    FolderOrLeaf(t, root, path);
  }

  lemma StoppedFaithful(t: Tree, root: Id, path: seq<string>, i: nat, meta: Meta, outcome: Outcome)
    requires IsTree(t, root) && i < |path| && Reached(t, root, path[..i], meta)
    requires outcome == Pick(t, meta.id, path[i], i + 1 != |path|) && !outcome.Found?
    ensures WalkLeaf(t, root, path) == outcome
  {
    NextStep(t, root, path, i, meta);
    var next := i + 1;
    assert path[..|path|] == path;
    if next < |path| {
      WalkStops(t, root, path, next);
    }
  }

  // What looking up one segment under key k does to the entries: a hit changes
  // none, a miss may add that one, and only a full cache loses any.
  ghost predicate OneLookup(before: Entries, after: Entries, max: nat, k: string) {
    && (k in before ==> after.Keys == before.Keys)
    && |after| <= |before| + 1
    && (forall j <- after :: if j in before && (j != k || k in before) then after[j].meta == before[j].meta else j == k)
    && (max == 0 || |before| < max ==> before.Keys <= after.Keys)
  }

  lemma LookupTouches(before: Entries, after: Entries, max: nat, k: string)
    requires after.Keys == before.Keys && Kept(before, after)
    ensures OneLookup(before, after, max, k)
  {
    assert |after| == |after.Keys| == |before.Keys| == |before|;
  }

  lemma LookupPuts(before: Entries, after: Entries, max: nat, k: string)
    requires k !in before && |after| <= |before| + 1
    requires forall j <- after :: j != k ==> j in before && after[j] == before[j]
    requires max == 0 || |before| < max ==> after.Keys == before.Keys + {k}
    ensures OneLookup(before, after, max, k)
  {
  }

  // One segment: from the cache, or by a listing that is then cached.
  method ResolveSegment(cache: GDrivePathCache<Meta>, drive: DriveFolders, auth: Auth, path: seq<string>, i: nat,
                        canonical: string, parent: Meta)
    returns (reply: Reply)
    requires cache.Valid() && drive.Valid() && IsPath(path) && i < |path|
    requires Coherent(drive.tree, drive.root, auth, cache.entries)
    requires Reached(drive.tree, drive.root, path[..i], parent) && canonical == Join(path[..i + 1])
    modifies cache, drive`failures
    ensures drive.failures == old(drive.failures) + if reply.Failed? then 1 else 0
    ensures cache.Valid() && Coherent(drive.tree, drive.root, auth, cache.entries)
    ensures cache.maxEntries == old(cache.maxEntries)
    ensures OneLookup(old(cache.entries), cache.entries, cache.maxEntries, auth.Key(path[..i + 1]).ToString())
    ensures reply.Got? && reply.outcome.Found? ==> auth.Key(path[..i + 1]).ToString() in cache.entries
    ensures reply.Got? && reply.outcome.Found? ==> Reached(drive.tree, drive.root, path[..i + 1], reply.outcome.meta)
    // A hit is answered from the cache, anything else by the listing.
    ensures var k := auth.Key(path[..i + 1]).ToString();
            if k in old(cache.entries) then reply == Got(Found(old(cache.entries)[k].meta))
            else reply.Got? ==> reply.outcome == Pick(drive.tree, parent.id, path[i], i + 1 != |path|)
  {
    hide Coherent, OneLookup, Pick, Right, Join, GDrivePathCache.Valid;
    ghost var before := cache.entries;
    var key := CacheKey(auth.identity, auth.driveId, auth.rootFolderId, canonical);
    ghost var walked := path[..i + 1];
    assert key == auth.Key(walked) && IsPath(walked);
    var hit := cache.TryGet(key);
    LookupTouches(before, cache.entries, cache.maxEntries, key.ToString());
    if hit.Some? {
      KeptCoherent(drive.tree, drive.root, auth, before, cache.entries);
      CoherentAt(drive.tree, drive.root, auth, before, walked);
      return Got(Found(hit.value));
    }
    reply := ListSegment(cache, drive, auth, path, i, key, parent);
  }

  // The listing of a segment that is not cached.
  method ListSegment(cache: GDrivePathCache<Meta>, drive: DriveFolders, auth: Auth, path: seq<string>, i: nat,
                     key: CacheKey, parent: Meta)
    returns (reply: Reply)
    requires cache.Valid() && drive.Valid() && IsPath(path) && i < |path|
    requires Coherent(drive.tree, drive.root, auth, cache.entries)
    requires Reached(drive.tree, drive.root, path[..i], parent)
    requires key == auth.Key(path[..i + 1]) && key.ToString() !in cache.entries
    modifies cache, drive`failures
    ensures drive.failures == old(drive.failures) + if reply.Failed? then 1 else 0
    ensures cache.Valid() && Coherent(drive.tree, drive.root, auth, cache.entries)
    ensures cache.maxEntries == old(cache.maxEntries)
    ensures OneLookup(old(cache.entries), cache.entries, cache.maxEntries, key.ToString())
    ensures reply.Got? && reply.outcome.Found? ==> key.ToString() in cache.entries
    ensures reply.Got? && reply.outcome.Found? ==> Reached(drive.tree, drive.root, path[..i + 1], reply.outcome.meta)
    ensures reply.Got? ==> reply.outcome == Pick(drive.tree, parent.id, path[i], i + 1 != |path|)
  {
    hide Coherent, OneLookup, Lists, IsTree, IsPath, Reached, Pick, Right, Join, GDrivePathCache.Valid;
    ghost var t, root, before, walked := drive.tree, drive.root, cache.entries, path[..i + 1];
    LookupTouches(before, before, cache.maxEntries, key.ToString());
    var last := i + 1 == |path|;
    var ok, matches := drive.ListByName(parent.id, path[i], !last);
    if !ok {
      return Failed;
    }
    ListingPicks(t, parent.id, path[i], !last, matches);
    if |matches| == 0 {
      return Got(NotFound);
    }
    if |matches| > 1 {
      return Got(Ambiguous);
    }
    NextIsRight(t, root, path, i, parent, matches[0]);
    cache.Put(key, matches[0]);
    LookupPuts(before, cache.entries, cache.maxEntries, key.ToString());
    AddedCoherent(t, root, auth, before, cache.entries, walked, matches[0]);
    reply := Got(Found(matches[0]));
  }

  lemma NextIsRight(t: Tree, root: Id, path: seq<string>, i: nat, parent: Meta, next: Meta)
    requires IsTree(t, root) && IsPath(path) && i < |path| && Reached(t, root, path[..i], parent)
    requires Pick(t, parent.id, path[i], i + 1 != |path|) == Found(next)
    ensures IsPath(path[..i + 1]) && Right(t, root, path[..i + 1], next)
    ensures Reached(t, root, path[..i + 1], next)
  {
    NextStep(t, root, path, i, parent);
    FolderOrLeaf(t, root, path[..i + 1]);
  }

  lemma CoherentAt(t: Tree, root: Id, auth: Auth, entries: Entries, path: seq<string>)
    requires Coherent(t, root, auth, entries) && IsPath(path) && path != []
    ensures RightAt(t, root, auth, entries, path)
  {
  }

  ghost predicate AllCached(auth: Auth, entries: Entries, path: seq<string>) {
    forall k :: 0 < k <= |path| ==> auth.Key(path[..k]).ToString() in entries
  }

  // The cache has room for every segment of the path.
  ghost predicate HasRoom(entries: Entries, max: nat, path: seq<string>) { max == 0 || |entries| + |path| <= max }

  // How the walk's lookups of i segments treat the entry of the whole path.
  ghost predicate Tracked(auth: Auth, before: Entries, after: Entries, max: nat, path: seq<string>, i: nat) {
    var k := auth.Key(path).ToString();
    && |after| <= |before| + i
    && (k in after ==> k in before && after[k].meta == before[k].meta)
    && (AllCached(auth, before, path) ==> after.Keys == before.Keys)
    && (HasRoom(before, max, path) && k in before ==> k in after)
  }

  lemma TrackedOneMore(auth: Auth, before: Entries, mid: Entries, after: Entries, max: nat, path: seq<string>, i: nat)
    requires IsPath(path) && i + 1 < |path| && Tracked(auth, before, mid, max, path, i)
    requires OneLookup(mid, after, max, auth.Key(path[..i + 1]).ToString())
    ensures Tracked(auth, before, after, max, path, i + 1)
  {
    if auth.Key(path[..i + 1]).ToString() == auth.Key(path).ToString() {
      KeysDiffer(auth, path[..i + 1], path);
    }
  }

  // Where the walk stands at the end, and whether the last segment was a hit.
  ghost predicate Arrived(t: Tree, root: Id, auth: Auth, before: Entries, max: nat, path: seq<string>, at: Meta,
                          hit: bool) {
    var k := auth.Key(path).ToString();
    if path == [] then !hit && at == RootMeta(root)
    else
      && (if hit then k in before && at == before[k].meta else WalkLeaf(t, root, path) == Found(at))
      && (AllCached(auth, before, path) ==> hit)
      && (HasRoom(before, max, path) && k in before ==> hit)
  }

  lemma LastStep(t: Tree, root: Id, auth: Auth, before: Entries, mid: Entries, max: nat, path: seq<string>, n: nat,
                 at: Meta, step: Reply)
    requires IsTree(t, root) && |path| == n + 1 && Reached(t, root, path[..n], at)
    requires Tracked(auth, before, mid, max, path, n)
    requires var k := auth.Key(path).ToString();
             if k in mid then step == Got(Found(mid[k].meta))
             else step.Got? ==> step.outcome == Pick(t, at.id, path[n], false)
    ensures var hit := auth.Key(path).ToString() in mid;
            && (AllCached(auth, before, path) ==> hit)
            && (HasRoom(before, max, path) && auth.Key(path).ToString() in before ==> hit)
            && (step.Got? && step.outcome.Found? ==> Arrived(t, root, auth, before, max, path, step.outcome.meta, hit))
  {
    assert path[..n + 1] == path;
    NextStep(t, root, path, n, at);
  }

  // A walk that stops before its last segment had not cached what it listed
  // there, nor, unless the listing failed, the path itself.
  lemma StoppedUncached(t: Tree, root: Id, auth: Auth, before: Entries, mid: Entries, max: nat, path: seq<string>,
                        i: nat, at: Meta, step: Reply)
    requires IsTree(t, root) && IsPath(path) && i + 1 < |path| && Reached(t, root, path[..i], at)
    requires Coherent(t, root, auth, before) && Tracked(auth, before, mid, max, path, i)
    requires auth.Key(path[..i + 1]).ToString() !in mid
    requires step.Got? ==> !step.outcome.Found? && step.outcome == Pick(t, at.id, path[i], true)
    ensures !AllCached(auth, before, path)
    ensures step.Got? ==> auth.Key(path).ToString() !in before
  {
    CoherentAt(t, root, auth, before, path);
    if step.Got? {
      NextStep(t, root, path, i, at);
      WalkStops(t, root, path, i + 1);
    }
  }

  // What a walk may answer: from the cache if the entry of the path was hit,
  // which it must be if every segment was cached or the cache had room, and
  // what the walk without a cache answers otherwise.
  ghost predicate Answered(t: Tree, root: Id, auth: Auth, before: Entries, max: nat, path: seq<string>, reply: Reply,
                           hit: bool) {
    var k := auth.Key(path).ToString();
    && (reply.Got? ==> Faithful(t, root, path, reply.outcome, hit))
    && (hit ==> path != [] && k in before && reply == Got(Found(before[k].meta)))
    && (path != [] && AllCached(auth, before, path) ==> hit)
    && (path != [] && k in before && HasRoom(before, max, path) && reply.Got? ==> hit)
  }

  // Where a walk stands after i segments.
  ghost predicate Underway(t: Tree, root: Id, auth: Auth, before: Entries, entries: Entries, max: nat,
                           path: seq<string>, i: nat, at: Meta, hit: bool)
    requires i <= |path|
  {
    && Reached(t, root, path[..i], at)
    && (if i < |path| then !hit && Tracked(auth, before, entries, max, path, i)
        else Arrived(t, root, auth, before, max, path, at, hit))
  }

  // One turn at the last segment, and one before it: it goes on or answers.
  lemma LastTurn(t: Tree, root: Id, auth: Auth, before: Entries, mid: Entries, after: Entries, max: nat,
                 path: seq<string>, i: nat, at: Meta, step: Reply)
    requires IsTree(t, root) && |path| == i + 1 && Underway(t, root, auth, before, mid, max, path, i, at, false)
    requires var k := auth.Key(path).ToString();
             if k in mid then step == Got(Found(mid[k].meta))
             else step.Got? ==> step.outcome == Pick(t, at.id, path[i], false)
    requires step.Got? && step.outcome.Found? ==> Reached(t, root, path, step.outcome.meta)
    ensures var hit := auth.Key(path).ToString() in mid;
            if step.Got? && step.outcome.Found?
            then Underway(t, root, auth, before, after, max, path, i + 1, step.outcome.meta, hit)
            else Answered(t, root, auth, before, max, path, step, hit)
  {
    hide Reached, Tracked, Arrived, AllCached, HasRoom;
    assert path[..i + 1] == path;
    LastStep(t, root, auth, before, mid, max, path, i, at, step);
    if step.Got? && !step.outcome.Found? {
      StoppedFaithful(t, root, path, i, at, step.outcome);
    }
  }

  lemma MiddleTurn(t: Tree, root: Id, auth: Auth, before: Entries, mid: Entries, after: Entries, max: nat,
                   path: seq<string>, i: nat, at: Meta, step: Reply)
    requires IsTree(t, root) && IsPath(path) && i + 1 < |path| && Coherent(t, root, auth, before)
    requires Underway(t, root, auth, before, mid, max, path, i, at, false)
    requires OneLookup(mid, after, max, auth.Key(path[..i + 1]).ToString())
    requires var k := auth.Key(path[..i + 1]).ToString();
             if k in mid then step == Got(Found(mid[k].meta))
             else step.Got? ==> step.outcome == Pick(t, at.id, path[i], true)
    requires step.Got? && step.outcome.Found? ==> Reached(t, root, path[..i + 1], step.outcome.meta)
    ensures if step.Got? && step.outcome.Found?
            then Underway(t, root, auth, before, after, max, path, i + 1, step.outcome.meta, false)
            else Answered(t, root, auth, before, max, path, step, false)
  {
    hide Coherent, Reached, Tracked, Arrived, AllCached, HasRoom, OneLookup;
    if step.Got? && step.outcome.Found? {
      TrackedOneMore(auth, before, mid, after, max, path, i);
    } else {
      StoppedUncached(t, root, auth, before, mid, max, path, i, at, step);
      if step.Got? {
        StoppedFaithful(t, root, path, i, at, step.outcome);
      }
    }
  }

  // One turn of the walk below, which began with the entries `before`.
  method WalkSegment(cache: GDrivePathCache<Meta>, drive: DriveFolders, auth: Auth, path: seq<string>, i: nat,
                     canonical: string, at: Meta, ghost before: Entries)
    returns (reply: Reply, longer: string, ghost hit: bool)
    requires cache.Valid() && drive.Valid() && IsPath(path) && i < |path| && canonical == Join(path[..i])
    requires Coherent(drive.tree, drive.root, auth, cache.entries) && Coherent(drive.tree, drive.root, auth, before)
    requires Underway(drive.tree, drive.root, auth, before, cache.entries, cache.maxEntries, path, i, at, false)
    modifies cache, drive`failures
    ensures drive.failures == old(drive.failures) + if reply.Failed? then 1 else 0
    ensures cache.Valid() && Coherent(drive.tree, drive.root, auth, cache.entries)
    ensures cache.maxEntries == old(cache.maxEntries) && longer == Join(path[..i + 1])
    ensures if reply.Got? && reply.outcome.Found?
            then Underway(drive.tree, drive.root, auth, before, cache.entries, cache.maxEntries, path, i + 1,
                          reply.outcome.meta, hit)
            else Answered(drive.tree, drive.root, auth, before, cache.maxEntries, path, reply, hit)
    ensures i + 1 < |path| ==> !hit
    ensures reply.Got? && reply.outcome.Found? ==> auth.Key(path[..i + 1]).ToString() in cache.entries
  {
    assert Reached(drive.tree, drive.root, path[..i], at);
    hide Coherent, Reached, Underway, Answered, OneLookup, Join;
    ghost var mid := cache.entries;
    CanonicalStep(path, i);
    longer := canonical + (if canonical == "" then "" else "/") + path[i];
    reply := ResolveSegment(cache, drive, auth, path, i, longer, at);
    hit := false;
    if i + 1 == |path| {
      assert path[..i + 1] == path;
      hit := auth.Key(path).ToString() in mid;
      LastTurn(drive.tree, drive.root, auth, before, mid, cache.entries, cache.maxEntries, path, i, at, reply);
    } else {
      MiddleTurn(drive.tree, drive.root, auth, before, mid, cache.entries, cache.maxEntries, path, i, at, reply);
    }
  }

  // The whole walk. It answers from the cache exactly when the entry of the
  // path is still there when the last segment is reached (`hit`), which it is
  // if nothing had to be listed before, or if the cache had room.
  method TryResolvePath(cache: GDrivePathCache<Meta>, drive: DriveFolders, auth: Auth, path: seq<string>)
    returns (reply: Reply, ghost hit: bool)
    requires cache.Valid() && drive.Valid() && IsPath(path) && drive.root == auth.RootFolder()
    requires Coherent(drive.tree, drive.root, auth, cache.entries)
    modifies cache, drive`failures
    ensures drive.failures == old(drive.failures) + if reply.Failed? then 1 else 0
    ensures cache.Valid() && Coherent(drive.tree, drive.root, auth, cache.entries)
    ensures reply.Got? ==> Faithful(drive.tree, drive.root, path, reply.outcome, hit)
    ensures hit ==> path != [] && auth.Key(path).ToString() in old(cache.entries)
                    && reply == Got(Found(old(cache.entries)[auth.Key(path).ToString()].meta))
    // What is found is cached.
    ensures path != [] && reply.Got? && reply.outcome.Found? ==> auth.Key(path).ToString() in cache.entries
    ensures path != [] && AllCached(auth, old(cache.entries), path) ==> hit
    ensures path != [] && auth.Key(path).ToString() in old(cache.entries) ==>
      HasRoom(old(cache.entries), old(cache.maxEntries), path) && reply.Got? ==> hit
  {
    hide Coherent, Underway, AllCached, HasRoom, Faithful, Join;
    var at, canonical := RootMeta(auth.RootFolder()), "";
    ghost var before, max := cache.entries, cache.maxEntries;
    hit := false;
    WalkBegins(drive.tree, drive.root, auth, before, max, path);
    var i := 0;
    while i < |path|
      invariant i <= |path| && cache.Valid() && Coherent(drive.tree, drive.root, auth, cache.entries)
      invariant drive.failures == old(drive.failures)
      invariant cache.maxEntries == max && canonical == Join(path[..i]) && (i < |path| ==> !hit)
      invariant Underway(drive.tree, drive.root, auth, before, cache.entries, max, path, i, at, hit)
      invariant i > 0 ==> auth.Key(path[..i]).ToString() in cache.entries
    {
      var step;
      step, canonical, hit := WalkSegment(cache, drive, auth, path, i, canonical, at, before);
      if step.Failed? || !step.outcome.Found? {
        return step, hit;
      }
      at, i := step.outcome.meta, i + 1;
    }
    assert path[..i] == path;
    WalkEnds(drive.tree, drive.root, auth, before, cache.entries, max, path, at, hit);
    if path == [] {
      var ok, meta := drive.GetRoot();
      return if ok then Got(Found(meta)) else Failed, hit;
    }
    reply := Got(Found(at));
  }

  lemma WalkBegins(t: Tree, root: Id, auth: Auth, before: Entries, max: nat, path: seq<string>)
    ensures Underway(t, root, auth, before, before, max, path, 0, RootMeta(root), false) && Join(path[..0]) == ""
  {
  }

  lemma WalkEnds(t: Tree, root: Id, auth: Auth, before: Entries, entries: Entries, max: nat, path: seq<string>,
                 at: Meta, hit: bool)
    requires Underway(t, root, auth, before, entries, max, path, |path|, at, hit)
    ensures Answered(t, root, auth, before, max, path, Got(Found(at)), hit)
    ensures path == [] ==> !hit && at == RootMeta(root)
  {
    assert path[..|path|] == path;
    ArrivedFaithful(t, root, path, at, hit);
  }

  // The difference does occur: a file beside a folder of the same name, with
  // the folder cached, ...
  function SameName(root: Id, file: Id, folder: Id): Tree {
    map[file := Obj(root, "a", false), folder := Obj(root, "a", true)]
  }

  function FolderCached(auth: Auth, folder: Id): Entries {
    map[auth.Key(["a"]).ToString() := PathEntry(Meta(folder, "a", true), 1)]
  }

  lemma CachedFolderHidesAmbiguity(auth: Auth, root: Id, file: Id, folder: Id)
    requires root != file && root != folder && file != folder
    ensures var t := SameName(root, file, folder);
            && IsTree(t, root) && Coherent(t, root, auth, FolderCached(auth, folder))
            && WalkLeaf(t, root, ["a"]).Ambiguous? && WalkFolder(t, root, ["a"]) == Found(MetaOf(t, folder))
  {
    var t, entries := SameName(root, file, folder), FolderCached(auth, folder);
    assert ["a"][..0] == [];
    assert file in Named(t, root, "a", false) && folder in Named(t, root, "a", false);
    assert Named(t, root, "a", true) == {folder};
    PickIs(t, root, "a", true, folder);
    forall path: seq<string> | IsPath(path) && path != [] ensures RightAt(t, root, auth, entries, path) {
      if auth.Key(path).ToString() in entries {
        assert IsSegment("a");
        KeysDiffer(auth, path, ["a"]);
      }
    }
  }

  // ... is resolved to the folder, every time, where the walk without a cache
  // calls the name ambiguous.
  method ResolveHidden(cache: GDrivePathCache<Meta>, drive: DriveFolders, auth: Auth, file: Id, folder: Id)
    returns (reply: Reply)
    requires cache.Valid() && drive.Valid() && drive.root == auth.RootFolder()
    requires drive.root != file && drive.root != folder && file != folder
    requires drive.tree == SameName(drive.root, file, folder) && cache.entries == FolderCached(auth, folder)
    modifies cache, drive`failures
    ensures reply == Got(Found(MetaOf(drive.tree, folder))) && WalkLeaf(drive.tree, drive.root, ["a"]).Ambiguous?
  {
    CachedFolderHidesAmbiguity(auth, drive.root, file, folder);
    assert IsSegment("a") && ["a"][..1] == ["a"];
    assert AllCached(auth, cache.entries, ["a"]);
    ghost var hit;
    reply, hit := TryResolvePath(cache, drive, auth, ["a"]);
  }
}
