// One expanded glob pattern, from the prefix to the hits.
module GlobSearch {
  import opened DriveTree
  import opened GlobListing
  import opened GlobMatches
  import opened GlobPath
  import opened GlobSegment
  import opened Naming
  import opened PathCache
  import opened Paths
  import opened Resolve

  ghost function LiteralLength(segments: seq<string>): (n: nat)
    ensures n <= |segments|
  {
    if segments == [] || HasMeta(segments[0]) then 0 else 1 + LiteralLength(segments[1..])
  }

  lemma {:induction false} FirstMetaIsLiteralLength(segments: seq<string>, f: nat)
    requires FirstMeta(segments, f)
    ensures f == LiteralLength(segments)
    decreases f
  {
    if f > 0 {
      FirstMetaIsLiteralLength(segments[1..], f - 1);
    }
  }

  ghost predicate IsFile(t: Tree, id: Id) { id in t && !t[id].folder }

  // Every file that lies below the literal prefix under a path the pattern
  // accepts is a hit.
  ghost predicate FindsAll(t: Tree, root: Id, pattern: string, hits: seq<Hit>) {
    forall p: seq<string>, id: Id :: Names(t, root, p, id) && Sought(t, pattern, p, id) ==> IsAmong(hits, Join(p), id)
  }

  ghost predicate Sought(t: Tree, pattern: string, p: seq<string>, id: Id) {
    IsFile(t, id) && |p| > LiteralLength(Segments(pattern)) && MatchesPath(pattern, Join(p))
  }

  ghost predicate IsAmong(hits: seq<Hit>, path: string, id: Id) {
    exists hit <- hits :: hit.path == path && hit.meta.id == id
  }

  // And every hit is such a file.
  ghost predicate FindsOnly(t: Tree, root: Id, pattern: string, hits: seq<Hit>) {
    forall hit <- hits :: exists p :: IsFound(t, root, pattern, p, hit)
  }

  ghost predicate IsFound(t: Tree, root: Id, pattern: string, p: seq<string>, hit: Hit) {
    && Names(t, root, p, hit.meta.id) && Sought(t, pattern, p, hit.meta.id)
    && hit.path == Join(p) && hit.meta == MetaOf(t, hit.meta.id)
    && (hit.ambiguous <==> Shared(t, root, p, hit.meta.id))
  }

  // Put together: a file whose path the pattern accepts is a hit if and only if
  // the path has more segments than the literal prefix.
  ghost predicate FindsExactly(t: Tree, root: Id, pattern: string, hits: seq<Hit>) {
    forall p: seq<string>, id: Id :: Names(t, root, p, id) && Accepted(t, pattern, p, id) ==>
      (IsAmong(hits, Join(p), id) <==> |p| > LiteralLength(Segments(pattern)))
  }

  ghost predicate Accepted(t: Tree, pattern: string, p: seq<string>, id: Id) {
    IsFile(t, id) && MatchesPath(pattern, Join(p))
  }

  lemma AllAndOnlyIsExact(t: Tree, root: Id, pattern: string, hits: seq<Hit>)
    requires IsTree(t, root) && FindsAll(t, root, pattern, hits) && FindsOnly(t, root, pattern, hits)
    ensures FindsExactly(t, root, pattern, hits)
  {
    forall p: seq<string>, id: Id | Names(t, root, p, id) && Accepted(t, pattern, p, id)
      ensures IsAmong(hits, Join(p), id) <==> |p| > LiteralLength(Segments(pattern))
    {
      if IsAmong(hits, Join(p), id) {
        var hit :| hit in hits && hit.path == Join(p) && hit.meta.id == id;
        var q :| IsFound(t, root, pattern, q, hit);
        OnePath(t, root, p, q, id);
      }
    }
  }

  // ----- From the prefix -----

  // If the prefix names a folder, resolving it gives that folder.
  lemma PrefixIsTheFolder(t: Tree, root: Id, prefix: seq<string>, outcome: Outcome, hit: bool, folder: Id)
    requires IsTree(t, root) && Names(t, root, prefix, folder) && IsFolder(t, root, folder)
    requires Faithful(t, root, prefix, outcome, hit) && !outcome.Ambiguous?
    ensures outcome.Found? && outcome.meta.id == folder
  {
    NamedIsFoundOrAmbiguous(t, root, prefix, folder);
  }

  // A file on the way splits there: the prefix, and the names below it.
  lemma SoughtIsBelow(t: Tree, root: Id, pattern: string, split: GlobSplit, f: nat, p: seq<string>, id: Id)
    returns (folder: Id)
    requires IsTree(t, root) && HasMeta(pattern) && SplitsAt(pattern, split, f)
    requires Names(t, root, p, id) && Sought(t, pattern, p, id)
    ensures f < |p| && p[..f] == Segments(pattern)[..f] && IsPath(p)
    ensures Names(t, root, p[..f], folder) && IsFolder(t, root, folder)
    ensures Names(t, folder, p[f..], id) && InDepth(p[f..], split.recursive)
  {
    FirstMetaIsLiteralLength(Segments(pattern), f);
    NamesIsPath(t, root, root, p, id);
    SegmentsOfJoin(p);
    SplitLosesNothing(pattern, split, f, Join(p));
    folder := Above(t, root, p, id, f);
    ParentIsFolder(t, root, folder, p[f..], id);
  }

  lemma NothingBelow(t: Tree, root: Id, pattern: string, split: GlobSplit, f: nat, hit: bool)
    requires IsTree(t, root) && HasMeta(pattern) && SplitsAt(pattern, split, f)
    requires Faithful(t, root, Segments(pattern)[..f], NotFound, hit)
    ensures FindsAll(t, root, pattern, []) && FindsOnly(t, root, pattern, [])
  {
    forall p: seq<string>, id: Id | Names(t, root, p, id) ensures !Sought(t, pattern, p, id) {
      if Sought(t, pattern, p, id) {
        var folder := SoughtIsBelow(t, root, pattern, split, f, p, id);
        PrefixIsTheFolder(t, root, p[..f], NotFound, hit, folder);
      }
    }
  }

  lemma ListedFromReply(t: Tree, root: Id, prefix: seq<string>, meta: Meta, hit: bool, recursive: bool,
                        listing: seq<Entry>)
    requires IsTree(t, root) && Faithful(t, root, prefix, Found(meta), hit)
    requires Sound(t, meta.id, [], recursive, listing) && Full(t, meta.id, [], recursive, listing) && Once(listing)
    ensures ListedFrom(t, root, prefix, meta.id, recursive, listing)
  {
    FolderOrLeaf(t, root, prefix);
    if listing != [] && !meta.folder {
      FoundIsThere(t, root, prefix);
      assert listing[0] in listing;
      var rel :| IsEntry(t, meta.id, [], recursive, rel, listing[0]);
      ParentIsFolder(t, root, meta.id, rel, listing[0].meta.id);
    }
  }

  lemma FullHas(t: Tree, folder: Id, recursive: bool, listing: seq<Entry>, rel: seq<string>, id: Id)
    requires Full(t, folder, [], recursive, listing) && InDepth(rel, recursive) && Names(t, folder, rel, id)
    ensures id in t && Entry(Join(rel), MetaOf(t, id)) in listing
  {
    assert [] + rel == rel;
  }

  lemma SoughtIsListed(t: Tree, root: Id, pattern: string, split: GlobSplit, f: nat, meta: Meta, hit: bool,
                       listing: seq<Entry>, p: seq<string>, id: Id)
    returns (e: Entry)
    requires IsTree(t, root) && HasMeta(pattern) && SplitsAt(pattern, split, f) && IsPath(Segments(pattern))
    requires Faithful(t, root, Segments(pattern)[..f], Found(meta), hit)
    requires Full(t, meta.id, [], split.recursive, listing)
    requires Names(t, root, p, id) && Sought(t, pattern, p, id)
    ensures e in listing && e.meta == MetaOf(t, id) && FullPath(split.literalPrefix, e.rel) == Join(p)
  {
    var folder := SoughtIsBelow(t, root, pattern, split, f, p, id);
    PrefixIsTheFolder(t, root, p[..f], Found(meta), hit, folder);
    var rel := p[f..];
    FullHas(t, folder, split.recursive, listing, rel, id);
    assert p == p[..f] + rel;
    JoinFull(p[..f], rel);
    e := Entry(Join(rel), MetaOf(t, id));
  }

  lemma AllFound(t: Tree, root: Id, pattern: string, split: GlobSplit, f: nat, meta: Meta, hit: bool,
                 listing: seq<Entry>, hits: seq<Hit>)
    requires IsTree(t, root) && HasMeta(pattern) && SplitsAt(pattern, split, f) && IsPath(Segments(pattern))
    requires Faithful(t, root, Segments(pattern)[..f], Found(meta), hit)
    requires Full(t, meta.id, [], split.recursive, listing)
    requires HitsUpTo(pattern, split.literalPrefix, listing, hits, |listing|)
    ensures FindsAll(t, root, pattern, hits)
  {
    forall p: seq<string>, id: Id | Names(t, root, p, id) && Sought(t, pattern, p, id)
      ensures IsAmong(hits, Join(p), id)
    {
      var e := SoughtIsListed(t, root, pattern, split, f, meta, hit, listing, p, id);
      var k :| 0 <= k < |listing| && listing[k] == e;
      assert HitOf(split.literalPrefix, listing, listing[k]) in hits;
    }
  }

  lemma HitIsFound(t: Tree, root: Id, pattern: string, split: GlobSplit, prefix: seq<string>, folder: Id,
                   listing: seq<Entry>, e: Entry, hit: Hit)
    requires IsTree(t, root) && IsPath(prefix) && split.literalPrefix == Join(prefix)
    requires ListedFrom(t, root, prefix, folder, split.recursive, listing) && e in listing
    requires Wanted(pattern, split.literalPrefix, e) && hit == HitOf(split.literalPrefix, listing, e)
    requires |prefix| == LiteralLength(Segments(pattern))
    ensures exists p :: IsFound(t, root, pattern, p, hit)
  {
    var rel :| IsEntry(t, folder, [], split.recursive, rel, e);
    FoundIsNamed(t, root, prefix);
    NamesConcat(t, root, prefix, folder, rel, e.meta.id);
    JoinFull(prefix, rel);
    assert [] + rel == rel;
    RepeatedIsShared(t, root, folder, split.recursive, listing, rel, e);
    SharedBelow(t, root, prefix, folder, rel, e.meta.id);
    assert IsFound(t, root, pattern, prefix + rel, hit);
  }

  // Whatever shares a path below the folder shares it from the root.
  lemma SharedBelow(t: Tree, root: Id, prefix: seq<string>, folder: Id, rel: seq<string>, id: Id)
    requires IsTree(t, root) && WalkFolder(t, root, prefix).Found? && WalkFolder(t, root, prefix).meta.id == folder
    requires rel != [] && Names(t, folder, rel, id)
    ensures Shared(t, root, prefix + rel, id) <==> Shared(t, folder, rel, id)
  {
    var path := prefix + rel;
    FoundIsNamed(t, root, prefix);
    if Shared(t, folder, rel, id) {
      var other :| other != id && Names(t, folder, rel, other);
      NamesConcat(t, root, prefix, folder, rel, other);
    }
    if Shared(t, root, path, id) {
      var other :| other != id && Names(t, root, path, other);
      var top := Above(t, root, path, other, |prefix|);
      assert path[..|prefix|] == prefix && path[|prefix|..] == rel;
      ParentIsFolder(t, root, top, rel, other);
      NamedIsFoundOrAmbiguous(t, root, prefix, top);
    }
  }

  lemma OnlyFound(t: Tree, root: Id, pattern: string, split: GlobSplit, prefix: seq<string>, folder: Id,
                  listing: seq<Entry>, hits: seq<Hit>)
    requires IsTree(t, root) && IsPath(prefix) && split.literalPrefix == Join(prefix)
    requires ListedFrom(t, root, prefix, folder, split.recursive, listing)
    requires HitsUpTo(pattern, split.literalPrefix, listing, hits, |listing|)
    requires |prefix| == LiteralLength(Segments(pattern))
    ensures FindsOnly(t, root, pattern, hits)
  {
    forall hit <- hits ensures exists p :: IsFound(t, root, pattern, p, hit) {
      assert IsHitOf(pattern, split.literalPrefix, listing, hit);
      var e :| e in listing && Wanted(pattern, split.literalPrefix, e) && hit == HitOf(split.literalPrefix, listing, e);
      HitIsFound(t, root, pattern, split, prefix, folder, listing, e, hit);
    }
  }

  // ----- What is cached on the way -----

  ghost predicate OnlyOne(t: Tree, root: Id, p: seq<string>) {
    forall x, y :: Names(t, root, p, x) && Names(t, root, p, y) ==> x == y
  }

  // From the n-th name on, nothing shares the path.
  ghost predicate OnlyOnes(t: Tree, root: Id, p: seq<string>, n: nat) {
    forall k :: n < k <= |p| ==> OnlyOne(t, root, p[..k])
  }

  // Every hit whose path nothing shares below the prefix is cached there.
  ghost predicate HitsCached(t: Tree, root: Id, auth: Auth, pattern: string, entries: Entries, hits: seq<Hit>) {
    forall hit, p: seq<string> :: hit in hits && IsFound(t, root, pattern, p, hit) ==>
      OnlyOnes(t, root, p, LiteralLength(Segments(pattern))) ==> auth.Key(p).ToString() in entries
  }

  lemma SharedTwice(t: Tree, root: Id, prefix: seq<string>, folder: Id, p: seq<string>, rel: seq<string>, id: Id)
    requires Names(t, root, prefix, folder) && rel != [] && prefix + rel <= p && OnlyOnes(t, root, p, |prefix|)
    requires Names(t, folder, rel, id)
    ensures !Shared(t, folder, rel, id)
  {
    assert p[..|prefix + rel|] == prefix + rel && OnlyOne(t, root, p[..|prefix + rel|]);
    NamesConcat(t, root, prefix, folder, rel, id);
    if Shared(t, folder, rel, id) {
      var other :| other != id && Names(t, folder, rel, other);
      NamesConcat(t, root, prefix, folder, rel, other);
    }
  }

  lemma {:induction false} CountedIsListed(listing: seq<Entry>, rel: string)
    requires Count(listing, rel) > 0
    ensures exists e <- listing :: e.rel == rel
  {
    if forall j :: 0 <= j < |listing| ==> listing[j].rel != rel {
      CountNone(listing, rel);
    } else {
      var j :| 0 <= j < |listing| && listing[j].rel == rel;
      assert listing[j] in listing;
    }
  }

  lemma UnsharedOnce(t: Tree, root: Id, prefix: seq<string>, folder: Id, recursive: bool, listing: seq<Entry>,
                     p: seq<string>, rel: seq<string>, e: Entry)
    requires IsTree(t, root) && ListedFrom(t, root, prefix, folder, recursive, listing) && e in listing
    requires IsEntry(t, folder, [], recursive, rel, e) && prefix + rel <= p && OnlyOnes(t, root, p, |prefix|)
    ensures Count(listing, e.rel) == 1
  {
    FoundIsNamed(t, root, prefix);
    SharedTwice(t, root, prefix, folder, p, rel, e.meta.id);
    RepeatedIsShared(t, root, folder, recursive, listing, rel, e);
  }

  lemma EntryIsPath(t: Tree, root: Id, folder: Id, recursive: bool, rel: seq<string>, e: Entry)
    requires IsTree(t, root) && IsEntry(t, folder, [], recursive, rel, e)
    ensures e.rel == Join(rel) && rel != [] && IsPath(rel) && AllNoSlash(rel)
  {
    assert [] + rel == rel;
    NamesIsPath(t, root, folder, rel, e.meta.id);
  }

  lemma UnsharedIsSingle(t: Tree, root: Id, prefix: seq<string>, folder: Id, recursive: bool, listing: seq<Entry>,
                         rel: seq<string>, e: Entry)
    requires IsTree(t, root) && ListedFrom(t, root, prefix, folder, recursive, listing) && e in listing
    requires IsEntry(t, folder, [], recursive, rel, e) && OnlyOnes(t, root, prefix + rel, |prefix|)
    ensures Single(listing, e.rel)
  {
    UnsharedOnce(t, root, prefix, folder, recursive, listing, prefix + rel, rel, e);
    forall a: string | IsUnder(e.rel, a) ensures Count(listing, a) <= 1 {
      if Count(listing, a) > 0 {
        OnTheWayOnce(t, root, prefix, folder, recursive, listing, rel, e, a);
      }
    }
  }

  lemma OnTheWayOnce(t: Tree, root: Id, prefix: seq<string>, folder: Id, recursive: bool, listing: seq<Entry>,
                     rel: seq<string>, e: Entry, a: string)
    requires IsTree(t, root) && ListedFrom(t, root, prefix, folder, recursive, listing) && e in listing
    requires IsEntry(t, folder, [], recursive, rel, e) && OnlyOnes(t, root, prefix + rel, |prefix|)
    requires IsUnder(e.rel, a) && Count(listing, a) > 0
    ensures Count(listing, a) == 1
  {
    var f := ListedWithRel(listing, a);
    EntryIsPath(t, root, folder, recursive, rel, e);
    var above := EntryHasPath(t, root, prefix, folder, recursive, listing, f);
    UnderIsPrefix(e.rel, a);
    hide Count, ListedFrom, OnlyOnes, IsEntry, IsTree, IsUnder, Join, IsPath, AllNoSlash;
    PrefixInText(above, rel);
    PlusKeepsPrefix(prefix, above, rel);
    UnsharedOnce(t, root, prefix, folder, recursive, listing, prefix + rel, above, f);
  }

  lemma ListedWithRel(listing: seq<Entry>, rel: string) returns (e: Entry)
    requires Count(listing, rel) > 0
    ensures e in listing && e.rel == rel
  {
    CountedIsListed(listing, rel);
    e :| e in listing && e.rel == rel;
  }

  lemma PlusKeepsPrefix(p: seq<string>, a: seq<string>, b: seq<string>)
    requires a <= b
    ensures p + a <= p + b
  {
  }

  lemma EntryHasPath(t: Tree, root: Id, prefix: seq<string>, folder: Id, recursive: bool, listing: seq<Entry>, f: Entry)
    returns (rel: seq<string>)
    requires IsTree(t, root) && ListedFrom(t, root, prefix, folder, recursive, listing) && f in listing
    ensures IsEntry(t, folder, [], recursive, rel, f)
    ensures f.rel == Join(rel) && rel != [] && IsPath(rel) && AllNoSlash(rel)
  {
    rel :| IsEntry(t, folder, [], recursive, rel, f);
    EntryIsPath(t, root, folder, recursive, rel, f);
  }

  lemma UnderIsPrefix(rel: string, a: string)
    requires IsUnder(rel, a)
    ensures a + "/" <= rel
  {
  }

  lemma HitIsCached(t: Tree, root: Id, auth: Auth, pattern: string, split: GlobSplit, prefix: seq<string>, folder: Id,
                    listing: seq<Entry>, hit: Hit, p: seq<string>)
    requires IsTree(t, root) && IsPath(prefix) && split.literalPrefix == Join(prefix)
    requires ListedFrom(t, root, prefix, folder, split.recursive, listing)
    requires IsHitOf(pattern, split.literalPrefix, listing, hit) && IsFound(t, root, pattern, p, hit)
    requires OnlyOnes(t, root, p, |prefix|)
    ensures auth.Key(p).ToString() in SingleKeys(auth, split.literalPrefix, listing, |listing|)
  {
    var e :| e in listing && Wanted(pattern, split.literalPrefix, e) && hit == HitOf(split.literalPrefix, listing, e);
    var rel :| IsEntry(t, folder, [], split.recursive, rel, e);
    FoundIsNamed(t, root, prefix);
    NamesConcat(t, root, prefix, folder, rel, e.meta.id);
    OnePath(t, root, p, prefix + rel, e.meta.id);
    UnsharedIsSingle(t, root, prefix, folder, split.recursive, listing, rel, e);
    EntryIsPath(t, root, folder, split.recursive, rel, e);
    JoinFull(prefix, rel);
    KeyIsThere(auth, split.literalPrefix, listing, e);
    hide Single, Count, Sound, Full, Once, OnlyOnes, SingleKeys, MatchesPath;
  }

  lemma KeyIsThere(auth: Auth, prefix: string, listing: seq<Entry>, e: Entry)
    requires e in listing && Single(listing, e.rel)
    ensures KeyOf(auth, prefix, e.rel) in SingleKeys(auth, prefix, listing, |listing|)
  {
    assert listing[..|listing|] == listing;
  }

  lemma HitsAreCached(t: Tree, root: Id, auth: Auth, pattern: string, split: GlobSplit, prefix: seq<string>, folder: Id,
                      listing: seq<Entry>, hits: seq<Hit>, entries: Entries)
    requires IsTree(t, root) && IsPath(prefix) && split.literalPrefix == Join(prefix)
    requires ListedFrom(t, root, prefix, folder, split.recursive, listing)
    requires HitsUpTo(pattern, split.literalPrefix, listing, hits, |listing|)
    requires |prefix| == LiteralLength(Segments(pattern))
    requires SingleKeys(auth, split.literalPrefix, listing, |listing|) <= entries.Keys
    ensures HitsCached(t, root, auth, pattern, entries, hits)
  {
    forall hit, p: seq<string> | hit in hits && IsFound(t, root, pattern, p, hit) && OnlyOnes(t, root, p, |prefix|)
      ensures auth.Key(p).ToString() in entries
    {
      HitIsCached(t, root, auth, pattern, split, prefix, folder, listing, hit, p);
    }
  }

  // Lists what is below the prefix, caches it, and matches it.
  method SearchBelow(cache: GDrivePathCache<Meta>, drive: DriveFolders, auth: Auth, pattern: string, split: GlobSplit,
                     at: Meta, ghost path: seq<string>, ghost f: nat, ghost hit: bool)
    returns (ok: bool, hits: seq<Hit>)
    requires cache.Valid() && drive.Valid() && Reachable(drive.tree, drive.root)
    requires Coherent(drive.tree, drive.root, auth, cache.entries)
    requires HasMeta(pattern) && IsPath(Segments(pattern)) && SplitsAt(pattern, split, f)
    requires path == Segments(pattern)[..f] && Faithful(drive.tree, drive.root, path, Found(at), hit)
    modifies cache, drive`failures
    ensures drive.failures == old(drive.failures) + if ok then 0 else 1
    ensures cache.Valid() && Coherent(drive.tree, drive.root, auth, cache.entries)
    ensures ok ==> FindsAll(drive.tree, drive.root, pattern, hits) && FindsOnly(drive.tree, drive.root, pattern, hits)
    ensures cache.maxEntries == old(cache.maxEntries)
    ensures ok && cache.maxEntries == 0 ==>
      HitsCached(drive.tree, drive.root, auth, pattern, cache.entries, hits)
  {
    hide Coherent, FindsAll, FindsOnly;
    ghost var t, root := drive.tree, drive.root;
    var listing;
    ghost var height := ReachableIsFounded(t, root);
    ok, listing := ListFolder(drive, at.id, "", split.recursive, [], height);
    if !ok {
      return false, [];
    }
    ListedFromReply(t, root, path, at, hit, split.recursive, listing);
    CacheListing(cache, auth, split.literalPrefix, listing, t, root, path, at.id, split.recursive);
    hits := MatchListing(pattern, split.literalPrefix, listing);
    AllFound(t, root, pattern, split, f, at, hit, listing, hits);
    FirstMetaIsLiteralLength(Segments(pattern), f);
    OnlyFound(t, root, pattern, split, path, at.id, listing, hits);
    if cache.maxEntries == 0 {
      HitsAreCached(t, root, auth, pattern, split, path, at.id, listing, hits, cache.entries);
    }
  }

  predicate HasDots(path: seq<string>) { "." in path || ".." in path }

  ghost function Prefix(pattern: string): seq<string> { Segments(pattern)[..LiteralLength(Segments(pattern))] }

  ghost predicate Unsearchable(t: Tree, root: Id, pattern: string) {
    HasDots(Prefix(pattern)) || WalkLeaf(t, root, Prefix(pattern)).Ambiguous?
  }

  // The whole of one pattern with a metacharacter. The prefix is resolved
  // through the cache; what was listed is cached; what matches is returned.
  method GlobOne(cache: GDrivePathCache<Meta>, drive: DriveFolders, auth: Auth, pattern: string)
    returns (ok: bool, hits: seq<Hit>)
    requires cache.Valid() && drive.Valid() && drive.root == auth.RootFolder() && Reachable(drive.tree, drive.root)
    requires Coherent(drive.tree, drive.root, auth, cache.entries)
    requires HasMeta(pattern) && IsPath(Segments(pattern)) && !("id:" <= pattern)
    modifies cache, drive`failures
    // It fails when a request failed, or the prefix cannot be searched.
    ensures drive.failures >= old(drive.failures)
    ensures ok ==> drive.failures == old(drive.failures) && !HasDots(Prefix(pattern))
    ensures !ok && drive.failures == old(drive.failures) ==> Unsearchable(drive.tree, drive.root, pattern)
    ensures cache.Valid() && Coherent(drive.tree, drive.root, auth, cache.entries)
    ensures ok ==> FindsAll(drive.tree, drive.root, pattern, hits) && FindsOnly(drive.tree, drive.root, pattern, hits)
    ensures ok ==> FindsExactly(drive.tree, drive.root, pattern, hits)
    // What it found is cached, in a cache without a limit.
    ensures ok && cache.maxEntries == 0 ==>
      HitsCached(drive.tree, drive.root, auth, pattern, cache.entries, hits)
  {
    hide Coherent, FindsAll, FindsOnly, FindsExactly, HitsCached, Reachable, SplitsAt, Faithful, IsPath, IsTree;
    ghost var t, root := drive.tree, drive.root;
    hits := [];
    var split, f := SplitGlob(pattern);
    PrefixPath(pattern, split, f);
    var path: seq<string> := [];
    if split.literalPrefix != "" {
      path := SplitOnSlash(split.literalPrefix);
    }
    if HasDots(path) {
      return false, [];
    }
    ghost var hit := false;
    var at := RootMeta(auth.RootFolder());
    RootIsFaithful(t, root);
    if path != [] {
      var reply;
      reply, hit := TryResolvePath(cache, drive, auth, path);
      if reply.Failed? || reply.outcome.Ambiguous? {
        AmbiguousIsFaithful(t, root, path, hit);
        return false, [];
      }
      if reply.outcome.NotFound? {
        NothingBelow(t, root, pattern, split, f, hit);
        AllAndOnlyIsExact(t, root, pattern, []);
        NoHitsToCache(t, root, auth, pattern, cache.entries);
        return true, [];
      }
      at := reply.outcome.meta;
    }
    ok, hits := SearchBelow(cache, drive, auth, pattern, split, at, path, f, hit);
    if ok {
      AllAndOnlyIsExact(t, root, pattern, hits);
    }
  }

  lemma AmbiguousIsFaithful(t: Tree, root: Id, path: seq<string>, hit: bool)
    ensures Faithful(t, root, path, Ambiguous, hit) ==> WalkLeaf(t, root, path).Ambiguous?
  {
  }

  lemma NoHitsToCache(t: Tree, root: Id, auth: Auth, pattern: string, entries: Entries)
    ensures HitsCached(t, root, auth, pattern, entries, [])
  {
  }

  lemma RootIsFaithful(t: Tree, root: Id)
    ensures Faithful(t, root, [], Found(RootMeta(root)), false)
  {
  }

  lemma PrefixPath(pattern: string, split: GlobSplit, f: nat)
    requires HasMeta(pattern) && SplitsAt(pattern, split, f) && IsPath(Segments(pattern))
    ensures f <= |Segments(pattern)| && Prefix(pattern) == Segments(pattern)[..f]
    ensures var prefix := Segments(pattern)[..f];
            && IsPath(prefix) && split.literalPrefix == Join(prefix)
            && (if split.literalPrefix == "" then prefix == [] else Segments(split.literalPrefix) == prefix)
  {
    FirstMetaIsLiteralLength(Segments(pattern), f);
    var prefix := Segments(pattern)[..f];
    if f > 0 {
      SegmentsOfJoin(prefix);
      assert IsSegment(prefix[0]);
      assert Join(prefix) != "";
    }
  }

  // The path of a hit never leads to another file, nor to nothing: resolving it
  // gives the hit, exactly when no sibling on the way has the name of the
  // folder there and none has the name of the hit, and is ambiguous otherwise.
  lemma HitAddressesItself(t: Tree, root: Id, pattern: string, hit: Hit, p: seq<string>)
    requires IsTree(t, root) && IsFound(t, root, pattern, p, hit)
    ensures WalkLeaf(t, root, p) == if Alone(t, p, hit.meta.id, false) then Found(hit.meta) else Ambiguous
  {
    NamedIsFoundOrAmbiguous(t, root, p, hit.meta.id);
    FoundIffAlone(t, root, p, hit.meta.id);
    FoundIsThere(t, root, p);
  }

  // The one kind of match that is not listed: `a/**` accepts the path `a`, and
  // a file of that name is not below the prefix ...
  lemma PrefixItselfIsAccepted()
    ensures MatchesPath("a/**", "a") && Segments("a") == ["a"] && LiteralLength(Segments("a/**")) == 1
  {
    var pattern, path := ["a", "**"], ["a"];
    assert pattern[1..] == ["**"] && Join(pattern) == "a/**" && Join(path) == "a";
    SegmentsOfJoin(pattern);
    SegmentsOfJoin(path);
    LiteralMatchesItself("a", "a");
    assert IsMeta("**"[0]) && HasMeta("**");
    FirstMetaIsLiteralLength(pattern, 1);
    assert PathFrom(pattern, 2, path, 1);
    assert PathFrom(pattern, 1, path, 1);
    assert PathFrom(pattern, 0, path, 0);
  }

  // ... so the search does not return it, wherever it is.
  lemma PrefixItselfIsMissed(t: Tree, root: Id, hits: seq<Hit>, file: Id)
    requires FindsExactly(t, root, "a/**", hits) && Names(t, root, ["a"], file) && IsFile(t, file)
    ensures Accepted(t, "a/**", ["a"], file) && !IsAmong(hits, "a", file)
  {
    PrefixItselfIsAccepted();
    assert Join(["a"]) == "a";
  }
}
