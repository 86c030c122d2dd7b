// A whole glob: every expansion of the pattern, each address once, and the
// pattern itself as a name when nothing else matched.
module Globbing {
  import opened Braces
  import opened DriveTree
  import opened GlobListing
  import opened GlobMatches
  import opened GlobPath
  import opened GlobSearch
  import opened Naming
  import opened PathCache
  import opened Paths
  import opened Resolve

  const SCHEME: string := "gdrive://"

  // By id where another listed object has the same path.
  function Address(hit: Hit): string {
    SCHEME + if hit.ambiguous then "id:" + hit.meta.id else hit.path
  }

  // Patterns without an empty segment that do not spell an id.
  ghost predicate IsPathPattern(pattern: string) {
    IsPath(Segments(pattern)) && !("id:" <= pattern)
  }

  // An uncached walk of the path ends at a file.
  ghost predicate FileAt(t: Tree, root: Id, path: seq<string>) {
    !HasDots(path) && WalkLeaf(t, root, path).Found? && !WalkLeaf(t, root, path).meta.folder
  }

  // How a file is to be addressed: by its path, or by its id where the path
  // names another object too.
  ghost function AddressFor(t: Tree, root: Id, p: seq<string>, id: Id): string {
    SCHEME + if Shared(t, root, p, id) then "id:" + id else Join(p)
  }

  lemma HitIsAddressed(t: Tree, root: Id, pattern: string, p: seq<string>, hit: Hit)
    requires IsFound(t, root, pattern, p, hit)
    ensures Address(hit) == AddressFor(t, root, p, hit.meta.id)
  {
  }

  // Two files have different addresses, unless one of them is addressed by its
  // path and that spells the id of the other, which is addressed by its id.
  lemma AddressesDiffer(t: Tree, root: Id, p: seq<string>, a: Id, q: seq<string>, b: Id)
    requires IsTree(t, root) && Names(t, root, p, a) && Names(t, root, q, b) && a != b && p != [] && q != []
    ensures AddressFor(t, root, p, a) == AddressFor(t, root, q, b) <==>
      || (Shared(t, root, p, a) && !Shared(t, root, q, b) && Join(q) == "id:" + a)
      || (Shared(t, root, q, b) && !Shared(t, root, p, a) && Join(p) == "id:" + b)
  {
    var x := if Shared(t, root, p, a) then "id:" + a else Join(p);
    var y := if Shared(t, root, q, b) then "id:" + b else Join(q);
    assert (SCHEME + x)[|SCHEME|..] == x && (SCHEME + y)[|SCHEME|..] == y;
    assert ("id:" + a)[3..] == a && ("id:" + b)[3..] == b;
    if Join(p) == Join(q) {
      NamesIsPath(t, root, root, p, a);
      NamesIsPath(t, root, root, q, b);
      JoinIsInjective(p, q);
    }
  }

  // What one expansion, and nothing else, contributes.
  ghost predicate ResultOf(t: Tree, root: Id, pattern: string, address: string) {
    if HasMeta(pattern) then exists p, id :: IsAddressOf(t, root, pattern, p, id, address)
    else address == SCHEME + pattern && FileAt(t, root, Segments(pattern))
  }

  ghost predicate IsAddressOf(t: Tree, root: Id, pattern: string, p: seq<string>, id: Id, address: string) {
    Names(t, root, p, id) && Sought(t, pattern, p, id) && address == AddressFor(t, root, p, id)
  }

  // The file is looked for under this path and its address is among the results.
  ghost predicate Delivered(t: Tree, root: Id, pattern: string, results: seq<string>, p: seq<string>, id: Id) {
    Sought(t, pattern, p, id) && AddressFor(t, root, p, id) in results
  }

  // Of the files whose paths the pattern accepts, exactly those with a path
  // longer than its literal prefix.
  ghost predicate ReturnsAll(t: Tree, root: Id, pattern: string, results: seq<string>) {
    if HasMeta(pattern) then
      forall p: seq<string>, id: Id :: Names(t, root, p, id) && Accepted(t, pattern, p, id) ==>
        (Delivered(t, root, pattern, results, p, id) <==> |p| > LiteralLength(Segments(pattern)))
    else FileAt(t, root, Segments(pattern)) ==> SCHEME + pattern in results
  }

  ghost predicate IsResult(t: Tree, root: Id, patterns: seq<string>, address: string) {
    exists pattern <- patterns :: ResultOf(t, root, pattern, address)
  }

  // The results are what these expansions contribute.
  ghost predicate Collected(t: Tree, root: Id, patterns: seq<string>, results: seq<string>) {
    && (forall pattern <- patterns :: ReturnsAll(t, root, pattern, results))
    && (forall address <- results :: IsResult(t, root, patterns, address))
  }

  lemma ReturnsAllAmong(t: Tree, root: Id, pattern: string, results: seq<string>, more: seq<string>)
    requires ReturnsAll(t, root, pattern, results) && forall address <- results :: address in more
    ensures ReturnsAll(t, root, pattern, more)
  {
    if HasMeta(pattern) {
      forall p: seq<string>, id: Id | Names(t, root, p, id) && Accepted(t, pattern, p, id)
        ensures Delivered(t, root, pattern, more, p, id) <==> |p| > LiteralLength(Segments(pattern))
      {
        assert Delivered(t, root, pattern, results, p, id) <==> |p| > LiteralLength(Segments(pattern));
      }
    }
  }

  lemma CollectedOneMore(t: Tree, root: Id, patterns: seq<string>, results: seq<string>, pattern: string,
                         more: seq<string>)
    requires Collected(t, root, patterns, results)
    requires ReturnsAll(t, root, pattern, more) && forall address <- more :: ResultOf(t, root, pattern, address)
    ensures Collected(t, root, patterns + [pattern], results + more)
  {
    var longer := patterns + [pattern];
    forall p <- longer ensures ReturnsAll(t, root, p, results + more) {
      ReturnsAllAmong(t, root, p, if p in patterns then results else more, results + more);
    }
    forall address <- results + more ensures IsResult(t, root, longer, address) {
      if address in results {
        var p :| p in patterns && ResultOf(t, root, p, address);
        assert p in longer;
      } else {
        assert pattern in longer && ResultOf(t, root, pattern, address);
      }
    }
  }

  lemma HitsAreResults(t: Tree, root: Id, pattern: string, hits: seq<Hit>, results: seq<string>)
    requires IsTree(t, root) && HasMeta(pattern)
    requires FindsExactly(t, root, pattern, hits) && FindsOnly(t, root, pattern, hits)
    requires |results| == |hits| && forall i :: 0 <= i < |hits| ==> results[i] == Address(hits[i])
    ensures ReturnsAll(t, root, pattern, results) && forall address <- results :: ResultOf(t, root, pattern, address)
  {
    forall p: seq<string>, id: Id | Names(t, root, p, id) && Accepted(t, pattern, p, id)
      ensures Delivered(t, root, pattern, results, p, id) <==> |p| > LiteralLength(Segments(pattern))
    {
      if IsAmong(hits, Join(p), id) {
        var i :| 0 <= i < |hits| && hits[i].path == Join(p) && hits[i].meta.id == id;
        assert results[i] == Address(hits[i]) && hits[i] in hits;
        var q :| IsFound(t, root, pattern, q, hits[i]);
        OnePath(t, root, p, q, id);
        HitIsAddressed(t, root, pattern, p, hits[i]);
      }
    }
    forall address <- results ensures ResultOf(t, root, pattern, address) {
      var i :| 0 <= i < |results| && results[i] == address;
      assert hits[i] in hits;
      var p :| IsFound(t, root, pattern, p, hits[i]);
      HitIsAddressed(t, root, pattern, p, hits[i]);
      assert IsAddressOf(t, root, pattern, p, hits[i].meta.id, address);
    }
  }

  ghost predicate NoIdNames(t: Tree, root: Id) {
    forall x <- t :: t[x].parent == root ==> !("id:" <= t[x].name)
  }

  lemma NoIdPath(t: Tree, root: Id, q: seq<string>, x: Id)
    requires IsTree(t, root) && Names(t, root, q, x) && q != [] && NoIdNames(t, root)
    ensures !("id:" <= Join(q)) && AllNoSlash(q)
  {
    var first, front := Above(t, root, q, x, 1), q[..1];
    assert front[..|front| - 1] == [] && Names(t, root, front[..|front| - 1], t[first].parent);
    assert t[first].name == q[0] && IsSegment(q[0]);
    NamesIsPath(t, root, root, q, x);
    if |q| > 1 {
      IdInFirst(q[0], Join(q[1..]));
    }
  }

  lemma IdInFirst(first: string, rest: string)
    ensures "id:" <= first + "/" + rest ==> "id:" <= first
  {
    var text := first + "/" + rest;
    assert text[|first|] == '/' && text[..|first|] == first;
    assert "id:"[0] == 'i' && "id:"[1] == 'd' && "id:"[2] == ':';
  }

  // An address that is a path is no other file's, and neither is one that is an id.
  lemma OtherAddress(t: Tree, root: Id, q: seq<string>, other: Id, p: seq<string>, id: Id)
    requires IsTree(t, root) && NoIdNames(t, root) && Names(t, root, p, id) && Names(t, root, q, other)
    requires p != q && p != [] && q != []
    ensures AddressFor(t, root, q, other) != SCHEME + Join(p) && AddressFor(t, root, q, other) != SCHEME + "id:" + id
  {
    NoIdPath(t, root, q, other);
    NoIdPath(t, root, p, id);
    var x := if Shared(t, root, q, other) then "id:" + other else Join(q);
    assert (SCHEME + x)[|SCHEME|..] == x && (SCHEME + Join(p))[|SCHEME|..] == Join(p);
    assert SCHEME + "id:" + id == SCHEME + ("id:" + id) && (SCHEME + ("id:" + id))[|SCHEME|..] == "id:" + id;
    assert ("id:" + other)[3..] == other && ("id:" + id)[3..] == id;
    if other == id {
      OnePath(t, root, p, q, id);
    }
    if Join(p) == Join(q) {
      JoinIsInjective(p, q);
    }
  }

  // Where no name at the top looks like an id, neither address of a file at the
  // literal prefix itself is returned.
  lemma PrefixIsNotReturned(t: Tree, root: Id, pattern: string, results: seq<string>, p: seq<string>, id: Id)
    requires IsTree(t, root) && NoIdNames(t, root) && HasMeta(pattern)
    requires Names(t, root, p, id) && p != [] && |p| <= LiteralLength(Segments(pattern))
    requires forall address <- results :: ResultOf(t, root, pattern, address)
    ensures SCHEME + Join(p) !in results && SCHEME + "id:" + id !in results
  {
    forall address <- results ensures address != SCHEME + Join(p) && address != SCHEME + "id:" + id {
      assert ResultOf(t, root, pattern, address);
      var q, other :| IsAddressOf(t, root, pattern, q, other, address);
      OtherAddress(t, root, q, other, p, id);
    }
  }

  // An expansion for which nothing can be returned: its prefix, or the path it
  // is, is ambiguous or has a dot for a name.
  ghost predicate Hopeless(t: Tree, root: Id, pattern: string) {
    if HasMeta(pattern) then Unsearchable(t, root, pattern) else WalkLeaf(t, root, Segments(pattern)).Ambiguous?
  }

  // A pattern without metacharacters is a path.
  method ResolveLiteral(cache: GDrivePathCache<Meta>, drive: DriveFolders, auth: Auth, pattern: string)
    returns (ok: bool, found: bool)
    requires cache.Valid() && drive.Valid() && drive.root == auth.RootFolder() && IsPathPattern(pattern)
    requires Coherent(drive.tree, drive.root, auth, cache.entries)
    modifies cache, drive`failures
    ensures drive.failures >= old(drive.failures)
    ensures cache.Valid() && Coherent(drive.tree, drive.root, auth, cache.entries)
    ensures ok ==> (found <==> FileAt(drive.tree, drive.root, Segments(pattern)))
    ensures !ok && drive.failures == old(drive.failures) ==>
      WalkLeaf(drive.tree, drive.root, Segments(pattern)).Ambiguous?
  {
    var path := SplitOnSlash(pattern);
    if HasDots(path) {
      return true, false;
    }
    var reply;
    ghost var hit;
    reply, hit := TryResolvePath(cache, drive, auth, path);
    if reply.Failed? || reply.outcome.Ambiguous? {
      return false, false;
    }
    FolderOrLeaf(drive.tree, drive.root, path);
    ok, found := true, reply.outcome.Found? && !reply.outcome.meta.folder;
  }

  method OneExpansion(cache: GDrivePathCache<Meta>, drive: DriveFolders, auth: Auth, pattern: string)
    returns (ok: bool, results: seq<string>)
    requires cache.Valid() && drive.Valid() && drive.root == auth.RootFolder() && Reachable(drive.tree, drive.root)
    requires Coherent(drive.tree, drive.root, auth, cache.entries) && IsPathPattern(pattern)
    modifies cache, drive`failures
    ensures drive.failures >= old(drive.failures)
    ensures cache.Valid() && Coherent(drive.tree, drive.root, auth, cache.entries)
    ensures !ok && drive.failures == old(drive.failures) ==> Hopeless(drive.tree, drive.root, pattern)
    ensures ok ==> ReturnsAll(drive.tree, drive.root, pattern, results)
    ensures ok ==> forall address <- results :: ResultOf(drive.tree, drive.root, pattern, address)
  {
    results := [];
    var meta := HasGlobMetacharacters(pattern);
    if !meta {
      var found;
      ok, found := ResolveLiteral(cache, drive, auth, pattern);
      if ok && found {
        results := [SCHEME + pattern];
      }
      return;
    }
    var hits;
    ok, hits := GlobOne(cache, drive, auth, pattern);
    if !ok {
      return;
    }
    for i := 0 to |hits|
      invariant |results| == i && forall j :: 0 <= j < i ==> results[j] == Address(hits[j])
    {
      results := results + [Address(hits[i])];
    }
    HitsAreResults(drive.tree, drive.root, pattern, hits, results);
  }

  predicate NoneTwice(results: seq<string>) {
    forall i, j :: 0 <= i < j < |results| ==> results[i] != results[j]
  }

  method OnceEach(results: seq<string>) returns (once: seq<string>)
    ensures NoneTwice(once) && forall address :: address in once <==> address in results
  {
    once := [];
    var seen: set<string> := {};
    for i := 0 to |results|
      invariant NoneTwice(once)
      invariant forall address :: address in once <==> address in results[..i]
      invariant forall address :: address in once <==> address in seen
    {
      if results[i] !in seen {
        seen := seen + {results[i]};
        once := once + [results[i]];
      }
      assert results[..i + 1] == results[..i] + [results[i]];
    }
    assert results[..|results|] == results;
  }

  lemma SameMembersCollected(t: Tree, root: Id, patterns: seq<string>, results: seq<string>, once: seq<string>)
    requires Collected(t, root, patterns, results) && forall address :: address in once <==> address in results
    ensures Collected(t, root, patterns, once)
  {
    forall pattern <- patterns ensures ReturnsAll(t, root, pattern, once) {
      ReturnsAllAmong(t, root, pattern, results, once);
    }
  }

  method Glob(cache: GDrivePathCache<Meta>, drive: DriveFolders, auth: Auth, pattern: string)
    returns (ok: bool, results: seq<string>)
    requires cache.Valid() && drive.Valid() && drive.root == auth.RootFolder() && Reachable(drive.tree, drive.root)
    requires Coherent(drive.tree, drive.root, auth, cache.entries)
    requires IsPathPattern(pattern) && forall e <- Product(pattern) :: IsPathPattern(e)
    modifies cache, drive`failures
    ensures drive.failures >= old(drive.failures)
    ensures cache.Valid() && Coherent(drive.tree, drive.root, auth, cache.entries)
    // It fails when a request failed, when the pattern has a dot for a name or
    // expands to too much, or when an expansion, or the pattern as a path, is
    // ambiguous.
    ensures !ok && drive.failures == old(drive.failures) ==>
      || HasDots(Segments(pattern)) || WalkLeaf(drive.tree, drive.root, Segments(pattern)).Ambiguous?
      || (HasMeta(pattern) && (!WithinLimits(pattern)
                               || exists e <- Product(pattern) :: Hopeless(drive.tree, drive.root, e)))
    ensures HasDots(Segments(pattern)) ==> !ok
    // Rejected outright when it expands to too much; otherwise all that any
    // expansion names and only that, no address twice.
    ensures ok && HasMeta(pattern) ==> WithinLimits(pattern) && NoneTwice(results)
    ensures ok && HasMeta(pattern) ==>
      || Collected(drive.tree, drive.root, Product(pattern), results)
      || (results == [SCHEME + pattern] && Collected(drive.tree, drive.root, Product(pattern), [])
          && FileAt(drive.tree, drive.root, Segments(pattern)))
    ensures ok && HasMeta(pattern) && results == [] ==> !FileAt(drive.tree, drive.root, Segments(pattern))
    ensures ok && !HasMeta(pattern) ==>
      results == if FileAt(drive.tree, drive.root, Segments(pattern)) then [SCHEME + pattern] else []
  {
    ghost var t, root := drive.tree, drive.root;
    results := [];
    var segments := SplitOnSlash(pattern);
    if HasDots(segments) {
      return false, [];
    }
    var found;
    var meta := HasGlobMetacharacters(pattern);
    if !meta {
      ok, found := ResolveLiteral(cache, drive, auth, pattern);
      results := if found then [SCHEME + pattern] else [];
      return;
    }
    var expanded, pushes := ExpandBraces(pattern);
    ProductIsNotEmpty(pattern);
    if expanded == [] {
      return false, [];
    }
    ok, results := AllExpansions(cache, drive, auth, expanded);
    if !ok {
      return;
    }
    ghost var all := results;
    results := OnceEach(results);
    SameMembersCollected(t, root, expanded, all, results);
    if results == [] {
      ok, found := ResolveLiteral(cache, drive, auth, pattern);
      if found {
        results := [SCHEME + pattern];
      }
    }
  }

  method AllExpansions(cache: GDrivePathCache<Meta>, drive: DriveFolders, auth: Auth, expanded: seq<string>)
    returns (ok: bool, results: seq<string>)
    requires cache.Valid() && drive.Valid() && drive.root == auth.RootFolder() && Reachable(drive.tree, drive.root)
    requires Coherent(drive.tree, drive.root, auth, cache.entries) && forall e <- expanded :: IsPathPattern(e)
    modifies cache, drive`failures
    ensures drive.failures >= old(drive.failures)
    ensures cache.Valid() && Coherent(drive.tree, drive.root, auth, cache.entries)
    ensures ok ==> Collected(drive.tree, drive.root, expanded, results)
    ensures !ok && drive.failures == old(drive.failures) ==>
      exists e <- expanded :: Hopeless(drive.tree, drive.root, e)
  {
    ghost var t, root := drive.tree, drive.root;
    results := [];
    for k := 0 to |expanded|
      invariant cache.Valid() && Coherent(t, root, auth, cache.entries)
      invariant Collected(t, root, expanded[..k], results) && drive.failures >= old(drive.failures)
    {
      var more;
      ghost var failures := drive.failures;
      ok, more := OneExpansion(cache, drive, auth, expanded[k]);
      assert !ok && drive.failures == failures ==> Hopeless(t, root, expanded[k]);
      if !ok {
        return;
      }
      CollectedOneMore(t, root, expanded[..k], results, expanded[k], more);
      assert expanded[..k + 1] == expanded[..k] + [expanded[k]];
      results := results + more;
    }
    assert expanded[..|expanded|] == expanded;
    ok := true;
  }
}
