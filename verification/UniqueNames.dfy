// Trees in which no two siblings share a name, path caches in which every
// entry is the object its path names, and what keeps both.
module UniqueNames {
  import opened DriveTree
  import opened Naming
  import opened PathCache
  import opened Paths
  import opened Resolve

  ghost predicate Unique(t: Tree) {
    forall id <- t :: Named(t, t[id].parent, t[id].name, false) == {id}
  }

  ghost predicate NamesMeta(t: Tree, root: Id, path: seq<string>, meta: Meta) {
    Names(t, root, path, meta.id) && meta.id in t && meta == MetaOf(t, meta.id)
  }

  ghost predicate NamedAt(t: Tree, root: Id, auth: Auth, entries: Entries, path: seq<string>) {
    var k := auth.Key(path).ToString();
    k in entries ==> NamesMeta(t, root, path, entries[k].meta)
  }

  // Every entry is the object its path names.
  ghost predicate AllNamed(t: Tree, root: Id, auth: Auth, entries: Entries) {
    forall path: seq<string> :: IsPath(path) && path != [] ==> NamedAt(t, root, auth, entries, path)
  }

  lemma PickIsNotAmbiguous(t: Tree, parent: Id, name: string, folderOnly: bool)
    requires Unique(t)
    ensures !Pick(t, parent, name, folderOnly).Ambiguous?
  {
  }

  lemma {:induction false} NeverAmbiguous(t: Tree, root: Id, path: seq<string>)
    requires Unique(t)
    ensures !WalkFolder(t, root, path).Ambiguous? && !WalkLeaf(t, root, path).Ambiguous?
    decreases |path|
  {
    if path != [] {
      var n := |path| - 1;
      NeverAmbiguous(t, root, path[..n]);
      var at := WalkFolder(t, root, path[..n]);
      if at.Found? {
        PickIsNotAmbiguous(t, at.meta.id, path[n], true);
        PickIsNotAmbiguous(t, at.meta.id, path[n], false);
      }
    }
  }

  // With unique names the walk finds exactly what the path names.
  lemma WalkIsNaming(t: Tree, root: Id, path: seq<string>, meta: Meta)
    requires IsTree(t, root) && Unique(t) && path != []
    ensures WalkLeaf(t, root, path) == Found(meta) <==> NamesMeta(t, root, path, meta)
    ensures Right(t, root, path, meta) <==> NamesMeta(t, root, path, meta)
  {
    NeverAmbiguous(t, root, path);
    FoundIsNamed(t, root, path);
    FoundIsThere(t, root, path);
    FolderOrLeaf(t, root, path);
    if NamesMeta(t, root, path, meta) {
      NamedIsFoundOrAmbiguous(t, root, path, meta.id);
    }
  }

  lemma AllNamedIsCoherent(t: Tree, root: Id, auth: Auth, entries: Entries)
    requires IsTree(t, root) && Unique(t)
    ensures AllNamed(t, root, auth, entries) <==> Coherent(t, root, auth, entries)
  {
    forall path: seq<string> | IsPath(path) && path != []
      ensures NamedAt(t, root, auth, entries, path) <==> RightAt(t, root, auth, entries, path)
    {
      var k := auth.Key(path).ToString();
      if k in entries {
        WalkIsNaming(t, root, path, entries[k].meta);
      }
    }
  }

  // What resolving a path amounts to here.
  ghost predicate Resolves(t: Tree, root: Id, path: seq<string>, outcome: Outcome) {
    match outcome
    case Found(meta) => if path == [] then meta == RootMeta(root) else NamesMeta(t, root, path, meta)
    case NotFound => forall id :: !Names(t, root, path, id)
    case Ambiguous => false
  }

  lemma FaithfulResolves(t: Tree, root: Id, path: seq<string>, outcome: Outcome, hit: bool)
    requires IsTree(t, root) && Unique(t) && Faithful(t, root, path, outcome, hit)
    ensures Resolves(t, root, path, outcome)
  {
    NeverAmbiguous(t, root, path);
    if path != [] && outcome.Found? {
      WalkIsNaming(t, root, path, outcome.meta);
    }
    if outcome.NotFound? {
      forall id ensures !Names(t, root, path, id) {
        if Names(t, root, path, id) {
          NamedIsFoundOrAmbiguous(t, root, path, id);
        }
      }
    }
  }

  // A path names one object at most.
  lemma {:induction false} OneOwner(t: Tree, root: Id, path: seq<string>, a: Id, b: Id)
    requires Unique(t) && Names(t, root, path, a) && Names(t, root, path, b)
    ensures a == b
    decreases |path|
  {
    if path != [] {
      var n := |path| - 1;
      OneOwner(t, root, path[..n], t[a].parent, t[b].parent);
      assert b in Named(t, t[a].parent, path[n], false);
    }
  }

  // ----- Names survive what does not concern them -----

  lemma {:induction false} NamesGrow(t: Tree, after: Tree, base: Id, path: seq<string>, id: Id)
    requires Names(t, base, path, id) && forall x <- t :: x in after && after[x] == t[x]
    ensures Names(after, base, path, id)
    decreases |path|
  {
    if path != [] {
      NamesGrow(t, after, base, path[..|path| - 1], t[id].parent);
    }
  }

  // A new object in a free slot.
  lemma AddedIsUnique(t: Tree, root: Id, id: Id, parent: Id, name: string, folder: bool)
    requires IsTree(t, root) && Unique(t) && IsFolder(t, root, parent) && IsSegment(name)
    requires id !in t && id != root && Named(t, parent, name, false) == {}
    ensures var after := t[id := Obj(parent, name, folder)];
            IsTree(after, root) && Unique(after) && Children(after, id) == {}
  {
  }

  lemma AllNamedGrow(t: Tree, after: Tree, root: Id, auth: Auth, entries: Entries)
    requires AllNamed(t, root, auth, entries) && forall x <- t :: x in after && after[x] == t[x]
    ensures AllNamed(after, root, auth, entries)
  {
    forall path: seq<string> | IsPath(path) && path != [] ensures NamedAt(after, root, auth, entries, path) {
      assert NamedAt(t, root, auth, entries, path);
      var k := auth.Key(path).ToString();
      if k in entries {
        NamesGrow(t, after, root, path, entries[k].meta.id);
      }
    }
  }

  // Deleting leaves the others, and their names.
  lemma {:induction false} NamesSurviveDelete(t: Tree, root: Id, after: Tree, gone: Id, path: seq<string>, id: Id)
    requires DeletedFrom(t, after, gone) && Names(t, root, path, id) && !Under(t, gone, id)
    ensures Names(after, root, path, id)
    decreases |path|
  {
    if path != [] {
      var parent := t[id].parent;
      if Under(t, gone, parent) {
        ChildIsUnder(t, gone, id);
      } else {
        NamesSurviveDelete(t, root, after, gone, path[..|path| - 1], parent);
      }
    }
  }

  lemma DeletedIsUnique(t: Tree, after: Tree, gone: Id)
    requires Unique(t) && DeletedFrom(t, after, gone)
    ensures Unique(after)
  {
  }

  // What lies under an object has its path as a prefix.
  lemma UnderIsBelow(t: Tree, root: Id, top: seq<string>, gone: Id, path: seq<string>, id: Id)
    requires root !in t && Names(t, root, top, gone) && Names(t, root, path, id) && Under(t, gone, id)
    ensures top <= path
  {
    var rest :| Names(t, gone, rest, id);
    NamesConcat(t, root, top, gone, rest, id);
    OnePath(t, root, path, top + rest, id);
  }

  // A moved object takes only its own path and those below it along.
  lemma {:induction false} NamesSurviveMove(t: Tree, root: Id, after: Tree, source: seq<string>, moved: Id,
                                            parent: Id, name: string, path: seq<string>, id: Id)
    requires root !in t && MovedInto(t, root, after, moved, parent, name)
    requires Names(t, root, source, moved) && Names(t, root, path, id) && !(source <= path)
    ensures Names(after, root, path, id)
    decreases |path|
  {
    if path != [] {
      if id == moved {
        OnePath(t, root, path, source, id);
      } else {
        NamesSurviveMove(t, root, after, source, moved, parent, name, path[..|path| - 1], t[id].parent);
      }
    }
  }

  // The new place is not under the old one.
  lemma NotUnderItself(t: Tree, root: Id, source: seq<string>, moved: Id, path: seq<string>, parent: Id)
    requires Unique(t) && Names(t, root, source, moved) && Names(t, root, path, parent) && !Under(t, moved, parent)
    ensures !(source <= path)
  {
    if source <= path {
      var top := Above(t, root, path, parent, |source|);
      assert path[..|source|] == source;
      OneOwner(t, root, source, top, moved);
    }
  }

  // What lies under a moved object goes along.
  lemma {:induction false} NamesGoAlong(t: Tree, root: Id, after: Tree, source: seq<string>, moved: Id,
                                        parent: Id, name: string, rest: seq<string>, id: Id)
    requires root !in t && MovedInto(t, root, after, moved, parent, name)
    requires Names(t, root, source, moved) && Names(t, moved, rest, id)
    ensures Names(after, moved, rest, id)
    decreases |rest|
  {
    if rest != [] {
      NamesConcat(t, root, source, moved, rest, id);
      if id == moved {
        OnePath(t, root, source + rest, source, id);
      } else {
        NamesGoAlong(t, root, after, source, moved, parent, name, rest[..|rest| - 1], t[id].parent);
      }
    }
  }

  lemma MovedIsTree(t: Tree, root: Id, after: Tree, moved: Id, parent: Id, name: string)
    requires IsTree(t, root) && MovedInto(t, root, after, moved, parent, name) && IsSegment(name)
    ensures IsTree(after, root)
  {
  }

  // Moving keeps names unique exactly when nothing else sits in the new place.
  lemma MovedIsUnique(t: Tree, root: Id, after: Tree, moved: Id, parent: Id, name: string)
    requires Unique(t) && MovedInto(t, root, after, moved, parent, name)
    ensures Unique(after) <==> Named(t, parent, name, false) <= {moved}
  {
  }

  // Moving onto another object and then deleting that object.
  lemma ReplacedIsUnique(t: Tree, root: Id, middle: Tree, after: Tree, moved: Id, parent: Id, name: string,
                         replaced: Id)
    requires Unique(t) && MovedInto(t, root, middle, moved, parent, name) && DeletedFrom(middle, after, replaced)
    requires Named(t, parent, name, false) <= {moved, replaced}
    ensures Unique(after)
  {
    assert Names(middle, replaced, [], replaced);
    forall y <- after | y != moved ensures t[y].parent != parent || t[y].name != name {
      assert y != replaced && y !in Named(t, parent, name, false);
    }
    forall x <- after ensures Named(after, after[x].parent, after[x].name, false) == {x} {
      var siblings := Named(after, after[x].parent, after[x].name, false);
      assert x in siblings;
      forall y <- siblings ensures y == x {
        if x != moved && y != moved {
          assert y in Named(t, t[x].parent, t[x].name, false);
        }
      }
    }
  }

  // Renaming keeps names unique exactly when the new name is not taken.
  lemma RenamedIsUnique(t: Tree, id: Id, name: string)
    requires Unique(t) && id in t && t[id].name != name
    ensures Unique(Renamed(t, id, name)) <==> Named(t, t[id].parent, name, false) == {}
  {
    var after, taken := Renamed(t, id, name), Named(t, t[id].parent, name, false);
    if taken != {} {
      var other :| other in taken;
      assert other in Named(after, t[id].parent, name, false) && after[id].name == name;
      assert id in Named(after, t[id].parent, name, false);
    }
  }

  // It takes every path through the object away ...
  lemma {:induction false} RenamedPathBreaks(t: Tree, root: Id, id: Id, name: string, rest: seq<string>,
                                             path: seq<string>, x: Id)
    requires root !in t && id in t && t[id].name != name
    requires Names(t, id, rest, x) && Names(t, root, path, x)
    ensures !Names(Renamed(t, id, name), root, path, x)
    decreases |rest|
  {
    assert path != [];
    if rest != [] {
      RenamedPathBreaks(t, root, id, name, rest[..|rest| - 1], path[..|path| - 1], t[x].parent);
    }
  }

  // ... and no other.
  lemma {:induction false} RenamedPathHolds(t: Tree, root: Id, id: Id, name: string, path: seq<string>, x: Id)
    requires Names(t, root, path, x) && !Under(t, id, x)
    ensures Names(Renamed(t, id, name), root, path, x)
    decreases |path|
  {
    assert Names(t, id, [], id);
    if path != [] {
      if Under(t, id, t[x].parent) {
        ChildIsUnder(t, id, x);
      } else {
        RenamedPathHolds(t, root, id, name, path[..|path| - 1], t[x].parent);
      }
    }
  }

  // Nothing at or under the object is cached.
  ghost predicate Uncached(t: Tree, auth: Auth, entries: Entries, id: Id) {
    forall path: seq<string> :: IsPath(path) && path != [] ==> UncachedAt(t, auth, entries, id, path)
  }

  ghost predicate UncachedAt(t: Tree, auth: Auth, entries: Entries, id: Id, path: seq<string>) {
    var k := auth.Key(path).ToString();
    k in entries ==> !Under(t, id, entries[k].meta.id)
  }

  lemma RenamedAt(t: Tree, root: Id, auth: Auth, entries: Entries, id: Id, name: string, path: seq<string>)
    requires IsTree(t, root) && id in t && t[id].name != name && NamedAt(t, root, auth, entries, path)
    ensures NamedAt(Renamed(t, id, name), root, auth, entries, path) <==> UncachedAt(t, auth, entries, id, path)
  {
    var k := auth.Key(path).ToString();
    if k in entries {
      var x := entries[k].meta.id;
      if Under(t, id, x) {
        var rest :| Names(t, id, rest, x);
        RenamedPathBreaks(t, root, id, name, rest, path, x);
      } else {
        assert Names(t, id, [], id);
        RenamedPathHolds(t, root, id, name, path, x);
      }
    }
  }

  lemma RenamedAllNamed(t: Tree, root: Id, auth: Auth, entries: Entries, id: Id, name: string)
    requires IsTree(t, root) && AllNamed(t, root, auth, entries) && id in t && t[id].name != name
    ensures AllNamed(Renamed(t, id, name), root, auth, entries) <==> Uncached(t, auth, entries, id)
  {
    forall path: seq<string> | IsPath(path) && path != []
      ensures NamedAt(Renamed(t, id, name), root, auth, entries, path) <==> UncachedAt(t, auth, entries, id, path)
    {
      assert NamedAt(t, root, auth, entries, path);
      RenamedAt(t, root, auth, entries, id, name, path);
    }
  }

  // ----- Invalidation -----

  // What InvalidatePrefix leaves of the entries.
  function Invalidated(entries: Entries, key: CacheKey): Entries {
    map k <- entries | !IsHit(k, key) :: entries[k]
  }

  lemma InvalidatedAt(auth: Auth, entries: Entries, gone: seq<string>, path: seq<string>)
    requires IsPath(gone) && IsPath(path) && gone != [] && path != []
    ensures auth.Key(path).ToString() in Invalidated(entries, auth.Key(gone)) <==>
      auth.Key(path).ToString() in entries && !(gone <= path)
  {
    OwnHitMeans(auth.Key(path), auth.Key(gone));
    AtOrBelow(path, gone);
  }

  // Deleting what a path names, and dropping the entries at or below the path.
  lemma DeletedAllNamed(t: Tree, root: Id, after: Tree, auth: Auth, entries: Entries, path: seq<string>, gone: Id)
    requires IsTree(t, root) && AllNamed(t, root, auth, entries) && IsPath(path) && path != []
    requires Names(t, root, path, gone) && DeletedFrom(t, after, gone)
    ensures AllNamed(after, root, auth, Invalidated(entries, auth.Key(path)))
  {
    forall p: seq<string> | IsPath(p) && p != []
      ensures NamedAt(after, root, auth, Invalidated(entries, auth.Key(path)), p)
    {
      InvalidatedAt(auth, entries, path, p);
      assert NamedAt(t, root, auth, entries, p);
      var k := auth.Key(p).ToString();
      if k in entries && !(path <= p) {
        var id := entries[k].meta.id;
        if Under(t, gone, id) {
          UnderIsBelow(t, root, path, gone, p, id);
        } else {
          NamesSurviveDelete(t, root, after, gone, p, id);
        }
      }
    }
  }
}
