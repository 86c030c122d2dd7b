// Writing, moving and removing by path, for one client whose open writes do
// not overlap, on a tree whose siblings have different names: names stay
// unique and every cached path keeps naming its object.
module Mutations {
  import opened DriveTree
  import opened Naming
  import opened Options
  import opened PathCache
  import opened Paths
  import opened Resolve
  import opened UniqueNames

  // A file opened for writing: where it goes, and what it overwrites.
  datatype Pending = Pending(parent: Id, name: string, existing: Option<Id>)

  // Where an open write will create a file there is nothing yet.
  ghost predicate SlotsFree(t: Tree, issued: set<Id>, writes: set<Pending>) {
    forall w <- writes ::
      && IsSegment(w.name) && w.parent in issued
      && (match w.existing
          case None => Named(t, w.parent, w.name, false) == {}
          case Some(id) => id in issued)
  }

  ghost predicate Sane(t: Tree, root: Id, issued: set<Id>, auth: Auth, entries: Entries, writes: set<Pending>) {
    && IsTree(t, root) && Unique(t) && t.Keys + {root} <= issued
    && AllNamed(t, root, auth, entries)
    && SlotsFree(t, issued, writes)
  }

  // What an open write overwrites still has the name it was opened under.
  ghost predicate InPlace(t: Tree, w: Pending) {
    w.existing.Some? && w.existing.value in t ==> t[w.existing.value].name == w.name
  }

  ghost predicate Undisturbed(t: Tree, writes: set<Pending>) { forall w <- writes :: InPlace(t, w) }

  lemma NewStaysUndisturbed(t: Tree, root: Id, issued: set<Id>, auth: Auth, entries: Entries, writes: set<Pending>,
                            id: Id, o: Obj)
    requires Sane(t, root, issued, auth, entries, writes) && id !in issued
    ensures Undisturbed(t, writes) ==> Undisturbed(t[id := o], writes)
  {
    if Undisturbed(t, writes) {
      forall w <- writes ensures InPlace(t[id := o], w) {
        assert InPlace(t, w);
      }
    }
  }

  // When giving an object this name does no harm: it has it already, or the
  // name is free, not awaited, and nothing at or under the object is cached.
  ghost predicate Harmless(t: Tree, auth: Auth, entries: Entries, writes: set<Pending>, id: Id, name: string) {
    id in t && t[id].name != name ==>
      && Named(t, t[id].parent, name, false) == {}
      && Pending(t[id].parent, name, None) !in writes
      && Uncached(t, auth, entries, id)
  }

  lemma RenamedIsSane(t: Tree, root: Id, issued: set<Id>, auth: Auth, entries: Entries, writes: set<Pending>, id: Id,
                      name: string)
    requires Sane(t, root, issued, auth, entries, writes) && IsSegment(name)
    ensures Sane(Renamed(t, id, name), root, issued, auth, entries, writes) <==>
      Harmless(t, auth, entries, writes, id, name)
  {
    hide Unique, AllNamed, Uncached, SlotsFree;
    var after := Renamed(t, id, name);
    if id in t && t[id].name != name {
      RenamedIsUnique(t, id, name);
      RenamedAllNamed(t, root, auth, entries, id, name);
      RenamedSlots(t, issued, writes, id, name);
    } else {
      assert after == t;
    }
  }

  // With everything in place, a closing overwrite changes no name.
  lemma RenamedUndisturbed(t: Tree, writes: set<Pending>, w: Pending)
    requires w in writes && w.existing.Some?
    ensures InPlace(t, w) ==> Renamed(t, w.existing.value, w.name) == t
    ensures Undisturbed(t, writes) ==> InPlace(t, w)
  {
  }

  lemma RenamedSlots(t: Tree, issued: set<Id>, writes: set<Pending>, id: Id, name: string)
    requires SlotsFree(t, issued, writes) && id in t && t[id].name != name
    ensures SlotsFree(Renamed(t, id, name), issued, writes) <==> Pending(t[id].parent, name, None) !in writes
  {
    var after, awaited := Renamed(t, id, name), Pending(t[id].parent, name, None);
    assert after[id].parent == t[id].parent && id in Named(after, awaited.parent, awaited.name, false);
    forall w <- writes | w.existing.None? && w != awaited ensures Named(after, w.parent, w.name, false) == {} {
      assert w == Pending(w.parent, w.name, None);
      assert Named(after, w.parent, w.name, false) <= Named(t, w.parent, w.name, false) == {};
    }
  }

  lemma MoreIssued(t: Tree, root: Id, issued: set<Id>, auth: Auth, entries: Entries, writes: set<Pending>,
                   later: set<Id>)
    requires Sane(t, root, issued, auth, entries, writes) && issued <= later
    ensures Sane(t, root, later, auth, entries, writes)
  {
  }

  lemma FewerWrites(t: Tree, root: Id, issued: set<Id>, auth: Auth, entries: Entries, writes: set<Pending>,
                    fewer: set<Pending>)
    requires Sane(t, root, issued, auth, entries, writes) && fewer <= writes
    ensures Sane(t, root, issued, auth, entries, fewer)
    ensures Undisturbed(t, writes) ==> Undisturbed(t, fewer)
  {
  }

  lemma FreeAndNotIssued(t: Tree, root: Id, issued: set<Id>, auth: Auth, entries: Entries, writes: set<Pending>,
                         w: Pending)
    requires Sane(t, root, issued, auth, entries, writes) && w in writes
    ensures IsSegment(w.name) && (w.existing.None? ==> Named(t, w.parent, w.name, false) == {})
  {
  }

  ghost predicate FileOn(t: Tree, root: Id, path: seq<string>) {
    exists x :: Names(t, root, path, x) && x in t && !t[x].folder
  }

  ghost predicate FolderOn(t: Tree, root: Id, path: seq<string>) {
    exists x :: Names(t, root, path, x) && IsFolder(t, root, x)
  }

  function ParentOf(path: seq<string>): seq<string> { if path == [] then [] else path[..|path| - 1] }

  ghost predicate NothingOn(t: Tree, root: Id, path: seq<string>) { forall x :: !Names(t, root, path, x) }

  // A file stands where a folder on the way to the path would be.
  ghost predicate Blocked(t: Tree, root: Id, path: seq<string>) {
    exists k :: 0 < k < |path| && FileOn(t, root, path[..k])
  }

  // Why a move may fail though every request was answered.
  ghost predicate CannotMove(t: Tree, root: Id, source: seq<string>, target: seq<string>) {
    || source == [] || target == []
    || NothingOn(t, root, source)
    || !FolderOn(t, root, ParentOf(target))
    || source < target
  }

  lemma WhatIsOn(t: Tree, root: Id, path: seq<string>, outcome: Outcome)
    requires root !in t && Unique(t) && Resolves(t, root, path, outcome)
    ensures FileOn(t, root, path) <==> outcome.Found? && !outcome.meta.folder
    ensures FolderOn(t, root, path) <==> outcome.Found? && outcome.meta.folder
  {
    if outcome.Found? {
      forall x | Names(t, root, path, x) ensures x == outcome.meta.id {
        OneOwner(t, root, path, x, outcome.meta.id);
      }
      assert Names(t, root, path, outcome.meta.id);
    }
  }

  lemma NowhereFrom(t: Tree, root: Id, source: seq<string>, target: seq<string>, outcome: Outcome)
    requires Resolves(t, root, source, outcome) && !outcome.Found?
    ensures CannotMove(t, root, source, target)
  {
  }

  lemma NowhereTo(t: Tree, root: Id, source: seq<string>, target: seq<string>)
    ensures target == [] || NothingOn(t, root, ParentOf(target)) ==> CannotMove(t, root, source, target)
  {
  }

  lemma HasParent(t: Tree, root: Id, source: seq<string>, outcome: Outcome)
    requires Resolves(t, root, source, outcome) && outcome.Found?
    ensures Names(t, root, source, outcome.meta.id) && !NothingOn(t, root, ParentOf(source))
  {
    if source == [] {
      assert Names(t, root, [], root);
    } else {
      assert Names(t, root, ParentOf(source), t[outcome.meta.id].parent);
    }
  }

  lemma OneOfAName(t: Tree, parent: Id, name: string, folderOnly: bool, a: Id, b: Id)
    requires Unique(t) && a in Named(t, parent, name, folderOnly) && b in Named(t, parent, name, folderOnly)
    ensures a == b
  {
  }

  lemma OnlyOneListed(t: Tree, parent: Id, name: string, folderOnly: bool, listing: seq<Meta>)
    requires Unique(t) && Lists(t, Named(t, parent, name, folderOnly), listing)
    ensures |listing| <= 1
  {
    hide Unique;
    if |listing| > 1 {
      assert listing[0] in listing && listing[1] in listing;
      OneOfAName(t, parent, name, folderOnly, listing[0].id, listing[1].id);
    }
  }

  // No open write is about to create this path or a folder on it.
  ghost predicate NotBeingWritten(t: Tree, root: Id, path: seq<string>, writes: set<Pending>) {
    forall k: nat, parent: Id :: k < |path| && Names(t, root, path[..k], parent) ==>
      Pending(parent, path[k], None) !in writes
  }

  ghost predicate Extends(t: Tree, after: Tree) { forall x <- t :: x in after && after[x] == t[x] }

  // Nothing but folders, at the first segments of the path, was created.
  ghost predicate FoldersMade(t: Tree, after: Tree, root: Id, path: seq<string>, i: nat) {
    && Extends(t, after)
    && forall x <- after :: x in t || (after[x].folder && NamedBy(after, root, path, i, x))
  }

  ghost predicate NamedBy(t: Tree, root: Id, path: seq<string>, i: nat, id: Id) {
    exists k: nat :: k <= i && k <= |path| && Names(t, root, path[..k], id)
  }

  lemma FoldersMadeTwice(a: Tree, b: Tree, c: Tree, root: Id, path: seq<string>, i: nat, j: nat)
    requires FoldersMade(a, b, root, path, i) && FoldersMade(b, c, root, path, j) && i <= j
    ensures FoldersMade(a, c, root, path, j)
  {
    forall x <- c | x !in a ensures c[x].folder && NamedBy(c, root, path, j, x) {
      if x in b {
        var k: nat :| k <= i && k <= |path| && Names(b, root, path[..k], x);
        NamesGrow(b, c, root, path[..k], x);
      }
    }
  }

  lemma AddedIsSane(t: Tree, root: Id, issued: set<Id>, auth: Auth, entries: Entries, writes: set<Pending>,
                    id: Id, parent: Id, name: string, folder: bool, later: set<Id>)
    requires Sane(t, root, issued, auth, entries, writes) && id !in issued && issued + {id} <= later
    requires IsFolder(t, root, parent) && IsSegment(name) && Named(t, parent, name, false) == {}
    requires Pending(parent, name, None) !in writes
    ensures var after := t[id := Obj(parent, name, folder)];
            Sane(after, root, later, auth, entries, writes) && Extends(t, after) && Children(after, id) == {}
  {
    var after := t[id := Obj(parent, name, folder)];
    AddedIsUnique(t, root, id, parent, name, folder);
    AllNamedGrow(t, after, root, auth, entries);
    forall w <- writes | w.existing.None? ensures Named(after, w.parent, w.name, false) == {} {
      assert w == Pending(w.parent, w.name, None);
      assert Named(t, w.parent, w.name, false) == {};
      forall x <- Named(after, w.parent, w.name, false) ensures x in Named(t, w.parent, w.name, false) {
      }
    }
  }

  lemma NothingMade(t: Tree, root: Id, path: seq<string>, i: nat)
    ensures FoldersMade(t, t, root, path, i)
  {
  }

  // A missing folder of the path is created in its place.
  lemma FolderAdded(t: Tree, root: Id, issued: set<Id>, auth: Auth, entries: Entries, writes: set<Pending>,
                    path: seq<string>, i: nat, parent: Id, id: Id, later: set<Id>)
    requires Sane(t, root, issued, auth, entries, writes) && id !in issued && issued + {id} <= later
    requires i < |path| && IsSegment(path[i]) && Names(t, root, path[..i], parent) && IsFolder(t, root, parent)
    requires Named(t, parent, path[i], false) == {} && Pending(parent, path[i], None) !in writes
    ensures var after := t[id := Obj(parent, path[i], true)];
            && Sane(after, root, later, auth, entries, writes)
            && (Undisturbed(t, writes) ==> Undisturbed(after, writes))
            && FoldersMade(t, after, root, path, i + 1)
            && Names(after, root, path[..i], parent) && Names(after, root, path[..i + 1], id)
            && id in Named(after, parent, path[i], true) && Children(after, id) == {}
            && forall w <- writes :: w.parent != id
  {
    var after, walked := t[id := Obj(parent, path[i], true)], path[..i + 1];
    AddedIsSane(t, root, issued, auth, entries, writes, id, parent, path[i], true, later);
    NewStaysUndisturbed(t, root, issued, auth, entries, writes, id, Obj(parent, path[i], true));
    NamesGrow(t, after, root, path[..i], parent);
    assert walked[..|walked| - 1] == path[..i] && Names(after, root, walked, id);
    assert forall x <- after :: x in t || x == id;
    assert NamedBy(after, root, path, i + 1, id);
  }

  datatype Looked = Existing(id: Id) | Missing | Refused

  class GDriveFileSystem {
    const drive: DriveFolders
    const cache: GDrivePathCache<Meta>
    const auth: Auth
    var writes: set<Pending>

    ghost predicate Valid()
      reads this, drive`tree, drive`issued, cache
    {
      && drive.Valid() && cache.Valid() && drive.root == auth.RootFolder()
      && Sane(drive.tree, drive.root, drive.issued, auth, cache.entries, writes)
    }

    lemma ValidMeans()
      ensures Valid() <==>
        && drive.Valid() && cache.Valid() && drive.root == auth.RootFolder()
        && Sane(drive.tree, drive.root, drive.issued, auth, cache.entries, writes)
    {
    }

    constructor (drive: DriveFolders, auth: Auth)
      requires drive.Valid() && Unique(drive.tree) && drive.root == auth.RootFolder()
      ensures Valid() && this.drive == drive && this.auth == auth && writes == {} && fresh(cache)
    {
      this.drive, this.auth, writes := drive, auth, {};
      cache := new GDrivePathCache<Meta>();
    }

    method ResolvePath(path: seq<string>) returns (reply: Reply)
      requires Valid() && IsPath(path)
      modifies cache, drive`failures
      ensures Valid()
      ensures drive.failures == old(drive.failures) + if reply.Failed? then 1 else 0
      ensures reply.Got? ==> Resolves(drive.tree, drive.root, path, reply.outcome)
    {
      ghost var t, root := drive.tree, drive.root;
      ghost var hit;
      AllNamedIsCoherent(t, root, auth, cache.entries);
      reply, hit := TryResolvePath(cache, drive, auth, path);
      AllNamedIsCoherent(t, root, auth, cache.entries);
      if reply.Got? {
        FaithfulResolves(t, root, path, reply.outcome, hit);
      }
    }

    // ----- Opening for writing -----

    // A folder of this name under `parent`, looked up in the cache and then,
    // for folders and for anything, on the service.
    method LookUpFolder(parent: Id, path: seq<string>, i: nat, key: CacheKey) returns (looked: Looked)
      requires Valid() && IsPath(path) && i < |path| && key == auth.Key(path[..i + 1])
      requires Names(drive.tree, drive.root, path[..i], parent)
      modifies cache, drive`failures
      ensures Valid()
      ensures looked.Existing? ==> Names(drive.tree, drive.root, path[..i + 1], looked.id)
                                   && IsFolder(drive.tree, drive.root, looked.id)
      ensures drive.failures >= old(drive.failures)
      ensures looked.Refused? && drive.failures == old(drive.failures) ==> FileOn(drive.tree, drive.root, path[..i + 1])
      ensures looked.Missing? ==> Named(drive.tree, parent, path[i], false) == {}
    {
      ghost var walked := path[..i + 1];
      var hit := cache.TryGet(key);
      if hit.Some? {
        assert NamedAt(drive.tree, drive.root, auth, old(cache.entries), walked);
        if hit.value.folder {
          return Existing(hit.value.id);
        }
        cache.InvalidatePrefix(key);
      }
      looked := ListFolders(parent, path, i, key);
    }

    method ListFolders(parent: Id, path: seq<string>, i: nat, key: CacheKey) returns (looked: Looked)
      requires Valid() && IsPath(path) && i < |path| && key == auth.Key(path[..i + 1])
      requires Names(drive.tree, drive.root, path[..i], parent)
      modifies cache, drive`failures
      ensures Valid()
      ensures looked.Existing? ==> Names(drive.tree, drive.root, path[..i + 1], looked.id)
                                   && IsFolder(drive.tree, drive.root, looked.id)
      ensures drive.failures >= old(drive.failures)
      ensures looked.Refused? && drive.failures == old(drive.failures) ==> FileOn(drive.tree, drive.root, path[..i + 1])
      ensures looked.Missing? ==> Named(drive.tree, parent, path[i], false) == {}
    {
      var ok, matches := drive.ListByName(parent, path[i], true);
      if !ok || |matches| > 1 {
        if ok {
          OnlyOneListed(drive.tree, parent, path[i], true, matches);
        }
        return Refused;
      }
      if |matches| == 1 {
        Adopt(parent, path, i, key, matches[0], true);
        return Existing(matches[0].id);
      }
      looked := ProbeAnyKind(parent, path, i, key);
    }

    // No folder of that name was listed: a file of that name forbids creating
    // one, and a folder that has turned up since is adopted.
    method ProbeAnyKind(parent: Id, path: seq<string>, i: nat, key: CacheKey) returns (looked: Looked)
      requires Valid() && IsPath(path) && i < |path| && key == auth.Key(path[..i + 1])
      requires Names(drive.tree, drive.root, path[..i], parent)
      modifies cache, drive`failures
      ensures Valid()
      ensures looked.Existing? ==> Names(drive.tree, drive.root, path[..i + 1], looked.id)
                                   && IsFolder(drive.tree, drive.root, looked.id)
      ensures drive.failures >= old(drive.failures)
      ensures looked.Refused? && drive.failures == old(drive.failures) ==> FileOn(drive.tree, drive.root, path[..i + 1])
      ensures looked.Missing? ==> Named(drive.tree, parent, path[i], false) == {}
    {
      var ok, anyKind := drive.ListByName(parent, path[i], false);
      if !ok {
        return Refused;
      }
      var folder: Option<Meta>, file: Option<Meta> := None, None;
      for j := 0 to |anyKind|
        invariant folder.Some? ==> folder.value in anyKind && folder.value.folder
        invariant file.Some? ==> file.value in anyKind && !file.value.folder
        invariant folder.None? && file.None? ==> j == 0
      {
        if anyKind[j].folder {
          folder := Some(anyKind[j]);
        } else {
          file := Some(anyKind[j]);
        }
      }
      if file.Some? {
        assert path[..i + 1][..i] == path[..i] && Names(drive.tree, drive.root, path[..i + 1], file.value.id);
        return Refused;
      }
      if folder.Some? {
        Adopt(parent, path, i, key, folder.value, false);
        return Existing(folder.value.id);
      }
      looked := Missing;
    }

    // Caches an object just listed, or just created, at its path.
    method Adopt(parent: Id, path: seq<string>, i: nat, key: CacheKey, meta: Meta, ghost folderOnly: bool)
      requires Valid() && IsPath(path) && i < |path| && key == auth.Key(path[..i + 1])
      requires Names(drive.tree, drive.root, path[..i], parent)
      requires meta.id in Named(drive.tree, parent, path[i], folderOnly) && meta == MetaOf(drive.tree, meta.id)
      modifies cache
      ensures Valid() && Names(drive.tree, drive.root, path[..i + 1], meta.id)
    {
      ghost var walked := path[..i + 1];
      assert walked[..|walked| - 1] == path[..i];
      cache.Put(key, meta);
      AddedNamed(drive.tree, drive.root, auth, old(cache.entries), cache.entries, walked, meta);
    }

    // Where the walk to the parent folder stands. Once a folder was created,
    // nothing can be in it and nobody can be writing into it.
    ghost predicate At(path: seq<string>, i: nat, parent: Id, parentIsNew: bool)
      requires i <= |path|
      reads this, drive`tree
    {
      && Names(drive.tree, drive.root, path[..i], parent) && IsFolder(drive.tree, drive.root, parent)
      && (if parentIsNew then Children(drive.tree, parent) == {} && forall w <- writes :: w.parent != parent
          else NotBeingWritten(drive.tree, drive.root, path, writes))
    }

    method MakeFolder(parent: Id, parentIsNew: bool, path: seq<string>, i: nat, key: CacheKey)
      returns (ok: bool, id: Id)
      requires Valid() && IsPath(path) && i < |path| && key == auth.Key(path[..i + 1])
      requires At(path, i, parent, parentIsNew) && Named(drive.tree, parent, path[i], false) == {}
      modifies drive, cache
      ensures Valid() && FoldersMade(old(drive.tree), drive.tree, drive.root, path, i + 1)
      ensures Undisturbed(old(drive.tree), writes) ==> Undisturbed(drive.tree, writes)
      ensures drive.failures >= old(drive.failures) && (!ok ==> drive.failures > old(drive.failures))
      ensures ok ==> At(path, i + 1, id, true)
    {
      assert Pending(parent, path[i], None) !in writes && IsSegment(path[i]);
      hide Sane, FoldersMade, Undisturbed, NotBeingWritten;
      ghost var before, issued := drive.tree, drive.issued;
      NothingMade(before, drive.root, path, i + 1);
      var meta;
      ghost var made;
      ok, meta, made := drive.Create(parent, path[i], true);
      id := meta.id;
      if made {
        FolderAdded(before, drive.root, issued, auth, cache.entries, writes, path, i, parent, id, drive.issued);
      } else {
        MoreIssued(before, drive.root, issued, auth, cache.entries, writes, drive.issued);
      }
      if ok {
        Adopt(parent, path, i, key, meta, true);
      }
    }

    method WalkSegment(parent: Id, parentIsNew: bool, path: seq<string>, i: nat, canonical: string)
      returns (ok: bool, id: Id, isNew: bool)
      requires Valid() && IsPath(path) && i < |path| && canonical == Join(path[..i + 1])
      requires At(path, i, parent, parentIsNew)
      modifies drive, cache
      ensures Valid() && FoldersMade(old(drive.tree), drive.tree, drive.root, path, i + 1)
      ensures Undisturbed(old(drive.tree), writes) ==> Undisturbed(drive.tree, writes)
      ensures drive.failures >= old(drive.failures)
      ensures !ok && drive.failures == old(drive.failures) ==> FileOn(drive.tree, drive.root, path[..i + 1])
      ensures ok ==> At(path, i + 1, id, isNew)
    {
      var key := CacheKey(auth.identity, auth.driveId, auth.rootFolderId, canonical);
      if !parentIsNew {
        var looked := LookUpFolder(parent, path, i, key);
        match looked {
          case Existing(found) => return true, found, false;
          case Refused => return false, parent, false;
          case Missing =>
        }
      }
      isNew := true;
      ok, id := MakeFolder(parent, parentIsNew, path, i, key);
    }

    // One turn of the walk below, which began on the tree t.
    method WalkOne(path: seq<string>, i: nat, parent: Id, parentIsNew: bool, canonical: string, ghost t: Tree)
      returns (ok: bool, id: Id, isNew: bool, longer: string)
      requires Valid() && IsPath(path) && i + 1 < |path| && canonical == Join(path[..i])
      requires At(path, i, parent, parentIsNew) && FoldersMade(t, drive.tree, drive.root, path, i)
      modifies drive, cache
      ensures Valid()
      ensures FoldersMade(t, drive.tree, drive.root, path, i + 1)
      ensures FoldersMade(t, drive.tree, drive.root, path, |path| - 1)
      ensures Undisturbed(old(drive.tree), writes) ==> Undisturbed(drive.tree, writes)
      ensures drive.failures >= old(drive.failures)
      ensures !ok && drive.failures == old(drive.failures) ==> Blocked(drive.tree, drive.root, path)
      ensures ok ==> At(path, i + 1, id, isNew) && longer == Join(path[..i + 1])
    {
      hide Valid, At, FoldersMade, Undisturbed, Join, FileOn;
      CanonicalStep(path, i);
      longer := canonical + (if canonical == "" then "" else "/") + path[i];
      ghost var before := drive.tree;
      ok, id, isNew := WalkSegment(parent, parentIsNew, path, i, longer);
      NothingMade(drive.tree, drive.root, path, |path| - 1);
      FoldersMadeTwice(t, before, drive.tree, drive.root, path, i, i + 1);
      FoldersMadeTwice(t, drive.tree, drive.tree, drive.root, path, i + 1, |path| - 1);
    }

    // The walk to the folder that will hold the file, making what is missing.
    method WalkToParent(path: seq<string>) returns (ok: bool, parent: Id, parentIsNew: bool)
      requires Valid() && IsPath(path) && path != []
      requires NotBeingWritten(drive.tree, drive.root, path, writes)
      modifies drive, cache
      ensures Valid() && FoldersMade(old(drive.tree), drive.tree, drive.root, path, |path| - 1)
      ensures drive.failures >= old(drive.failures)
      ensures !ok && drive.failures == old(drive.failures) ==> Blocked(drive.tree, drive.root, path)
      ensures ok ==> At(path, |path| - 1, parent, parentIsNew)
      ensures Undisturbed(old(drive.tree), writes) ==> Undisturbed(drive.tree, writes)
    {
      var n, canonical := |path| - 1, "";
      parent, parentIsNew := auth.RootFolder(), false;
      assert At(path, 0, parent, false) && FoldersMade(drive.tree, drive.tree, drive.root, path, 0);
      hide Valid, At, FoldersMade, Undisturbed, NotBeingWritten, Join, Blocked;
      var i := 0;
      while i < n
        invariant i <= n && Valid() && At(path, i, parent, parentIsNew) && canonical == Join(path[..i])
        invariant FoldersMade(old(drive.tree), drive.tree, drive.root, path, i)
        invariant drive.failures >= old(drive.failures)
        invariant Undisturbed(old(drive.tree), writes) ==> Undisturbed(drive.tree, writes)
      {
        ok, parent, parentIsNew, canonical := WalkOne(path, i, parent, parentIsNew, canonical, old(drive.tree));
        if !ok {
          return;
        }
        i := i + 1;
      }
      ok := true;
    }

    // Creates the missing folders on the way, and finds what will be
    // overwritten. The file itself appears when the write is closed.
    method OpenForWriting(path: seq<string>) returns (ok: bool, w: Pending)
      requires Valid() && IsPath(path)
      requires NotBeingWritten(drive.tree, drive.root, path, writes)
      modifies this, drive, cache
      ensures Valid()
        && FoldersMade(old(drive.tree), drive.tree, drive.root, path, if path == [] then 0 else |path| - 1)
      ensures drive.failures >= old(drive.failures)
      ensures !ok && drive.failures == old(drive.failures) ==> path == [] || Blocked(drive.tree, drive.root, path)
      ensures writes == if ok then old(writes) + {w} else old(writes)
      ensures ok ==> path != [] && Opened(drive.tree, drive.root, path, w) && (w.existing.None? ==> w !in old(writes))
      ensures Undisturbed(old(drive.tree), old(writes)) ==> Undisturbed(drive.tree, writes)
    {
      w := Pending("", "", None);
      if path == [] {
        return false, w;
      }
      var parent, parentIsNew;
      ok, parent, parentIsNew := WalkToParent(path);
      if !ok {
        return;
      }
      ok, w := ProbeTarget(path, parent, parentIsNew);
      if ok {
        writes := writes + {w};
      }
    }

    // What the write will overwrite. Nothing, in a folder just created: that
    // is not asked.
    method ProbeTarget(path: seq<string>, parent: Id, parentIsNew: bool) returns (ok: bool, w: Pending)
      requires Valid() && IsPath(path) && path != [] && At(path, |path| - 1, parent, parentIsNew)
      modifies drive`failures
      ensures drive.failures >= old(drive.failures) && (!ok ==> drive.failures > old(drive.failures))
      ensures parentIsNew ==> ok && drive.failures == old(drive.failures)
      ensures ok ==> Opened(drive.tree, drive.root, path, w)
      ensures ok ==>
        SlotsFree(drive.tree, drive.issued, {w}) && InPlace(drive.tree, w) && (w.existing.None? ==> w !in writes)
    {
      var name := path[|path| - 1];
      w := Pending(parent, name, None);
      if !parentIsNew {
        var listed, matches := drive.ListByName(parent, name, false);
        if !listed || |matches| > 1 {
          if listed {
            OnlyOneListed(drive.tree, parent, name, false, matches);
          }
          return false, w;
        }
        if |matches| == 1 {
          w := w.(existing := Some(matches[0].id));
          assert matches[0] in matches;
        }
      }
      if w.existing.None? {
        NothingThere(drive.tree, drive.root, path, parent);
      }
      ok := true;
    }

    // The one request that publishes, or the last chunk of a session. Answered
    // or not, at most the awaited file appears; but an overwrite also sends the
    // name the handle was opened under, and gives it to the object again. That
    // is harmless as long as the object still has it.
    method CloseWrite(w: Pending) returns (ok: bool, ghost id: Id)
      requires Valid() && w in writes
      modifies this, drive
      ensures writes == old(writes) - {w}
      ensures drive.failures >= old(drive.failures)
      ensures !ok && drive.failures == old(drive.failures) ==>
        w.existing.None? && !IsFolder(old(drive.tree), drive.root, w.parent)
      ensures InPlace(old(drive.tree), w) ==> Valid() && Extends(old(drive.tree), drive.tree)
      ensures drive.tree == old(drive.tree) ==> Valid()
      ensures w.existing.Some? ==> drive.tree == old(drive.tree) || drive.tree == Renamed(old(drive.tree), id, w.name)
      ensures w.existing.Some? && drive.tree != old(drive.tree) ==>
        (Valid() <==> Harmless(old(drive.tree), auth, cache.entries, writes, id, w.name))
      ensures w.existing.Some? ==> w.existing == Some(id) && (ok ==> drive.tree == Renamed(old(drive.tree), id, w.name))
      ensures ok && w.existing.None? ==> drive.tree == old(drive.tree)[id := Obj(w.parent, w.name, false)]
      ensures Undisturbed(old(drive.tree), old(writes)) ==> Undisturbed(drive.tree, writes)
    {
      hide Sane, Harmless;
      ghost var before := drive.tree;
      ghost var issued := drive.issued;
      FreeAndNotIssued(before, drive.root, issued, auth, cache.entries, writes, w);
      FewerWrites(before, drive.root, issued, auth, cache.entries, writes, writes - {w});
      writes := writes - {w};
      if w.existing.Some? {
        id := w.existing.value;
        RenamedIsSane(before, drive.root, issued, auth, cache.entries, writes, id, w.name);
        RenamedUndisturbed(before, old(writes), w);
        ok := drive.Update(w.existing.value, w.name);
        return;
      }
      assert w == Pending(w.parent, w.name, None);
      var meta;
      ghost var made;
      ok, meta, made := drive.Create(w.parent, w.name, false);
      id := meta.id;
      if made {
        NewStaysUndisturbed(before, drive.root, issued, auth, cache.entries, writes, id, Obj(w.parent, w.name, false));
        AddedIsSane(before, drive.root, issued, auth, cache.entries, writes, id, w.parent, w.name, false, drive.issued);
      } else {
        MoreIssued(before, drive.root, issued, auth, cache.entries, writes, drive.issued);
      }
    }

    method CancelWrite(w: Pending)
      requires Valid() && w in writes
      modifies `writes
      ensures Valid() && writes == old(writes) - {w}
      ensures Undisturbed(drive.tree, old(writes)) ==> Undisturbed(drive.tree, writes)
    {
      writes := writes - {w};
    }

    // ----- Removing -----

    // Until a request has failed with its fate unknown, nothing is broken.
    method RemoveFile(path: seq<string>) returns (ok: bool, ghost gone: Id)
      requires Valid() && IsPath(path)
      modifies drive, cache
      ensures ok || drive.tree == old(drive.tree) ==> Valid()
      ensures drive.failures >= old(drive.failures)
      ensures !ok && drive.failures == old(drive.failures) ==> !FileOn(old(drive.tree), drive.root, path)
      ensures ok ==> Names(old(drive.tree), drive.root, path, gone)
                     && gone in old(drive.tree) && !old(drive.tree)[gone].folder
                     && drive.tree == old(drive.tree) - {gone}
      ensures Undisturbed(old(drive.tree), writes) ==> Undisturbed(drive.tree, writes)
    {
      var reply := ResolvePath(path);
      gone := "";
      if reply.Got? {
        WhatIsOn(drive.tree, drive.root, path, reply.outcome);
      }
      if reply.Failed? || !reply.outcome.Found? || reply.outcome.meta.folder {
        return false, gone;
      }
      gone := reply.outcome.meta.id;
      FileIsAlone(drive.tree, drive.root, gone);
      ok := DeleteAt(path, reply.outcome.meta.id);
    }

    method RemoveDirectory(path: seq<string>) returns (ok: bool, ghost gone: Id)
      requires Valid() && IsPath(path)
      modifies drive, cache
      ensures ok || drive.tree == old(drive.tree) ==> Valid()
      ensures drive.failures >= old(drive.failures)
      ensures !ok && drive.failures == old(drive.failures) ==>
        path == [] || !FolderOn(old(drive.tree), drive.root, path)
      ensures ok ==> Names(old(drive.tree), drive.root, path, gone)
                     && gone in old(drive.tree) && old(drive.tree)[gone].folder
                     && DeletedFrom(old(drive.tree), drive.tree, gone)
      ensures Undisturbed(old(drive.tree), writes) ==> Undisturbed(drive.tree, writes)
    {
      var reply := ResolvePath(path);
      gone := "";
      if reply.Got? {
        WhatIsOn(drive.tree, drive.root, path, reply.outcome);
      }
      if reply.Failed? || !reply.outcome.Found? || !reply.outcome.meta.folder {
        return false, gone;
      }
      gone := reply.outcome.meta.id;
      ok := DeleteAt(path, reply.outcome.meta.id);
    }

    method DeleteAt(path: seq<string>, id: Id) returns (ok: bool)
      requires Valid() && IsPath(path) && Names(drive.tree, drive.root, path, id)
      modifies drive, cache
      ensures ok || drive.tree == old(drive.tree) ==> Valid()
      ensures drive.failures >= old(drive.failures)
      ensures !ok && drive.failures == old(drive.failures) ==> path == []
      ensures ok ==> path != [] && DeletedFrom(old(drive.tree), drive.tree, id)
      ensures Undisturbed(old(drive.tree), writes) ==> Undisturbed(drive.tree, writes)
    {
      ghost var before, entries := drive.tree, cache.entries;
      ok := drive.Delete(id);
      if !ok {
        return;
      }
      cache.InvalidatePrefix(auth.Key(path));
      DeletedIsSane(before, drive.root, drive.issued, auth, entries, writes, path, id, drive.tree);
    }

    // ----- Moving -----

    method ResolveParentId(path: seq<string>) returns (ok: bool, id: Id)
      requires Valid() && IsPath(path)
      modifies cache, drive`failures
      ensures Valid()
      ensures drive.failures >= old(drive.failures)
      ensures !ok && drive.failures == old(drive.failures) ==>
        NothingOn(drive.tree, drive.root, ParentOf(path))
      ensures ok ==> Names(drive.tree, drive.root, ParentOf(path), id)
    {
      var reply := ResolvePath(ParentOf(path));
      if reply.Failed? || !reply.outcome.Found? {
        return false, "";
      }
      ok, id := true, reply.outcome.meta.id;
    }

    // The other objects already at the target.
    method AtTarget(parent: Id, name: string, moved: Id) returns (ok: bool, others: seq<Meta>)
      requires Valid()
      modifies drive`failures
      ensures drive.failures == old(drive.failures) + if ok then 0 else 1
      ensures ok ==> OthersThere(drive.tree, parent, name, moved, others)
    {
      var listed;
      ok, listed := drive.ListByName(parent, name, false);
      others := [];
      if !ok {
        return;
      }
      for j := 0 to |listed|
        invariant forall m <- listed[..j] :: m.id == moved || m in others
        invariant forall m <- others :: m in listed[..j] && m.id != moved
        invariant forall a, b :: 0 <= a < b < |others| ==> others[a].id != others[b].id
      {
        if listed[j].id != moved {
          others := others + [listed[j]];
        }
      }
      assert listed[..|listed|] == listed;
      forall x <- Named(drive.tree, parent, name, false) ensures x == moved || exists m <- others :: m.id == x {
        assert MetaOf(drive.tree, x) in listed;
      }
    }

    // Where a move goes from and to.
    method ResolveEnds(source: seq<string>, target: seq<string>)
      returns (ok: bool, id: Id, oldParent: Id, newParent: Id)
      requires Valid() && IsPath(source) && IsPath(target)
      modifies drive`failures, cache
      ensures Valid() && drive.failures >= old(drive.failures)
      ensures !ok && drive.failures == old(drive.failures) ==> CannotMove(drive.tree, drive.root, source, target)
      ensures ok ==> target != [] && Names(drive.tree, drive.root, source, id)
      ensures ok ==> Names(drive.tree, drive.root, ParentOf(source), oldParent)
      ensures ok ==> Names(drive.tree, drive.root, ParentOf(target), newParent)
    {
      hide Valid, Sane, Unique, Names, IsPath, CannotMove, NothingOn, Resolves, ParentOf;
      ok, id, oldParent, newParent := false, "", "", "";
      var reply := ResolvePath(source);
      if reply.Failed? || !reply.outcome.Found? {
        if reply.Got? {
          NowhereFrom(drive.tree, drive.root, source, target, reply.outcome);
        }
        return;
      }
      id := reply.outcome.meta.id;
      HasParent(drive.tree, drive.root, source, reply.outcome);
      NowhereTo(drive.tree, drive.root, source, target);
      ok, oldParent := ResolveParentId(source);
      if !ok || target == [] {
        return false, id, oldParent, newParent;
      }
      ok, newParent := ResolveParentId(target);
    }

    // What a move needs to know before it changes anything.
    method PlanMove(source: seq<string>, target: seq<string>)
      returns (ok: bool, id: Id, oldParent: Id, newParent: Id, others: seq<Meta>)
      requires Valid() && IsPath(source) && IsPath(target)
      modifies drive`failures, cache
      ensures Valid() && drive.failures >= old(drive.failures)
      ensures !ok && drive.failures == old(drive.failures) ==> CannotMove(drive.tree, drive.root, source, target)
      ensures ok ==> target != [] && |others| <= 1 && Names(drive.tree, drive.root, source, id)
      ensures ok ==> Names(drive.tree, drive.root, ParentOf(source), oldParent)
      ensures ok ==> Names(drive.tree, drive.root, ParentOf(target), newParent)
      ensures ok ==> OthersThere(drive.tree, newParent, target[|target| - 1], id, others)
    {
      assert Unique(drive.tree);
      hide Valid, Sane, Unique, Names, OthersThere, IsPath, CannotMove, ParentOf;
      others := [];
      ok, id, oldParent, newParent := ResolveEnds(source, target);
      if !ok {
        return;
      }
      ok, others := AtTarget(newParent, target[|target| - 1], id);
      if ok {
        OneOther(drive.tree, newParent, target[|target| - 1], id, others);
      }
      ok := ok && |others| <= 1;
    }

    // Move first, then delete what the target replaced: nothing is lost if the
    // move fails, and names are unique again once both have succeeded.
    method MoveFile(source: seq<string>, target: seq<string>) returns (ok: bool, ghost moved: Id)
      requires Valid() && IsPath(source) && IsPath(target)
      requires target != [] ==> NotAwaited(drive.tree, drive.root, target, writes)
      modifies drive, cache
      ensures ok || drive.tree == old(drive.tree) ==> Valid()
      ensures drive.failures >= old(drive.failures)
      ensures !ok && drive.failures == old(drive.failures) ==> CannotMove(old(drive.tree), drive.root, source, target)
      ensures target != [] ==> NothingLost(old(drive.tree), drive.tree, drive.root, target, moved)
      ensures ok ==> target != [] && Names(old(drive.tree), drive.root, source, moved)
                     && MovedTo(old(drive.tree), drive.tree, drive.root, source, target, moved)
      // A write open on the moved object will give it its old name back.
      ensures ok && Undisturbed(old(drive.tree), writes) ==>
        (Undisturbed(drive.tree, writes) <==> OpenOnlyAs(writes, moved, target[|target| - 1]))
    {
      hide Valid, Sane, MovedTo, OthersThere, Names;
      moved := "";
      ghost var before := drive.tree;
      var id, oldParent, newParent, others;
      ok, id, oldParent, newParent, others := PlanMove(source, target);
      if !ok {
        NothingIsLost(before, drive.root, target, moved);
        return;
      }
      moved := id;
      ok := MoveAndReplace(source, target, id, newParent, oldParent, others);
      if ok && Undisturbed(before, writes) {
        MovedUndisturbed(before, drive.tree, drive.root, source, target, id, writes);
      }
    }

    method ForgetBoth(source: seq<string>, target: seq<string>)
      requires cache.Valid()
      modifies cache
      ensures cache.Valid()
      ensures cache.entries == Invalidated(Invalidated(old(cache.entries), auth.Key(source)), auth.Key(target))
    {
      cache.InvalidatePrefix(auth.Key(source));
      cache.InvalidatePrefix(auth.Key(target));
    }

    method MoveAndReplace(source: seq<string>, target: seq<string>, id: Id, newParent: Id, oldParent: Id,
                          others: seq<Meta>)
      returns (ok: bool)
      requires Valid() && IsPath(source) && IsPath(target) && target != [] && |others| <= 1
      requires Names(drive.tree, drive.root, source, id)
        && Names(drive.tree, drive.root, ParentOf(target), newParent)
      requires Pending(newParent, target[|target| - 1], None) !in writes
      requires Names(drive.tree, drive.root, ParentOf(source), oldParent)
      requires OthersThere(drive.tree, newParent, target[|target| - 1], id, others)
      modifies drive, cache
      ensures ok || drive.tree == old(drive.tree) ==> Valid()
      ensures drive.failures >= old(drive.failures)
      ensures !ok && drive.failures == old(drive.failures) ==> CannotMove(old(drive.tree), drive.root, source, target)
      ensures NothingLost(old(drive.tree), drive.tree, drive.root, target, id)
      ensures ok ==> MovedTo(old(drive.tree), drive.tree, drive.root, source, target, id)
    {
      hide Valid, Sane, MovedTo, NothingLost, OthersThere, CannotMove, MovedInto, DeletedFrom, Invalidated;
      hide Named, Names, IsPath;
      ghost var before, entries := drive.tree, cache.entries;
      ghost var root, issued := drive.root, drive.issued;
      ValidMeans();
      var name := target[|target| - 1];
      MoveBegins(before, root, issued, auth, entries, writes, source, target, id, newParent, oldParent, others);
      ok := drive.Move(id, newParent, name, oldParent);
      if !ok {
        MoveFailed(before, root, source, target, id, newParent, oldParent, drive.tree);
        ValidMeans();
        return;
      }
      ghost var middle := drive.tree;
      ghost var replaced: Option<Id> := None;
      if |others| == 1 {
        replaced := Some(others[0].id);
        WhoIsThere(before, newParent, name, id, others, replaced);
        TargetStays(before, root, newParent, name, id, middle, others[0]);
        ok := drive.Delete(others[0].id);
        if !ok {
          ReplaceFailed(before, root, source, target, id, newParent, middle, others[0].id, drive.tree);
          return;
        }
      }
      ForgetBoth(source, target);
      WhoIsThere(before, newParent, name, id, others, replaced);
      MovedIsSane(before, root, issued, auth, entries, writes, source, target, id, newParent, middle, replaced,
                  drive.tree);
      MovedLosesNothing(before, root, source, target, id, drive.tree);
      ValidMeans();
    }

    // The run itself: an object `x` beside a folder `b` that holds another `x`
    // is opened for overwriting, moved to `b/y`, and closed. When all three
    // return, two objects of one name are in `b`.
    method OverwriteMoveClose(ghost i: Id, ghost j: Id, ghost b: Id) returns (done: bool)
      requires Valid() && writes == {} && drive.tree == XBesideB(drive.root, i, j, b)
      requires drive.root != i && drive.root != j && drive.root != b && i != j && i != b && j != b
      modifies this, drive, cache
      ensures done ==> !Unique(drive.tree) && !Valid()
    {
      assert IsSegment("x") && IsSegment("b") && IsSegment("y");
      hide MovedTo, NothingLost, FoldersMade, Opened, XBesideB, IsSegment, Undisturbed, Extends, Harmless;
      ghost var root := drive.root;
      var isOpen, w := OpenForWriting(["x"]);
      if !isOpen {
        return false;
      }
      OpenX(drive.tree, root, i, j, b, w);
      var moved;
      ghost var id;
      moved, id := MoveFile(["x"], ["b", "y"]);
      if !moved {
        return false;
      }
      MoveX(drive.tree, root, i, j, b, id);
      done, id := CloseWrite(w);
      CloseAfterMove(root, i, j, b);
    }
  }

  // No open write is about to create the target.
  ghost predicate NotAwaited(t: Tree, root: Id, target: seq<string>, writes: set<Pending>)
    requires target != []
  {
    var front, name := target[..|target| - 1], target[|target| - 1];
    forall parent: Id :: Names(t, root, front, parent) ==> Pending(parent, name, None) !in writes
  }

  // Succeed or fail, nothing is deleted before the moved object is in its place.
  ghost predicate NothingLost(t: Tree, after: Tree, root: Id, target: seq<string>, moved: Id) {
    (forall x <- t :: x in after) || Names(after, root, target, moved)
  }

  // Whatever open write will overwrite the object was opened under this name.
  ghost predicate OpenOnlyAs(writes: set<Pending>, id: Id, name: string) {
    forall w <- writes :: w.existing == Some(id) ==> w.name == name
  }

  lemma MovedUndisturbed(t: Tree, after: Tree, root: Id, source: seq<string>, target: seq<string>, moved: Id,
                         writes: set<Pending>)
    requires target != [] && MovedTo(t, after, root, source, target, moved) && Undisturbed(t, writes)
    ensures Undisturbed(after, writes) <==> OpenOnlyAs(writes, moved, target[|target| - 1])
  {
    forall w <- writes ensures InPlace(after, w) <==> (w.existing == Some(moved) ==> w.name == target[|target| - 1]) {
      assert InPlace(t, w);
    }
  }

  // It happens: `x` is opened for overwriting, moved to `b/y`, and closed.
  function XBesideB(root: Id, i: Id, j: Id, b: Id): Tree {
    map[b := Obj(root, "b", true)][i := Obj(root, "x", false)][j := Obj(b, "x", false)]
  }

  lemma XIsUnique(root: Id, i: Id, j: Id, b: Id)
    requires root != i && root != j && root != b && i != j && i != b && j != b
    ensures IsTree(XBesideB(root, i, j, b), root) && Unique(XBesideB(root, i, j, b))
  {
    assert IsSegment("x") && IsSegment("b");
    hide IsSegment, Unique;
    EmptyIsUnique(root);
    var one := map[b := Obj(root, "b", true)];
    assert (map[])[b := Obj(root, "b", true)] == one;
    AddedIsUnique(map[], root, b, root, "b", true);
    AddedIsUnique(one, root, i, root, "x", false);
    AddedIsUnique(one[i := Obj(root, "x", false)], root, j, b, "x", false);
  }

  lemma EmptyIsUnique(root: Id)
    ensures IsTree(map[], root) && Unique(map[])
  {
  }

  // The run may start there: the invariant holds of it ...
  lemma XIsSane(auth: Auth, root: Id, i: Id, j: Id, b: Id)
    requires root != i && root != j && root != b && i != j && i != b && j != b
    ensures Sane(XBesideB(root, i, j, b), root, {root, i, j, b}, auth, map[], {})
  {
    hide Unique, IsTree;
    XIsUnique(root, i, j, b);
    assert XBesideB(root, i, j, b).Keys == {i, j, b};
  }

  // ... opening `x` makes nothing and will overwrite that object ...
  lemma OpenX(after: Tree, root: Id, i: Id, j: Id, b: Id, w: Pending)
    requires root != i && root != j && root != b && i != j && i != b && j != b
    requires root !in after
    requires FoldersMade(XBesideB(root, i, j, b), after, root, ["x"], 0) && Opened(after, root, ["x"], w)
    ensures after == XBesideB(root, i, j, b) && w == Pending(root, "x", Some(i))
  {
    var t := XBesideB(root, i, j, b);
    assert ["x"][..0] == [];
    assert forall x <- after :: x in t;
    assert after == t;
    assert Names(t, root, ["x"][..0], root) && Names(t, root, ["x"], i);
    assert Names(t, root, ["x"][..0], w.parent) && w.parent == root;
    match w.existing
    case Some(id) => assert Names(t, root, ["x"], id) && t[id].name == "x" && t[id].parent == root;
    case None =>
  }

  // ... and the move takes it to `b/y` and leaves the rest.
  lemma MoveX(after: Tree, root: Id, i: Id, j: Id, b: Id, moved: Id)
    requires root != i && root != j && root != b && i != j && i != b && j != b
    requires var t := XBesideB(root, i, j, b);
             Names(t, root, ["x"], moved) && MovedTo(t, after, root, ["x"], ["b", "y"], moved)
    requires Unique(after)
    ensures moved == i && after == XBesideB(root, i, j, b)[i := Obj(b, "y", false)]
  {
    var t := XBesideB(root, i, j, b);
    assert ["x"][..0] == [] && ["b"][..0] == [] && ["b", "y"][..1] == ["b", "x"][..1] == ["b"];
    assert Names(t, root, ["x"][..0], root) && Names(t, root, ["b"], b) && Names(t, root, ["b", "x"], j);
    assert moved == i;
    assert Names(after, root, ["b"], b) && Names(after, root, ["b", "x"], j);
    assert Names(after, root, ["b", "y"][..1], after[i].parent);
    OneOwner(after, root, ["b"], b, after[i].parent);
  }

  // Back under its old name in its new folder it meets another `x` ...
  lemma CloseAfterMove(root: Id, i: Id, j: Id, b: Id)
    requires root != i && root != j && root != b && i != j && i != b && j != b
    ensures var middle := XBesideB(root, i, j, b)[i := Obj(b, "y", false)];
            Unique(middle) && !Unique(Renamed(middle, i, "x"))
  {
    var middle := XBesideB(root, i, j, b)[i := Obj(b, "y", false)];
    assert j in Named(middle, b, "x", false);
    RenamedIsUnique(middle, i, "x");
  }

  // ... and even if it meets none, a cached `b/y` no longer names it.
  lemma CloseAfterMoveIsStale(auth: Auth, root: Id, i: Id, b: Id)
    requires root != i && root != b && i != b
    ensures var middle := map[i := Obj(b, "y", false), b := Obj(root, "b", true)];
            var entries := map[auth.Key(["b", "y"]).ToString() := PathEntry(MetaOf(middle, i), 1)];
            && AllNamed(middle, root, auth, entries)
            && !AllNamed(Renamed(middle, i, "x"), root, auth, entries)
  {
    var middle, path := map[i := Obj(b, "y", false), b := Obj(root, "b", true)], ["b", "y"];
    var entries: Entries := map[auth.Key(path).ToString() := PathEntry(MetaOf(middle, i), 1)];
    assert ["b"][..0] == [] && path[..1] == ["b"];
    assert Names(middle, root, ["b"][..0], root) && Names(middle, root, ["b"], b) && Names(middle, root, path, i);
    assert IsSegment("b") && IsSegment("y");
    forall p: seq<string> | IsPath(p) && p != [] ensures NamedAt(middle, root, auth, entries, p) {
      if auth.Key(p).ToString() in entries {
        KeysDiffer(auth, p, path);
      }
    }
    assert IsPath(path) && !NamedAt(Renamed(middle, i, "x"), root, auth, entries, path);
  }

  ghost predicate OthersThere(t: Tree, parent: Id, name: string, moved: Id, others: seq<Meta>) {
    && (forall x <- Named(t, parent, name, false) :: x == moved || exists m <- others :: m.id == x)
    && (forall m <- others :: m.id in Named(t, parent, name, false) && m.id != moved)
    && (forall a, b :: 0 <= a < b < |others| ==> others[a].id != others[b].id)
  }

  lemma NothingIsLost(t: Tree, root: Id, target: seq<string>, moved: Id)
    ensures NothingLost(t, t, root, target, moved)
  {
  }

  lemma OneOther(t: Tree, parent: Id, name: string, moved: Id, others: seq<Meta>)
    requires Unique(t) && OthersThere(t, parent, name, moved, others)
    ensures |others| <= 1
  {
    hide Unique;
    if |others| > 1 {
      assert others[0] in others && others[1] in others;
      OneOfAName(t, parent, name, false, others[0].id, others[1].id);
    }
  }

  // The steps of MoveAndReplace, one lemma each.
  lemma MoveBegins(t: Tree, root: Id, issued: set<Id>, auth: Auth, entries: Entries, writes: set<Pending>,
                   source: seq<string>, target: seq<string>, id: Id, newParent: Id, oldParent: Id, others: seq<Meta>)
    requires Sane(t, root, issued, auth, entries, writes) && target != []
    requires IsPath(target)
    ensures IsTree(t, root) && Unique(t) && IsSegment(target[|target| - 1])
  {
  }

  lemma MoveFailed(t: Tree, root: Id, source: seq<string>, target: seq<string>, id: Id, newParent: Id, oldParent: Id,
                   after: Tree)
    requires IsTree(t, root) && Unique(t) && target != [] && Names(t, root, source, id)
    requires Names(t, root, ParentOf(target), newParent) && Names(t, root, ParentOf(source), oldParent)
    requires after == t || MovedInto(t, root, after, id, newParent, target[|target| - 1])
    ensures NothingLost(t, after, root, target, id)
    ensures id !in t || t[id].parent != oldParent || !IsFolder(t, root, newParent) || Under(t, id, newParent) ==>
      CannotMove(t, root, source, target)
  {
    MoveRefused(t, root, source, target, id, newParent, oldParent);
  }

  lemma TargetStays(t: Tree, root: Id, parent: Id, name: string, moved: Id, middle: Tree, other: Meta)
    requires MovedInto(t, root, middle, moved, parent, name) && other.id in Named(t, parent, name, false)
    ensures other.id in middle
  {
  }

  lemma ReplaceFailed(t: Tree, root: Id, source: seq<string>, target: seq<string>, id: Id, newParent: Id,
                      middle: Tree, other: Id, after: Tree)
    requires IsTree(t, root) && Unique(t) && target != [] && Names(t, root, source, id)
    requires Names(t, root, ParentOf(target), newParent)
    requires MovedInto(t, root, middle, id, newParent, target[|target| - 1])
    requires other in Named(t, newParent, target[|target| - 1], false) && other != id
    requires after == middle || DeletedFrom(middle, after, other)
    ensures NothingLost(t, after, root, target, id) && after != t
  {
    BetweenIsNotUnique(t, root, middle, id, newParent, target[|target| - 1], other);
    var replaced := if after == middle then None else Some(other);
    MovedNames(t, root, source, target, id, newParent, middle, replaced, after);
    MovedLosesNothing(t, root, source, target, id, after);
    assert after != middle ==> Names(middle, other, [], other) && Under(middle, other, other) && other !in after;
  }

  lemma WhoIsThere(t: Tree, parent: Id, name: string, moved: Id, others: seq<Meta>, replaced: Option<Id>)
    requires OthersThere(t, parent, name, moved, others) && |others| <= 1
    requires replaced == if |others| == 1 then Some(others[0].id) else None
    ensures var there := Named(t, parent, name, false);
            if replaced.Some? then
              replaced.value in there && replaced.value != moved && there <= {moved, replaced.value}
            else there <= {moved}
  {
    if |others| == 1 {
      assert others[0] in others;
    }
  }

  lemma MovedLosesNothing(t: Tree, root: Id, source: seq<string>, target: seq<string>, moved: Id, after: Tree)
    requires target != [] && MovedTo(t, after, root, source, target, moved)
    ensures NothingLost(t, after, root, target, moved)
  {
  }

  // Drive refuses a move only for what the tree is like.
  lemma MoveRefused(t: Tree, root: Id, source: seq<string>, target: seq<string>, id: Id, newParent: Id, oldParent: Id)
    requires IsTree(t, root) && Unique(t) && target != [] && Names(t, root, source, id)
    requires Names(t, root, ParentOf(target), newParent)
    requires Names(t, root, ParentOf(source), oldParent)
    ensures id !in t || t[id].parent != oldParent || !IsFolder(t, root, newParent) || Under(t, id, newParent) ==>
      CannotMove(t, root, source, target)
  {
    var front := target[..|target| - 1];
    if source != [] {
      OneOwner(t, root, source[..|source| - 1], t[id].parent, oldParent);
    }
    if !IsFolder(t, root, newParent) && FolderOn(t, root, front) {
      var x :| Names(t, root, front, x) && IsFolder(t, root, x);
      OneOwner(t, root, front, x, newParent);
    }
    if Under(t, id, newParent) {
      var below :| Names(t, id, below, newParent);
      NamesConcat(t, root, source, id, below, newParent);
      OnePath(t, root, source + below, front, newParent);
    }
  }

  ghost predicate Replaces(middle: Tree, after: Tree, replaced: Option<Id>) {
    match replaced
    case None => after == middle
    case Some(id) => DeletedFrom(middle, after, id)
  }

  // The target is not under the source; the object is now what it names, and what was under it is under the
  // target; everything neither at or below the source nor at or below the
  // target keeps its path; nothing else is new or different.
  ghost predicate MovedTo(t: Tree, after: Tree, root: Id, source: seq<string>, target: seq<string>, moved: Id)
    requires target != []
  {
    && !(source < target)
    && moved in t && moved in after && after[moved].folder == t[moved].folder && Names(after, root, target, moved)
    && (forall x <- after :: x in t && (x != moved ==> after[x] == t[x]))
    && (forall x: Id, p: seq<string> :: Names(t, root, p, x) && !(source <= p) && !(target <= p) ==>
      Names(after, root, p, x))
    && (forall x: Id, p: seq<string> :: Names(t, root, p, x) && source <= p ==>
      Names(after, root, target + p[|source|..], x))
  }

  lemma OnlyItself(t: Tree, root: Id, file: Id)
    requires IsTree(t, root) && file in t && !t[file].folder
    ensures forall x :: Under(t, file, x) <==> x == file
  {
    assert Names(t, file, [], file);
    forall x | Under(t, file, x) ensures x == file {
      var path :| Names(t, file, path, x);
      if path != [] {
        ParentIsFolder(t, root, file, path, x);
      }
    }
  }

  lemma FileIsAlone(t: Tree, root: Id, file: Id)
    requires IsTree(t, root) && file in t && !t[file].folder
    ensures forall after :: DeletedFrom(t, after, file) ==> after == t - {file}
  {
    OnlyItself(t, root, file);
  }

  lemma DeletedIsSane(t: Tree, root: Id, issued: set<Id>, auth: Auth, entries: Entries, writes: set<Pending>,
                      path: seq<string>, gone: Id, after: Tree)
    requires Sane(t, root, issued, auth, entries, writes) && IsPath(path) && path != []
    requires Names(t, root, path, gone) && DeletedFrom(t, after, gone)
    ensures Sane(after, root, issued, auth, Invalidated(entries, auth.Key(path)), writes)
  {
    DeletedIsTree(t, root, after, gone);
    DeletedIsUnique(t, after, gone);
    DeletedAllNamed(t, root, after, auth, entries, path, gone);
    forall w <- writes | w.existing.None? ensures Named(after, w.parent, w.name, false) == {} {
      assert Named(after, w.parent, w.name, false) <= Named(t, w.parent, w.name, false) == {};
    }
  }

  // Between the move and the deletion there are two objects of one name; a
  // deletion that fails leaves them.
  lemma BetweenIsNotUnique(t: Tree, root: Id, middle: Tree, moved: Id, parent: Id, name: string, other: Id)
    requires Unique(t) && MovedInto(t, root, middle, moved, parent, name)
    requires other in Named(t, parent, name, false) && other != moved
    ensures !Unique(middle) && middle != t
  {
  }

  lemma ContentGoesAlong(t: Tree, root: Id, source: seq<string>, target: seq<string>, moved: Id, parent: Id,
                         middle: Tree, replaced: Option<Id>, after: Tree, rest: seq<string>, x: Id)
    requires IsTree(t, root) && target != [] && MovedInto(t, root, middle, moved, parent, target[|target| - 1])
    requires Names(t, root, source, moved) && Names(middle, root, target, moved) && Names(t, moved, rest, x)
    requires Replaces(middle, after, replaced)
    requires replaced.Some? ==> Names(middle, root, target, replaced.value) && replaced.value != moved
    ensures Names(after, root, target + rest, x)
  {
    NamesGoAlong(t, root, middle, source, moved, parent, target[|target| - 1], rest, x);
    NamesConcat(middle, root, target, moved, rest, x);
    if replaced.Some? {
      var other := replaced.value;
      forall under: seq<string> ensures !Names(middle, other, under, x) {
        if Names(middle, other, under, x) {
          NamesConcat(middle, root, target, other, under, x);
          OnePath(middle, root, target + under, target + rest, x);
          assert under == (target + under)[|target|..] == rest;
          OneBase(middle, other, moved, rest, x);
        }
      }
      NamesSurviveDelete(middle, root, after, other, target + rest, x);
    }
  }

  lemma MovedNames(t: Tree, root: Id, source: seq<string>, target: seq<string>, moved: Id, parent: Id,
                   middle: Tree, replaced: Option<Id>, after: Tree)
    requires IsTree(t, root) && Unique(t) && target != []
    requires Names(t, root, source, moved) && Names(t, root, target[..|target| - 1], parent)
    requires MovedInto(t, root, middle, moved, parent, target[|target| - 1]) && Replaces(middle, after, replaced)
    requires replaced.Some? ==>
      replaced.value in Named(t, parent, target[|target| - 1], false) && replaced.value != moved
    ensures MovedTo(t, after, root, source, target, moved)
  {
    var n := |target| - 1;
    NotUnderItself(t, root, source, moved, target[..n], parent);
    NamesSurviveMove(t, root, middle, source, moved, parent, target[n], target[..n], parent);
    assert Names(middle, root, target, moved);
    if replaced.Some? {
      assert Names(middle, root, target, replaced.value);
    }
    forall x: Id, p: seq<string> | Names(t, root, p, x) && source <= p
      ensures Names(after, root, target + p[|source|..], x)
    {
      var top := Above(t, root, p, x, |source|);
      assert p[..|source|] == source;
      OneOwner(t, root, source, top, moved);
      ContentGoesAlong(t, root, source, target, moved, parent, middle, replaced, after, p[|source|..], x);
    }
    assert source[|source|..] == [] && target + [] == target;
    assert Names(after, root, target + source[|source|..], moved);
    forall x: Id, p: seq<string> | Names(t, root, p, x) && !(source <= p) && !(target <= p)
      ensures Names(after, root, p, x)
    {
      NamesSurviveMove(t, root, middle, source, moved, parent, target[n], p, x);
      RestStays(root, target, middle, replaced, after, p, x);
    }
  }

  lemma RestStays(root: Id, target: seq<string>, middle: Tree, replaced: Option<Id>, after: Tree, p: seq<string>, x: Id)
    requires root !in middle && Names(middle, root, p, x) && !(target <= p) && Replaces(middle, after, replaced)
    requires replaced.Some? ==> Names(middle, root, target, replaced.value)
    ensures Names(after, root, p, x)
  {
    if replaced.Some? {
      if Under(middle, replaced.value, x) {
        UnderIsBelow(middle, root, target, replaced.value, p, x);
      } else {
        NamesSurviveDelete(middle, root, after, replaced.value, p, x);
      }
    }
  }

  lemma MovedIsSane(t: Tree, root: Id, issued: set<Id>, auth: Auth, entries: Entries, writes: set<Pending>,
                    source: seq<string>, target: seq<string>, moved: Id, parent: Id,
                    middle: Tree, replaced: Option<Id>, after: Tree)
    requires Sane(t, root, issued, auth, entries, writes) && IsPath(source) && IsPath(target) && target != []
    requires Names(t, root, source, moved) && Names(t, root, target[..|target| - 1], parent)
    requires Pending(parent, target[|target| - 1], None) !in writes
    requires MovedInto(t, root, middle, moved, parent, target[|target| - 1]) && Replaces(middle, after, replaced)
    requires var there := Named(t, parent, target[|target| - 1], false);
             if replaced.Some? then
               replaced.value in there && replaced.value != moved && there <= {moved, replaced.value}
             else there <= {moved}
    ensures source != []
    ensures var kept := Invalidated(Invalidated(entries, auth.Key(source)), auth.Key(target));
            Sane(after, root, issued, auth, kept, writes)
    ensures MovedTo(t, after, root, source, target, moved)
  {
    var name := target[|target| - 1];
    MovedNames(t, root, source, target, moved, parent, middle, replaced, after);
    MovedIsTree(t, root, middle, moved, parent, name);
    if replaced.Some? {
      DeletedIsTree(middle, root, after, replaced.value);
      ReplacedIsUnique(t, root, middle, after, moved, parent, name, replaced.value);
    } else {
      MovedIsUnique(t, root, middle, moved, parent, name);
    }
    MovedAllNamed(t, root, auth, entries, source, target, moved, after);
    forall w <- writes | w.existing.None? ensures Named(after, w.parent, w.name, false) == {} {
      assert w == Pending(w.parent, w.name, None);
      assert Named(after, w.parent, w.name, false) <= Named(t, w.parent, w.name, false) == {};
    }
  }

  lemma MovedAllNamed(t: Tree, root: Id, auth: Auth, entries: Entries, source: seq<string>, target: seq<string>,
                      moved: Id, after: Tree)
    requires IsTree(t, root) && AllNamed(t, root, auth, entries)
    requires IsPath(source) && IsPath(target) && source != [] && target != []
    requires Names(t, root, source, moved) && MovedTo(t, after, root, source, target, moved)
    ensures AllNamed(after, root, auth, Invalidated(Invalidated(entries, auth.Key(source)), auth.Key(target)))
  {
    var once := Invalidated(entries, auth.Key(source));
    forall p: seq<string> | IsPath(p) && p != []
      ensures NamedAt(after, root, auth, Invalidated(once, auth.Key(target)), p)
    {
      InvalidatedAt(auth, entries, source, p);
      InvalidatedAt(auth, once, target, p);
      assert NamedAt(t, root, auth, entries, p);
      var k := auth.Key(p).ToString();
      if k in entries && !(source <= p) && !(target <= p) {
        var id := entries[k].meta.id;
        if id == moved {
          OnePath(t, root, p, source, id);
        }
        assert Names(after, root, p, id);
      }
    }
  }

  // The handle waits for the path it was opened for.
  ghost predicate Opened(t: Tree, root: Id, path: seq<string>, w: Pending)
    requires path != []
  {
    var n := |path| - 1;
    && w.name == path[n] && Names(t, root, path[..n], w.parent) && IsFolder(t, root, w.parent)
    && (match w.existing
        case Some(id) => Names(t, root, path, id)
        case None => forall id :: !Names(t, root, path, id))
  }

  lemma NothingThere(t: Tree, root: Id, path: seq<string>, parent: Id)
    requires Unique(t) && path != [] && Names(t, root, path[..|path| - 1], parent)
    requires Named(t, parent, path[|path| - 1], false) == {}
    ensures forall id :: !Names(t, root, path, id)
  {
    var n := |path| - 1;
    forall id ensures !Names(t, root, path, id) {
      assert id !in Named(t, parent, path[n], false);
      if Names(t, root, path, id) {
        OneOwner(t, root, path[..n], parent, t[id].parent);
      }
    }
  }

  lemma AddedNamed(t: Tree, root: Id, auth: Auth, before: Entries, after: Entries, path: seq<string>, meta: Meta)
    requires AllNamed(t, root, auth, before) && IsPath(path) && path != []
    requires Added(before, after, auth.Key(path).ToString(), meta) && NamesMeta(t, root, path, meta)
    ensures AllNamed(t, root, auth, after)
  {
    forall other: seq<string> | IsPath(other) && other != [] ensures NamedAt(t, root, auth, after, other) {
      assert NamedAt(t, root, auth, before, other);
      if auth.Key(other).ToString() == auth.Key(path).ToString() {
        KeysDiffer(auth, other, path);
      }
    }
  }
}
