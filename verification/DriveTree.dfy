// The folder tree behind a configured root, in which any number of siblings
// may share a name, and what a path means in it.
module DriveTree {
  import opened Paths

  type Id = string

  datatype Obj = Obj(parent: Id, name: string, folder: bool)

  type Tree = map<Id, Obj>

  datatype Meta = Meta(id: Id, name: string, folder: bool)

  datatype Outcome = Found(meta: Meta) | NotFound | Ambiguous

  predicate IsSegment(name: string) { name != "" && NoSlash(name) }

  predicate IsPath(path: seq<string>) {
    forall i :: 0 <= i < |path| ==> IsSegment(path[i])
  }

  // Every parent is a folder, and names are single segments. Nothing says that
  // siblings differ in name.
  ghost predicate IsTree(t: Tree, root: Id) {
    && root !in t
    && forall id <- t :: IsSegment(t[id].name) && IsFolder(t, root, t[id].parent)
  }

  predicate IsFolder(t: Tree, root: Id, id: Id) { id == root || (id in t && t[id].folder) }

  function MetaOf(t: Tree, id: Id): Meta
    requires id in t
  {
    Meta(id, t[id].name, t[id].folder)
  }

  // Nothing in the model depends on what the root itself is called.
  function RootMeta(root: Id): Meta { Meta(root, "", true) }

  // ----- What a path means without a cache -----

  ghost function Named(t: Tree, parent: Id, name: string, folderOnly: bool): set<Id> {
    set id <- t | t[id].parent == parent && t[id].name == name && (folderOnly ==> t[id].folder)
  }

  // One listing by name: the only match, or none, or too many.
  ghost function Pick(t: Tree, parent: Id, name: string, folderOnly: bool): Outcome {
    var ids := Named(t, parent, name, folderOnly);
    if ids == {} then NotFound
    else
      var id :| id in ids;
      if ids == {id} then Found(MetaOf(t, id)) else Ambiguous
  }

  ghost function Child(t: Tree, at: Outcome, name: string, folderOnly: bool): Outcome {
    if at.Found? then Pick(t, at.meta.id, name, folderOnly) else at
  }

  // Folders all the way.
  ghost function WalkFolder(t: Tree, root: Id, path: seq<string>): Outcome
    decreases |path|
  {
    if path == [] then Found(RootMeta(root))
    else
      var n := |path| - 1;
      Child(t, WalkFolder(t, root, path[..n]), path[n], true)
  }

  // Folders up to the last segment, which may be of any kind.
  ghost function WalkLeaf(t: Tree, root: Id, path: seq<string>): Outcome {
    if path == [] then Found(RootMeta(root))
    else
      var n := |path| - 1;
      Child(t, WalkFolder(t, root, path[..n]), path[n], false)
  }

  lemma PickIs(t: Tree, parent: Id, name: string, folderOnly: bool, id: Id)
    ensures Named(t, parent, name, folderOnly) == {id} ==>
      id in t && Pick(t, parent, name, folderOnly) == Found(MetaOf(t, id))
    ensures Pick(t, parent, name, folderOnly).Found? ==>
      var m := Pick(t, parent, name, folderOnly).meta;
      Named(t, parent, name, folderOnly) == {m.id} && m.id in t && m == MetaOf(t, m.id)
  {
  }

  // Looking at folders only can turn an ambiguous name into the one folder, or
  // a file into nothing, and changes nothing else.
  lemma FolderPick(t: Tree, parent: Id, name: string)
    ensures var any, only := Pick(t, parent, name, false), Pick(t, parent, name, true);
            && (any.Found? ==> only == if any.meta.folder then any else NotFound)
            && (any.NotFound? ==> only == NotFound)
            && (only.Found? ==> only.meta.folder && (any == only || any.Ambiguous?))
  {
    var any, only := Named(t, parent, name, false), Named(t, parent, name, true);
    assert only <= any;
    PickIs(t, parent, name, false, parent);
    PickIs(t, parent, name, true, parent);
    var pick := Pick(t, parent, name, false);
    if pick.Found? {
      var id := pick.meta.id;
      assert id in any;
      if pick.meta.folder {
        assert only == {id};
        PickIs(t, parent, name, true, id);
      } else {
        assert only == {};
      }
    }
    var folders := Pick(t, parent, name, true);
    if folders.Found? {
      assert folders.meta.id in only && folders.meta.id in any;
      if any == {folders.meta.id} {
        PickIs(t, parent, name, false, folders.meta.id);
      }
    }
  }

  lemma FolderOrLeaf(t: Tree, root: Id, path: seq<string>)
    ensures var any, only := WalkLeaf(t, root, path), WalkFolder(t, root, path);
            && (any.Found? ==> only == if any.meta.folder then any else NotFound)
            && (any.NotFound? ==> only == NotFound)
            && (only.Found? ==> only.meta.folder && (any == only || any.Ambiguous?))
  {
    if path != [] {
      var at := WalkFolder(t, root, path[..|path| - 1]);
      if at.Found? {
        FolderPick(t, at.meta.id, path[|path| - 1]);
      }
    }
  }

  // ----- Listings -----

  // A complete listing of these objects, in some order.
  ghost predicate Lists(t: Tree, ids: set<Id>, listing: seq<Meta>) {
    && ids <= t.Keys
    && |listing| == |ids|
    && (forall i, j :: 0 <= i < j < |listing| ==> listing[i].id != listing[j].id)
    && (forall m <- listing :: m.id in ids && m == MetaOf(t, m.id))
    && (forall id <- ids :: MetaOf(t, id) in listing)
  }

  // Counting the matches decides what the name means.
  lemma ListingPicks(t: Tree, parent: Id, name: string, folderOnly: bool, listing: seq<Meta>)
    requires Lists(t, Named(t, parent, name, folderOnly), listing)
    ensures var pick := Pick(t, parent, name, folderOnly);
            if |listing| == 0 then pick.NotFound?
            else if |listing| == 1 then pick == Found(listing[0])
            else pick.Ambiguous?
  {
  }

  lemma ListsOneMore(t: Tree, ids: set<Id>, listing: seq<Meta>, todo: set<Id>, id: Id)
    requires todo <= ids && Lists(t, ids - todo, listing) && id in t && id in todo
    ensures Lists(t, ids - (todo - {id}), listing + [MetaOf(t, id)])
  {
  }

  method ListInSomeOrder(t: Tree, ids: set<Id>) returns (listing: seq<Meta>)
    requires ids <= t.Keys
    ensures Lists(t, ids, listing)
  {
    listing := [];
    var todo := ids;
    while todo != {}
      invariant todo <= ids && Lists(t, ids - todo, listing)
      decreases todo
    {
      var id :| id in todo;
      ListsOneMore(t, ids, listing, todo, id);
      todo := todo - {id};
      listing := listing + [MetaOf(t, id)];
    }
    assert ids - todo == ids;
  }

  // ----- What lies under an object -----

  // `path` spells the names on the way from `base` down to `id`.
  ghost predicate Names(t: Tree, base: Id, path: seq<string>, id: Id)
    decreases |path|
  {
    if path == [] then id == base
    else
      var n := |path| - 1;
      id in t && t[id].name == path[n] && Names(t, base, path[..n], t[id].parent)
  }

  ghost predicate Under(t: Tree, top: Id, id: Id) {
    exists path :: Names(t, top, path, id)
  }

  lemma ChildIsUnder(t: Tree, top: Id, id: Id)
    requires id in t && Under(t, top, t[id].parent)
    ensures Under(t, top, id)
  {
    var path :| Names(t, top, path, t[id].parent);
    var longer := path + [t[id].name];
    assert longer[..|longer| - 1] == path && Names(t, top, longer, id);
  }

  ghost predicate SoundSubtree(t: Tree, top: Id, found: set<Id>) {
    top in found && forall id <- found :: Under(t, top, id)
  }

  lemma {:induction false} ClosedIsComplete(t: Tree, top: Id, found: set<Id>, path: seq<string>, id: Id)
    requires top in found && (forall x <- t :: t[x].parent in found ==> x in found) && Names(t, top, path, id)
    ensures id in found
    decreases |path|
  {
    if path != [] {
      ClosedIsComplete(t, top, found, path[..|path| - 1], t[id].parent);
    }
  }

  method Subtree(t: Tree, top: Id) returns (found: set<Id>)
    requires top in t
    ensures forall id :: id in found <==> Under(t, top, id)
  {
    found := {top};
    assert Names(t, top, [], top);
    while exists x :: x in t && x !in found && t[x].parent in found
      invariant SoundSubtree(t, top, found) && found <= t.Keys
      decreases t.Keys - found
    {
      var x :| x in t && x !in found && t[x].parent in found;
      ChildIsUnder(t, top, x);
      found := found + {x};
    }
    forall id | Under(t, top, id) ensures id in found {
      var path :| Names(t, top, path, id);
      ClosedIsComplete(t, top, found, path, id);
    }
  }

  // The service, as far as names go. A listing is answered completely, in an
  // order of its own, or fails. A change is applied and answered, or refused,
  // or fails with nobody knowing whether it was applied; moving a folder to a
  // place under itself is refused. An id is never issued twice.
  class DriveFolders {
    const root: Id
    var tree: Tree
    var issued: set<Id>
    // How many requests failed. One that Drive refuses because of what the
    // tree is like has not failed.
    ghost var failures: nat

    constructor (root: Id, tree: Tree)
      requires IsTree(tree, root)
      ensures Valid() && this.root == root && this.tree == tree
    {
      this.root, this.tree, issued, failures := root, tree, tree.Keys + {root}, 0;
    }

    ghost predicate Valid()
      reads `tree, `issued
    {
      IsTree(tree, root) && tree.Keys + {root} <= issued
    }

    // The reply to a change: it may be lost once the change is made.
    method Create(parent: Id, name: string, folder: bool) returns (ok: bool, meta: Meta, ghost made: bool)
      requires Valid() && IsSegment(name)
      modifies this
      ensures Valid() && old(issued) <= issued
      ensures if made then IsFolder(old(tree), root, parent) && meta.id !in old(issued)
                           && tree == old(tree)[meta.id := Obj(parent, name, folder)]
                           && meta == Meta(meta.id, name, folder)
              else tree == old(tree)
      ensures ok ==> made
      ensures failures >= old(failures)
      ensures !ok && IsFolder(old(tree), root, parent) ==> failures > old(failures)
    {
      var id: Id, applied: bool, answered: bool := *, *, *;
      meta := Meta(id, name, folder);
      if !applied || id in issued || !IsFolder(tree, root, parent) {
        failures := failures + 1;
        return false, meta, false;
      }
      tree, issued := tree[id := Obj(parent, name, folder)], issued + {id};
      ok, made := answered, true;
      failures := failures + if ok then 0 else 1;
    }

    method Move(id: Id, newParent: Id, newName: string, oldParent: Id) returns (ok: bool)
      requires Valid() && IsSegment(newName)
      modifies `tree, `failures
      ensures Valid()
      ensures tree == old(tree) || MovedInto(old(tree), root, tree, id, newParent, newName)
      ensures ok ==> MovedInto(old(tree), root, tree, id, newParent, newName)
      ensures failures >= old(failures)
      ensures !ok && failures == old(failures) ==>
        || id !in old(tree) || old(tree)[id].parent != oldParent || !IsFolder(old(tree), root, newParent)
        || Under(old(tree), id, newParent)
    {
      var applied: bool, answered: bool := *, *;
      if !applied {
        failures := failures + 1;
        return false;
      }
      if id !in tree || tree[id].parent != oldParent || !IsFolder(tree, root, newParent) {
        return false;
      }
      var below := Subtree(tree, id);
      if newParent in below {
        return false;
      }
      tree := tree[id := Obj(newParent, newName, tree[id].folder)];
      ok := answered;
      failures := failures + if ok then 0 else 1;
    }

    // New content for an object, sent together with a name for it. An object
    // that is gone from the tree may still be there in the trash.
    method Update(id: Id, name: string) returns (ok: bool)
      requires Valid() && IsSegment(name)
      modifies `tree, `failures
      ensures Valid()
      ensures tree == old(tree) || tree == Renamed(old(tree), id, name)
      ensures ok ==> tree == Renamed(old(tree), id, name)
      ensures failures == old(failures) + if ok then 0 else 1
    {
      var applied: bool, answered: bool := *, *;
      ok := applied && answered;
      failures := failures + if ok then 0 else 1;
      if applied {
        tree := Renamed(tree, id, name);
      }
    }

    // Trashed or deleted, an object is gone from every listing together with
    // all that is under it.
    method Delete(id: Id) returns (ok: bool)
      requires Valid()
      modifies `tree, `failures
      ensures Valid()
      ensures tree == old(tree) || DeletedFrom(old(tree), tree, id)
      ensures ok ==> DeletedFrom(old(tree), tree, id)
      ensures failures >= old(failures) && (!ok && id in old(tree) ==> failures > old(failures))
    {
      var applied: bool, answered: bool := *, *;
      if !applied || id !in tree {
        failures := failures + 1;
        return false;
      }
      var gone := Subtree(tree, id);
      ghost var before := tree;
      tree := tree - gone;
      DeletedIsTree(before, root, tree, id);
      ok := answered;
      failures := failures + if ok then 0 else 1;
    }

    method ListByName(parent: Id, name: string, folderOnly: bool) returns (ok: bool, listing: seq<Meta>)
      modifies `failures
      ensures failures == old(failures) + if ok then 0 else 1
      ensures ok ==> Lists(tree, Named(tree, parent, name, folderOnly), listing)
    {
      ok := *;
      failures := failures + if ok then 0 else 1;
      listing := ListInSomeOrder(
        tree,
        set id <- tree | tree[id].parent == parent && tree[id].name == name && (folderOnly ==> tree[id].folder));
    }

    method ListChildren(parent: Id) returns (ok: bool, listing: seq<Meta>)
      modifies `failures
      ensures failures == old(failures) + if ok then 0 else 1
      ensures ok ==> Lists(tree, Children(tree, parent), listing)
    {
      ok := *;
      failures := failures + if ok then 0 else 1;
      listing := ListInSomeOrder(tree, set id <- tree | tree[id].parent == parent);
    }

    method GetRoot() returns (ok: bool, meta: Meta)
      modifies `failures
      ensures failures == old(failures) + if ok then 0 else 1
      ensures ok ==> meta == RootMeta(root)
    {
      ok, meta := *, RootMeta(root);
      failures := failures + if ok then 0 else 1;
    }
  }

  function Renamed(t: Tree, id: Id, name: string): Tree {
    if id in t then t[id := t[id].(name := name)] else t
  }

  ghost predicate MovedInto(t: Tree, root: Id, after: Tree, id: Id, parent: Id, name: string) {
    id in t && IsFolder(t, root, parent) && !Under(t, id, parent) && after == t[id := Obj(parent, name, t[id].folder)]
  }

  ghost predicate DeletedFrom(t: Tree, after: Tree, id: Id) {
    id in t && (forall x <- after :: x in t && after[x] == t[x]) && (forall x <- t :: x in after <==> !Under(t, id, x))
  }

  lemma DeletedIsTree(t: Tree, root: Id, after: Tree, id: Id)
    requires IsTree(t, root) && DeletedFrom(t, after, id)
    ensures IsTree(after, root)
  {
    forall x <- after ensures IsFolder(after, root, after[x].parent) {
      if Under(t, id, t[x].parent) {
        ChildIsUnder(t, id, x);
      }
    }
  }

  ghost function Children(t: Tree, parent: Id): set<Id> { set id <- t | t[id].parent == parent }
}
