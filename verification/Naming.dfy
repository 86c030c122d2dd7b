// Which objects a path names, whatever their siblings are called, and what
// that has to do with the walk.
module Naming {
  import opened DriveTree

  lemma {:induction false} NamesIsPath(t: Tree, root: Id, base: Id, path: seq<string>, id: Id)
    requires IsTree(t, root) && Names(t, base, path, id)
    ensures IsPath(path)
    decreases |path|
  {
    if path != [] {
      NamesIsPath(t, root, base, path[..|path| - 1], t[id].parent);
    }
  }

  // An object has one path from the root.
  lemma {:induction false} OnePath(t: Tree, root: Id, p: seq<string>, q: seq<string>, id: Id)
    requires root !in t && Names(t, root, p, id) && Names(t, root, q, id)
    ensures p == q
    decreases |p|
  {
    if p != [] {
      assert q != [];
      OnePath(t, root, p[..|p| - 1], q[..|q| - 1], t[id].parent);
    }
  }

  // From one place only do given names lead to an object.
  lemma {:induction false} OneBase(t: Tree, a: Id, b: Id, path: seq<string>, id: Id)
    requires Names(t, a, path, id) && Names(t, b, path, id)
    ensures a == b
    decreases |path|
  {
    if path != [] {
      OneBase(t, a, b, path[..|path| - 1], t[id].parent);
    }
  }

  lemma {:induction false} NamesConcat(t: Tree, base: Id, p: seq<string>, middle: Id, q: seq<string>, id: Id)
    requires Names(t, base, p, middle) && Names(t, middle, q, id)
    ensures Names(t, base, p + q, id)
    decreases |q|
  {
    if q == [] {
      assert p + q == p;
    } else {
      var n := |q| - 1;
      assert (p + q)[..|p + q| - 1] == p + q[..n];
      NamesConcat(t, base, p, middle, q[..n], t[id].parent);
    }
  }

  // The object the first k names lead to.
  ghost function Above(t: Tree, base: Id, path: seq<string>, id: Id, k: nat): (middle: Id)
    requires k <= |path| && Names(t, base, path, id)
    ensures Names(t, base, path[..k], middle) && Names(t, middle, path[k..], id)
    decreases |path|
  {
    var n := |path| - 1;
    if k == |path| then
      assert path[..k] == path && path[k..] == [];
      id
    else
      var middle := Above(t, base, path[..n], t[id].parent, k);
      assert path[..n][..k] == path[..k] && path[k..][..n - k] == path[..n][k..] && path[k..][n - k] == path[n];
      middle
  }

  lemma ParentIsFolder(t: Tree, root: Id, middle: Id, path: seq<string>, id: Id)
    requires IsTree(t, root) && Names(t, middle, path, id) && path != []
    ensures IsFolder(t, root, middle)
  {
  }

  // What the walk finds is so named.
  lemma {:induction false} FoundIsNamed(t: Tree, root: Id, path: seq<string>)
    ensures var walk := WalkFolder(t, root, path); walk.Found? ==> Names(t, root, path, walk.meta.id)
    ensures var walk := WalkLeaf(t, root, path); walk.Found? ==> Names(t, root, path, walk.meta.id)
    decreases |path|
  {
    if path != [] {
      var n := |path| - 1;
      FoundIsNamed(t, root, path[..n]);
      var at := WalkFolder(t, root, path[..n]);
      if at.Found? {
        PickIs(t, at.meta.id, path[n], true, root);
        PickIs(t, at.meta.id, path[n], false, root);
        assert forall id <- Named(t, at.meta.id, path[n], false) :: t[id].name == path[n] && t[id].parent == at.meta.id;
        assert Named(t, at.meta.id, path[n], true) <= Named(t, at.meta.id, path[n], false);
      }
    }
  }

  ghost predicate FoundOrAmbiguous(walk: Outcome, id: Id) {
    walk.Ambiguous? || (walk.Found? && walk.meta.id == id)
  }

  // The walk to a named object finds it or calls the path ambiguous: it never
  // ends at another object and never at nothing.
  lemma {:induction false} NamedIsFoundOrAmbiguous(t: Tree, root: Id, path: seq<string>, id: Id)
    requires IsTree(t, root) && Names(t, root, path, id)
    ensures FoundOrAmbiguous(WalkLeaf(t, root, path), id)
    ensures IsFolder(t, root, id) ==> FoundOrAmbiguous(WalkFolder(t, root, path), id)
    decreases |path|
  {
    if path != [] {
      var n := |path| - 1;
      var parent := t[id].parent;
      NamedIsFoundOrAmbiguous(t, root, path[..n], parent);
      assert id in Named(t, parent, path[n], false);
      PickIs(t, parent, path[n], false, id);
      PickIs(t, parent, path[n], true, id);
      if IsFolder(t, root, id) {
        assert id in Named(t, parent, path[n], true);
      }
    }
  }

  // No sibling stands in the way: of each folder on the path no other folder
  // has the name, and of the object at its end nothing else has it (or, when
  // only folders count, no other folder).
  ghost predicate Alone(t: Tree, path: seq<string>, id: Id, folderOnly: bool)
    decreases |path|
  {
    if path == [] then true
    else
      var n := |path| - 1;
      && id in t && Named(t, t[id].parent, path[n], folderOnly) == {id}
      && Alone(t, path[..n], t[id].parent, true)
  }

  // Exactly then the walk finds the object.
  lemma {:induction false} FoundIffAlone(t: Tree, root: Id, path: seq<string>, id: Id)
    requires IsTree(t, root) && Names(t, root, path, id)
    ensures WalkLeaf(t, root, path).Found? <==> Alone(t, path, id, false)
    ensures IsFolder(t, root, id) ==> (WalkFolder(t, root, path).Found? <==> Alone(t, path, id, true))
    decreases |path|
  {
    if path != [] {
      var n := |path| - 1;
      var parent := t[id].parent;
      FoundIffAlone(t, root, path[..n], parent);
      NamedIsFoundOrAmbiguous(t, root, path[..n], parent);
      PickIsFound(t, parent, path[n], false, id);
      if IsFolder(t, root, id) {
        PickIsFound(t, parent, path[n], true, id);
      }
    }
  }

  lemma PickIsFound(t: Tree, parent: Id, name: string, folderOnly: bool, id: Id)
    requires id in Named(t, parent, name, folderOnly)
    ensures Pick(t, parent, name, folderOnly).Found? <==> Named(t, parent, name, folderOnly) == {id}
  {
    PickIs(t, parent, name, folderOnly, id);
  }
}
