// Listing what lies under a glob's literal prefix.
module GlobListing {
  import opened DriveTree
  import opened Naming
  import opened Paths

  // `rel` is the path relative to the folder the listing started from.
  datatype Entry = Entry(rel: string, meta: Meta)

  // A tree of folders without a cycle has heights.
  ghost predicate Founded(t: Tree, height: map<Id, nat>) {
    forall id <- t :: id in height && t[id].parent in height && height[id] < height[t[id].parent]
  }

  ghost predicate Reachable(t: Tree, root: Id) {
    forall id <- t :: Under(t, root, id)
  }

  ghost function PathTo(t: Tree, root: Id, id: Id): (path: seq<string>)
    requires Under(t, root, id)
    ensures Names(t, root, path, id)
  {
    var path :| Names(t, root, path, id);
    path
  }

  lemma {:induction false} DepthsAreBounded(t: Tree, root: Id, ids: set<Id>) returns (bound: nat)
    requires forall id <- ids :: Under(t, root, id)
    ensures forall id <- ids :: |PathTo(t, root, id)| < bound
  {
    bound := 0;
    if ids != {} {
      var some :| some in ids;
      var rest := DepthsAreBounded(t, root, ids - {some});
      bound := rest + |PathTo(t, root, some)| + 1;
    }
  }

  // And a tree hung from its root has no cycle.
  lemma ReachableIsFounded(t: Tree, root: Id) returns (height: map<Id, nat>)
    requires IsTree(t, root) && Reachable(t, root)
    ensures Founded(t, height)
  {
    assert Names(t, root, [], root);
    var ids := t.Keys + {root};
    var bound := DepthsAreBounded(t, root, ids);
    height := map id | id in ids :: bound - |PathTo(t, root, id)|;
    forall id <- t ensures height[id] < height[t[id].parent] {
      var above, name := PathTo(t, root, t[id].parent), t[id].name;
      var path := above + [name];
      assert path[..|path| - 1] == above && Names(t, root, path, id);
      OnePath(t, root, path, PathTo(t, root, id), id);
    }
  }

  predicate InDepth(rel: seq<string>, recursive: bool) { rel != [] && (recursive || |rel| == 1) }

  ghost predicate IsEntry(t: Tree, folder: Id, above: seq<string>, recursive: bool, rel: seq<string>, e: Entry) {
    && InDepth(rel, recursive) && Names(t, folder, rel, e.meta.id)
    && e.meta.id in t && e == Entry(Join(above + rel), MetaOf(t, e.meta.id))
  }

  // Only objects below the folder are listed, under their names from there.
  ghost predicate Sound(t: Tree, folder: Id, above: seq<string>, recursive: bool, listing: seq<Entry>) {
    forall e <- listing :: exists rel :: IsEntry(t, folder, above, recursive, rel, e)
  }

  // All objects below the folder are listed.
  ghost predicate Full(t: Tree, folder: Id, above: seq<string>, recursive: bool, listing: seq<Entry>) {
    forall rel: seq<string>, id: Id :: InDepth(rel, recursive) && Names(t, folder, rel, id) ==>
      id in t && Entry(Join(above + rel), MetaOf(t, id)) in listing
  }

  lemma SoundPlus(t: Tree, folder: Id, above: seq<string>, recursive: bool, a: seq<Entry>, b: seq<Entry>)
    requires Sound(t, folder, above, recursive, a) && Sound(t, folder, above, recursive, b)
    ensures Sound(t, folder, above, recursive, a + b)
  {
  }

  lemma ChildIsSound(t: Tree, folder: Id, above: seq<string>, recursive: bool, child: Id)
    requires child in Children(t, folder)
    ensures Names(t, folder, [t[child].name], child)
    ensures Sound(t, folder, above, recursive, [Entry(Join(above + [t[child].name]), MetaOf(t, child))])
  {
    var rel := [t[child].name];
    assert rel[..0] == [] && Names(t, folder, rel[..0], folder);
    assert IsEntry(t, folder, above, recursive, rel, Entry(Join(above + rel), MetaOf(t, child)));
  }

  lemma BelowIsSound(t: Tree, folder: Id, above: seq<string>, child: Id, below: seq<Entry>)
    requires child in Children(t, folder) && Sound(t, child, above + [t[child].name], true, below)
    ensures Sound(t, folder, above, true, below)
  {
    ChildIsSound(t, folder, above, true, child);
    var name := [t[child].name];
    forall e <- below ensures exists rel :: IsEntry(t, folder, above, true, rel, e) {
      var rel :| IsEntry(t, child, above + name, true, rel, e);
      NamesConcat(t, folder, name, child, rel, e.meta.id);
      assert above + name + rel == above + (name + rel);
      assert IsEntry(t, folder, above, true, name + rel, e);
    }
  }

  ghost predicate ChildDone(t: Tree, above: seq<string>, recursive: bool, child: Id, listing: seq<Entry>) {
    && child in t
    && Entry(Join(above + [t[child].name]), MetaOf(t, child)) in listing
    && (recursive ==> Full(t, child, above + [t[child].name], true, listing))
  }

  ghost predicate AllDone(t: Tree, above: seq<string>, recursive: bool, children: seq<Meta>, listing: seq<Entry>) {
    forall m <- children :: ChildDone(t, above, recursive, m.id, listing)
  }

  lemma AllDonePlus(t: Tree, above: seq<string>, recursive: bool, children: seq<Meta>, a: seq<Entry>, b: seq<Entry>)
    requires AllDone(t, above, recursive, children, a)
    ensures AllDone(t, above, recursive, children, a + b)
  {
  }

  lemma AllDoneOneMore(t: Tree, above: seq<string>, recursive: bool, children: seq<Meta>, j: nat, listing: seq<Entry>)
    requires j < |children| && AllDone(t, above, recursive, children[..j], listing)
    requires ChildDone(t, above, recursive, children[j].id, listing)
    ensures AllDone(t, above, recursive, children[..j + 1], listing)
  {
  }

  lemma NothingUnderAFile(t: Tree, root: Id, file: Id, above: seq<string>, listing: seq<Entry>)
    requires IsTree(t, root) && file in t && !t[file].folder
    ensures Full(t, file, above, true, listing)
  {
    forall rel: seq<string>, id: Id | InDepth(rel, true) ensures !Names(t, file, rel, id) {
      if Names(t, file, rel, id) {
        ParentIsFolder(t, root, file, rel, id);
      }
    }
  }

  lemma AllDoneIsFull(t: Tree, folder: Id, above: seq<string>, recursive: bool, children: seq<Meta>,
                      listing: seq<Entry>)
    requires Lists(t, Children(t, folder), children) && AllDone(t, above, recursive, children, listing)
    ensures Full(t, folder, above, recursive, listing)
  {
    forall rel: seq<string>, id: Id | InDepth(rel, recursive) && Names(t, folder, rel, id)
      ensures id in t && Entry(Join(above + rel), MetaOf(t, id)) in listing
    {
      var child := Above(t, folder, rel, id, 1);
      var first := rel[..1];
      assert Names(t, folder, first[..|first| - 1], t[child].parent);
      assert child in Children(t, folder) && MetaOf(t, child) in children;
      assert ChildDone(t, above, recursive, child, listing);
      assert [t[child].name] == rel[..1] && rel == rel[..1] + rel[1..];
      assert above + [t[child].name] + rel[1..] == above + rel;
      if |rel| == 1 {
        assert rel[1..] == [] && id == child && above + [t[child].name] == above + rel;
      } else {
        assert InDepth(rel[1..], true) && Names(t, child, rel[1..], id);
      }
    }
  }

  // ----- Nothing is listed twice -----

  ghost predicate Once(listing: seq<Entry>) {
    forall i, j :: 0 <= i < j < |listing| ==> listing[i].meta.id != listing[j].meta.id
  }

  // Of two objects that lead to the same one, the nearer lies on the way from
  // the other.
  lemma {:induction false} OnTheWay(t: Tree, a: Id, p: seq<string>, b: Id, q: seq<string>, id: Id)
    requires Names(t, a, p, id) && Names(t, b, q, id) && |p| <= |q|
    ensures Names(t, b, q[..|q| - |p|], a)
    decreases |p|
  {
    if p == [] {
      assert q[..|q|] == q;
    } else {
      var front := q[..|q| - 1];
      OnTheWay(t, a, p[..|p| - 1], b, front, t[id].parent);
      assert front[..|front| - (|p| - 1)] == q[..|q| - |p|];
    }
  }

  lemma {:induction false} NamesGoDown(t: Tree, height: map<Id, nat>, base: Id, path: seq<string>, id: Id)
    requires Founded(t, height) && Names(t, base, path, id) && path != []
    ensures id in t && id in height && base in height && height[id] < height[base]
    decreases |path|
  {
    if |path| > 1 {
      NamesGoDown(t, height, base, path[..|path| - 1], t[id].parent);
    }
  }

  // What lies under one child of a folder does not lie under another.
  lemma ApartBelow(t: Tree, height: map<Id, nat>, folder: Id, a: Id, p: seq<string>, b: Id, q: seq<string>, id: Id)
    requires Founded(t, height) && a in Children(t, folder) && b in Children(t, folder) && |p| <= |q|
    requires Names(t, a, p, id) && Names(t, b, q, id)
    ensures a == b
  {
    OnTheWay(t, a, p, b, q, id);
    var way := q[..|q| - |p|];
    if way != [] {
      assert Names(t, b, way[..|way| - 1], folder);
      if |way| > 1 {
        NamesGoDown(t, height, b, way[..|way| - 1], folder);
      }
    }
  }

  lemma Apart(t: Tree, height: map<Id, nat>, folder: Id, a: Id, b: Id, id: Id)
    requires Founded(t, height) && a in Children(t, folder) && b in Children(t, folder)
    requires Under(t, a, id) && Under(t, b, id)
    ensures a == b
  {
    var p :| Names(t, a, p, id);
    var q :| Names(t, b, q, id);
    if |p| <= |q| {
      ApartBelow(t, height, folder, a, p, b, q, id);
    } else {
      ApartBelow(t, height, folder, b, q, a, p, id);
    }
  }

  // Each entry lies at or under one of these children.
  ghost predicate AtOrUnder(t: Tree, children: seq<Meta>, listing: seq<Entry>) {
    forall e <- listing :: exists m <- children :: Under(t, m.id, e.meta.id)
  }

  ghost predicate AllUnder(t: Tree, child: Id, listing: seq<Entry>) {
    forall e <- listing :: Under(t, child, e.meta.id)
  }

  // A child, and what is under it: nothing of it is listed yet.
  lemma OnceMore(t: Tree, height: map<Id, nat>, folder: Id, children: seq<Meta>, j: nat, listing: seq<Entry>,
                 more: seq<Entry>)
    requires Founded(t, height) && Lists(t, Children(t, folder), children) && j < |children|
    requires Once(listing) && AtOrUnder(t, children[..j], listing)
    requires Once(more) && AllUnder(t, children[j].id, more)
    ensures Once(listing + more) && AtOrUnder(t, children[..j + 1], listing + more)
  {
    forall e <- listing, f <- more ensures e.meta.id != f.meta.id {
      if e.meta.id == f.meta.id {
        var m :| m in children[..j] && Under(t, m.id, e.meta.id);
        Apart(t, height, folder, m.id, children[j].id, e.meta.id);
      }
    }
    assert children[..j + 1] == children[..j] + [children[j]];
    forall e <- listing + more ensures exists m <- children[..j + 1] :: Under(t, m.id, e.meta.id) {
      if e in listing {
        var m :| m in children[..j] && Under(t, m.id, e.meta.id);
        assert m in children[..j + 1];
      } else {
        assert children[j] in children[..j + 1] && Under(t, children[j].id, e.meta.id);
      }
    }
  }

  lemma ChildThenBelow(t: Tree, height: map<Id, nat>, child: Id, e: Entry, above: seq<string>, entries: seq<Entry>)
    requires Founded(t, height) && e.meta.id == child
    requires Once(entries) && Sound(t, child, above, true, entries)
    ensures Once([e] + entries) && AllUnder(t, child, [e] + entries)
  {
    assert Names(t, child, [], child);
    forall f <- entries ensures Under(t, child, f.meta.id) && f.meta.id != child {
      var rel :| IsEntry(t, child, above, true, rel, f);
      NamesGoDown(t, height, child, rel, f.meta.id);
    }
  }

  // The first j children, and what is under them if that was asked for.
  ghost predicate ListedUpTo(t: Tree, folder: Id, above: seq<string>, recursive: bool, children: seq<Meta>, j: nat,
                             listing: seq<Entry>)
    requires j <= |children|
  {
    && Sound(t, folder, above, recursive, listing) && Once(listing)
    && AtOrUnder(t, children[..j], listing) && AllDone(t, above, recursive, children[..j], listing)
  }

  ghost predicate ChildListed(t: Tree, folder: Id, above: seq<string>, recursive: bool, child: Id, more: seq<Entry>) {
    && Sound(t, folder, above, recursive, more) && Once(more)
    && AllUnder(t, child, more) && ChildDone(t, above, recursive, child, more)
  }

  lemma OneChildMore(t: Tree, height: map<Id, nat>, folder: Id, above: seq<string>, recursive: bool,
                     children: seq<Meta>, j: nat, listing: seq<Entry>, more: seq<Entry>)
    requires Founded(t, height) && Lists(t, Children(t, folder), children) && j < |children|
    requires ListedUpTo(t, folder, above, recursive, children, j, listing)
    requires ChildListed(t, folder, above, recursive, children[j].id, more)
    ensures ListedUpTo(t, folder, above, recursive, children, j + 1, listing + more)
  {
    SoundPlus(t, folder, above, recursive, listing, more);
    OnceMore(t, height, folder, children, j, listing, more);
    AllDonePlus(t, above, recursive, children[..j], listing, more);
    ChildStaysDone(t, above, recursive, children[j].id, listing, more);
    hide ChildDone, Sound, Once, AtOrUnder;
    AllDoneOneMore(t, above, recursive, children, j, listing + more);
  }

  lemma ChildStaysDone(t: Tree, above: seq<string>, recursive: bool, child: Id, listing: seq<Entry>, more: seq<Entry>)
    requires ChildDone(t, above, recursive, child, more)
    ensures ChildDone(t, above, recursive, child, listing + more)
  {
  }

  lemma OnlyTheChild(t: Tree, height: map<Id, nat>, root: Id, folder: Id, above: seq<string>, recursive: bool,
                     child: Id)
    requires IsTree(t, root) && Founded(t, height) && child in Children(t, folder) && (recursive ==> !t[child].folder)
    ensures ChildListed(t, folder, above, recursive, child, [Entry(Join(above + [t[child].name]), MetaOf(t, child))])
  {
    var e := Entry(Join(above + [t[child].name]), MetaOf(t, child));
    ChildIsSound(t, folder, above, recursive, child);
    ChildThenBelow(t, height, child, e, above, []);
    assert [e] + [] == [e];
    if recursive {
      NothingUnderAFile(t, root, child, above + [t[child].name], [e]);
    }
  }

  lemma ChildAndBelow(t: Tree, height: map<Id, nat>, folder: Id, above: seq<string>, child: Id, entries: seq<Entry>)
    requires Founded(t, height) && child in Children(t, folder)
    requires var below := above + [t[child].name];
             Sound(t, child, below, true, entries) && Once(entries) && Full(t, child, below, true, entries)
    ensures ChildListed(t, folder, above, true, child,
                        [Entry(Join(above + [t[child].name]), MetaOf(t, child))] + entries)
  {
    var e := Entry(Join(above + [t[child].name]), MetaOf(t, child));
    ChildIsSound(t, folder, above, true, child);
    BelowIsSound(t, folder, above, child, entries);
    SoundPlus(t, folder, above, true, [e], entries);
    ChildThenBelow(t, height, child, e, above + [t[child].name], entries);
  }

  method ListChild(drive: DriveFolders, folder: Id, child: Meta, relPrefix: string, recursive: bool,
                   ghost above: seq<string>, ghost height: map<Id, nat>)
    returns (ok: bool, listing: seq<Entry>)
    requires drive.Valid() && Founded(drive.tree, height) && IsPath(above) && relPrefix == Join(above)
    requires child.id in Children(drive.tree, folder) && child == MetaOf(drive.tree, child.id)
    modifies drive`failures
    ensures drive.failures == old(drive.failures) + if ok then 0 else 1
    ensures ok ==> ChildListed(drive.tree, folder, above, recursive, child.id, listing)
    decreases if folder in height then height[folder] else 0, 0
  {
    hide ChildListed, Sound, Full, Once;
    OneNameMore(above, child.name);
    var rel := if relPrefix == "" then child.name else relPrefix + "/" + child.name;
    if !recursive || !child.folder {
      OnlyTheChild(drive.tree, height, drive.root, folder, above, recursive, child.id);
      return true, [Entry(rel, child)];
    }
    ok, listing := ListFolder(drive, child.id, rel, recursive, above + [child.name], height);
    if ok {
      ChildAndBelow(drive.tree, height, folder, above, child.id, listing);
      listing := [Entry(rel, child)] + listing;
    }
  }

  method ListFolder(drive: DriveFolders, folder: Id, relPrefix: string, recursive: bool,
                    ghost above: seq<string>, ghost height: map<Id, nat>)
    returns (ok: bool, listing: seq<Entry>)
    requires drive.Valid() && Founded(drive.tree, height) && IsPath(above) && relPrefix == Join(above)
    modifies drive`failures
    ensures drive.failures == old(drive.failures) + if ok then 0 else 1
    ensures ok ==> Sound(drive.tree, folder, above, recursive, listing) && Once(listing)
    ensures ok ==> Full(drive.tree, folder, above, recursive, listing)
    decreases if folder in height then height[folder] else 0, 1
  {
    hide Sound, Full, Once, AtOrUnder, AllDone, ChildListed;
    var t := drive.tree;
    var children;
    ok, children := drive.ListChildren(folder);
    listing := [];
    if !ok {
      return;
    }
    NothingListed(t, folder, above, recursive, children);
    for j := 0 to |children|
      invariant drive.failures == old(drive.failures)
      invariant ListedUpTo(t, folder, above, recursive, children, j, listing)
    {
      assert children[j] in children;
      var more;
      ok, more := ListChild(drive, folder, children[j], relPrefix, recursive, above, height);
      if !ok {
        return false, [];
      }
      OneChildMore(t, height, folder, above, recursive, children, j, listing, more);
      listing := listing + more;
    }
    assert children[..|children|] == children;
    AllDoneIsFull(t, folder, above, recursive, children, listing);
    ok := true;
  }

  lemma NothingListed(t: Tree, folder: Id, above: seq<string>, recursive: bool, children: seq<Meta>)
    ensures ListedUpTo(t, folder, above, recursive, children, 0, [])
  {
  }

  lemma OneNameMore(above: seq<string>, name: string)
    requires IsPath(above) && IsSegment(name)
    ensures IsPath(above + [name])
    ensures Join(above + [name]) == if Join(above) == "" then name else Join(above) + "/" + name
  {
    if above == [] {
      assert above + [name] == [name];
    } else {
      JoinAppend(above, [name]);
      assert IsSegment(above[0]);
    }
  }
}
