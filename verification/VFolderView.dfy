/** The view the homebrew menu draws from a folder store (sphaira/include/homebrew_vfolders.hpp, BuildView). */
module VFolderView {
  import opened Common
  import opened VFolders

  datatype View = View(folders: seq<U32>, counts: seq<nat>, previews: seq<seq<nat>>, apps: seq<nat>)

  function Repeat(ids: seq<U32>, id: U32, i: nat): seq<nat> {
    if ids == [] then [] else Repeat(ids[..|ids| - 1], id, i) + if ids[|ids| - 1] == id then [i] else []
  }

  /** The indices of the first n paths that are in folder id, in order, once per record. */
  function Hits(c: Content, paths: seq<string>, id: U32, n: nat): seq<nat>
    requires n <= |paths|
  {
    if n == 0 then [] else Hits(c, paths, id, n - 1) + Repeat(FoldersOf(c.members, paths[n - 1]), id, n - 1)
  }

  function Front(s: seq<nat>): seq<nat> {
    s[..Min(PREVIEW_MAX, |s|)]
  }

  // the columns of folder `id` after the hits `hits`
  predicate Column(count: nat, preview: seq<nat>, hits: seq<nat>) {
    count == |hits| && preview == Front(hits)
  }

  // the hits of path i's first k folders, behind those of the earlier paths
  function HitsUpTo(c: Content, paths: seq<string>, id: U32, i: nat, ids: seq<U32>): seq<nat>
    requires i <= |paths|
  {
    Hits(c, paths, id, i) + Repeat(ids, id, i)
  }

  ghost predicate Built(v: View, c: Content, paths: seq<string>, cwd: U32, i: nat, ids: seq<U32>)
    requires i <= |paths|
  {
    && v.apps == HitsUpTo(c, paths, cwd, i, ids)
    && |v.counts| == |v.folders| == |v.previews|
    && forall j :: 0 <= j < |v.folders| ==> Column(v.counts[j], v.previews[j], HitsUpTo(c, paths, v.folders[j], i, ids))
  }

  lemma RepeatNext(ids: seq<U32>, k: nat, id: U32, i: nat)
    requires k < |ids|
    ensures Repeat(ids[..k + 1], id, i) == Repeat(ids[..k], id, i) + if ids[k] == id then [i] else []
  {
    assert ids[..k + 1][..k] == ids[..k];
  }

  // BuildView's inner loop for one folder: count the app when it is in this folder
  method CountColumn(count: nat, preview: seq<nat>, here: bool, i: nat, ghost hits: seq<nat>) returns (count': nat, preview': seq<nat>)
    requires Column(count, preview, hits)
    ensures Column(count', preview', if here then hits + [i] else hits)
  {
    count', preview' := count, preview;
    if here {
      count' := count' + 1;
      if |preview'| < PREVIEW_MAX {
        preview' := preview' + [i];
      }
    }
  }

  lemma HitsNext(c: Content, paths: seq<string>, id: U32, i: nat, ids: seq<U32>, k: nat)
    requires i <= |paths| && k < |ids|
    ensures var hits := HitsUpTo(c, paths, id, i, ids[..k]);
            HitsUpTo(c, paths, id, i, ids[..k + 1]) == if ids[k] == id then hits + [i] else hits
  {
    RepeatNext(ids, k, id, i);
  }

  // the folders before j have counted the app, the others not yet
  ghost predicate Counting(v: View, c: Content, paths: seq<string>, i: nat, ids: seq<U32>, k: nat, j: nat)
    requires i <= |paths| && k < |ids|
  {
    && |v.counts| == |v.folders| == |v.previews|
    && forall m :: 0 <= m < |v.folders| ==>
         Column(v.counts[m], v.previews[m], HitsUpTo(c, paths, v.folders[m], i, ids[..if m < j then k + 1 else k]))
  }

  /** BuildView's work for one folder of path i: into the apps, and into the columns of the folders. */
  method CountHit(v: View, ghost c: Content, paths: seq<string>, cwd: U32, i: nat, ids: seq<U32>, k: nat) returns (out: View)
    requires i < |paths| && k < |ids| && Built(v, c, paths, cwd, i, ids[..k])
    ensures Built(out, c, paths, cwd, i, ids[..k + 1]) && out.folders == v.folders
  {
    hide Column, HitsUpTo;
    out := v;
    HitsNext(c, paths, cwd, i, ids, k);
    if ids[k] == cwd {
      out := out.(apps := out.apps + [i]);
    }
    for j := 0 to |out.folders|
      invariant out.folders == v.folders && out.apps == HitsUpTo(c, paths, cwd, i, ids[..k + 1])
      invariant Counting(out, c, paths, i, ids, k, j)
    {
      HitsNext(c, paths, out.folders[j], i, ids, k);
      var count, preview := CountColumn(out.counts[j], out.previews[j], out.folders[j] == ids[k], i,
                                        HitsUpTo(c, paths, out.folders[j], i, ids[..k]));
      out := out.(counts := out.counts[j := count], previews := out.previews[j := preview]);
    }
  }

  function FolderIds(folders: seq<Folder>): (ids: seq<U32>)
    ensures |ids| == |folders| && forall i :: 0 <= i < |ids| ==> ids[i] == folders[i].id
  {
    seq(|folders|, i requires 0 <= i < |folders| => folders[i].id)
  }

  // the folders of the view, with nothing counted
  method EmptyView(store: Store, cwd: U32) returns (view: View)
    ensures view.folders == (if cwd == ROOT then FolderIds(store.folders) else []) && view.apps == []
    ensures |view.counts| == |view.folders| == |view.previews|
    ensures forall j :: 0 <= j < |view.folders| ==> view.counts[j] == 0 && view.previews[j] == []
  {
    view := View([], [], [], []);
    if cwd == ROOT {
      for j := 0 to |store.folders|
        invariant view.folders == FolderIds(store.folders)[..j] && view.apps == []
        invariant |view.counts| == j == |view.previews|
        invariant forall m :: 0 <= m < j ==> view.counts[m] == 0 && view.previews[m] == []
      {
        view := View(view.folders + [store.folders[j].id], view.counts + [0], view.previews + [[]], view.apps);
      }
    }
  }

  /** BuildView. */
  method BuildView(store: Store, paths: seq<string>, cwd: U32) returns (view: View)
    ensures var c := store.Value();
      && view.folders == (if cwd == ROOT then FolderIds(c.folders) else [])
      && view.apps == Hits(c, paths, cwd, |paths|)
      && |view.counts| == |view.folders| == |view.previews|
      && forall j :: 0 <= j < |view.folders| ==>
           var hits := Hits(c, paths, view.folders[j], |paths|);
           view.counts[j] == |hits| && view.previews[j] == hits[..Min(9, |hits|)]
  {
    hide FoldersOf, FolderIds;
    ghost var c := store.Value();
    view := EmptyView(store, cwd);
    ghost var folders := view.folders;
    assert Built(view, c, paths, cwd, 0, []);
    hide Built;
    for i := 0 to |paths|
      invariant Built(view, c, paths, cwd, i, []) && view.folders == folders
    {
      var ids := store.Ids(paths[i]);
      assert ids[..0] == [];
      for k := 0 to |ids|
        invariant Built(view, c, paths, cwd, i, ids[..k]) && view.folders == folders
      {
        view := CountHit(view, c, paths, cwd, i, ids, k);
      }
      assert ids[..|ids|] == ids;
      NextPath(view, c, paths, cwd, i);
    }
    AllBuilt(view, c, paths, cwd);
  }

  lemma AllBuilt(v: View, c: Content, paths: seq<string>, cwd: U32)
    requires Built(v, c, paths, cwd, |paths|, [])
    ensures v.apps == Hits(c, paths, cwd, |paths|) && |v.counts| == |v.folders| == |v.previews|
    ensures forall j :: 0 <= j < |v.folders| ==> Column(v.counts[j], v.previews[j], Hits(c, paths, v.folders[j], |paths|))
  {
    assert forall id: U32 :: HitsUpTo(c, paths, id, |paths|, []) == Hits(c, paths, id, |paths|);
  }

  lemma NextPath(v: View, c: Content, paths: seq<string>, cwd: U32, i: nat)
    requires i < |paths| && Built(v, c, paths, cwd, i, FoldersOf(c.members, paths[i]))
    ensures Built(v, c, paths, cwd, i + 1, [])
  {
    var ids := FoldersOf(c.members, paths[i]);
    forall id: U32
      ensures HitsUpTo(c, paths, id, i + 1, []) == HitsUpTo(c, paths, id, i, ids)
    {
      assert Hits(c, paths, id, i + 1) + [] == Hits(c, paths, id, i + 1);
    }
  }

  // ---- what the view shows ----

  lemma {:induction false} RepeatOnce(ids: seq<U32>, id: U32, i: nat)
    requires NoDuplicates(ids)
    ensures Repeat(ids, id, i) == if id in ids then [i] else []
  {
    if ids != [] {
      var front := ids[..|ids| - 1];
      RepeatOnce(front, id, i);
      assert forall x :: x in ids <==> x in front || x == ids[|ids| - 1];
    }
  }

  lemma FoldersOnce(c: Content, path: string)
    requires NoDuplicates(c.members)
    ensures NoDuplicates(FoldersOf(c.members, path))
  {
    IdsAreRecords(c.members, path);
  }

  predicate Increasing(s: seq<nat>, below: nat) {
    && (forall a :: 0 <= a < |s| ==> s[a] < below)
    && forall a, b :: 0 <= a < b < |s| ==> s[a] < s[b]
  }

  /** The indices of the first n paths whose app is in folder id. */
  function Apps(c: Content, paths: seq<string>, id: U32, n: nat): seq<nat>
    requires n <= |paths|
  {
    if n == 0 then [] else Apps(c, paths, id, n - 1) + if id in Placed(c, paths[n - 1]) then [n - 1] else []
  }

  lemma {:induction false} AppsInOrder(c: Content, paths: seq<string>, id: U32, n: nat)
    requires n <= |paths|
    ensures Increasing(Apps(c, paths, id, n), n)
  {
    hide Placed;
    if n > 0 {
      AppsInOrder(c, paths, id, n - 1);
    }
  }

  lemma {:induction false} AppsAreMembers(c: Content, paths: seq<string>, id: U32, n: nat, i: nat)
    requires n <= |paths| && i < |paths|
    ensures i in Apps(c, paths, id, n) <==> i < n && id in Placed(c, paths[i])
  {
    hide Placed;
    if n > 0 {
      AppsAreMembers(c, paths, id, n - 1, i);
    }
  }

  /** In a duplicate-free store the hits of a folder are exactly its apps among the paths, each once, in order. */
  lemma {:induction false} HitsAreApps(c: Content, paths: seq<string>, id: U32, n: nat)
    requires NoDuplicates(c.members) && n <= |paths|
    ensures Hits(c, paths, id, n) == Apps(c, paths, id, n)
  {
    hide NoDuplicates, FoldersOf, Repeat, Elements;
    if n > 0 {
      HitsAreApps(c, paths, id, n - 1);
      FoldersOnce(c, paths[n - 1]);
      RepeatOnce(FoldersOf(c.members, paths[n - 1]), id, n - 1);
    }
  }

  /** The top level loses no app: each is on it or in one of the folders it shows, and no folder is hidden. */
  lemma TopLevelShowsAll(c: Content, paths: seq<string>, i: nat)
    requires WellFormed(c) && i < |paths|
    ensures || i in Hits(c, paths, ROOT, |paths|)
            || exists j :: 0 <= j < |c.folders| && i in Hits(c, paths, FolderIds(c.folders)[j], |paths|)
  {
    var ids := FoldersOf(c.members, paths[i]);
    FoldersOfKnown(c, paths[i]);
    var id := ids[0];
    assert id in Placed(c, paths[i]);
    HitsAreApps(c, paths, id, |paths|);
    AppsAreMembers(c, paths, id, |paths|, i);
    if id != ROOT {
      var j :| 0 <= j < |c.folders| && c.folders[j].id == id;
      assert FolderIds(c.folders)[j] == id;
    }
  }
}
