/** Virtual homebrew folders: a folder is a tag an app can carry (sphaira/include/homebrew_vfolders.hpp). */
module VFolders {
  import opened Common

  const ROOT: U32 := 0
  const PREVIEW_MAX := 9

  datatype Folder = Folder(id: U32, name: string)
  datatype Member = Member(id: U32, path: string)

  /** What a Store holds. */
  datatype Content = Content(folders: seq<Folder>, members: seq<Member>)

  predicate IsValidName(name: string) {
    && (exists i :: 0 <= i < |name| && name[i] != ' ')
    && forall i :: 0 <= i < |name| ==> name[i] != '\t' && name[i] != '\r' && name[i] != '\n'
  }

  /** A name is refused when it is empty or blank, or has a tab or a line end. */
  lemma NameRefusedExactly(name: string)
    ensures !IsValidName(name) <==>
              || (forall i :: 0 <= i < |name| ==> name[i] == ' ')
              || (exists i :: 0 <= i < |name| && name[i] in "\t\r\n")
  {
    assert forall c: char :: c in "\t\r\n" <==> c == '\t' || c == '\r' || c == '\n';
  }

  // ---- where an app is ----

  /** The ids of the records of an app, in order. */
  function IdsOf(members: seq<Member>, path: string): seq<U32> {
    if members == [] then [] else IdOf(members[0], path) + IdsOf(members[1..], path)
  }

  function IdOf(m: Member, path: string): seq<U32> {
    if m.path == path then [m.id] else []
  }

  function OrRoot(ids: seq<U32>): seq<U32> {
    if ids == [] then [ROOT] else ids
  }

  /** FoldersOf: the folders the app is in; ROOT when it has none. */
  function FoldersOf(members: seq<Member>, path: string): seq<U32> {
    OrRoot(IdsOf(members, path))
  }

  /** The map the store stands for: from an app to the non-empty set of its folders. */
  function Placed(c: Content, path: string): (ids: set<U32>)
    ensures ids != {}
  {
    Elements(FoldersOf(c.members, path))
  }

  function Elements(ids: seq<U32>): (elements: set<U32>)
    ensures forall id :: id in elements <==> id in ids
    ensures ids == [] <==> elements == {}
  {
    var elements := set id | id in ids;
    assert ids != [] ==> ids[0] in elements;
    elements
  }

  function Without(members: seq<Member>, path: string): seq<Member> {
    if members == [] then [] else
    (if members[0].path == path then [] else [members[0]]) + Without(members[1..], path)
  }

  function Tagged(ids: seq<U32>, path: string): seq<Member> {
    seq(|ids|, i requires 0 <= i < |ids| => Member(ids[i], path))
  }

  function Erase(ids: seq<U32>, id: U32): seq<U32> {
    if ids == [] then [] else (if ids[0] == id then [] else [ids[0]]) + Erase(ids[1..], id)
  }

  function Include(ids: seq<U32>, id: U32): seq<U32> {
    if id in ids then ids else ids + [id]
  }

  // ---- folders ----

  function FindFolder(folders: seq<Folder>, id: U32): Option<Folder> {
    if folders == [] then None else if folders[0].id == id then Some(folders[0]) else FindFolder(folders[1..], id)
  }

  function FindFolderByName(folders: seq<Folder>, name: string): Option<Folder> {
    if folders == [] then None else if folders[0].name == name then Some(folders[0]) else FindFolderByName(folders[1..], name)
  }

  /** The id CreateFolder gives a new folder: above every id, where the u32 addition does not wrap. */
  function NextId(folders: seq<Folder>): (id: U32)
    ensures id > 0
    ensures forall f :: f in folders && f.id < U32_LIMIT - 1 ==> f.id < id
  {
    if folders == [] then 1 else
    var last := folders[|folders| - 1];
    Max(NextId(folders[..|folders| - 1]), if last.id == U32_LIMIT - 1 then 0 else last.id + 1)
  }

  function Renamed(folders: seq<Folder>, id: U32, name: string): seq<Folder> {
    if folders == [] then []
    else if folders[0].id == id then [Folder(id, name)] + folders[1..]
    else [folders[0]] + Renamed(folders[1..], id, name)
  }

  function WithoutFolder(folders: seq<Folder>, id: U32): seq<Folder> {
    if folders == [] then [] else (if folders[0].id == id then [] else [folders[0]]) + WithoutFolder(folders[1..], id)
  }

  function WithoutTag(members: seq<Member>, id: U32): seq<Member> {
    if members == [] then [] else (if members[0].id == id then [] else [members[0]]) + WithoutTag(members[1..], id)
  }

  // ---- the operations on contents ----

  datatype Op =
    | Add(path: string, to: U32)
    | Remove(path: string, from: U32)
    | Move(path: string, from: U32, to: U32)
    | Create(name: string)
    | Rename(id: U32, name: string)
    | Delete(id: U32)

  /** SetFolders: the top level alone needs no record. */
  function Place(c: Content, path: string, ids: seq<U32>): Content {
    c.(members := Without(c.members, path) + if ids == [] || ids == [ROOT] then [] else Tagged(ids, path))
  }

  function CanRename(c: Content, id: U32, name: string): bool {
    var other := FindFolderByName(c.folders, name);
    IsValidName(name) && (other.None? || other.value.id == id) && FindFolder(c.folders, id).Some?
  }

  function Do(c: Content, op: Op): Content {
    match op
    case Add(path, to) => Place(c, path, Include(FoldersOf(c.members, path), to))
    case Remove(path, from) => Place(c, path, Erase(FoldersOf(c.members, path), from))
    case Move(path, from, to) => Place(c, path, Include(Erase(FoldersOf(c.members, path), from), to))
    case Create(name) =>
      if !IsValidName(name) || FindFolderByName(c.folders, name).Some? then c
      else c.(folders := c.folders + [Folder(NextId(c.folders), name)])
    case Rename(id, name) => if CanRename(c, id, name) then c.(folders := Renamed(c.folders, id, name)) else c
    case Delete(id) => Content(WithoutFolder(c.folders, id), WithoutTag(c.members, id))
  }

  function Run(c: Content, ops: seq<Op>): Content
    decreases |ops|
  {
    if ops == [] then c else Run(Do(c, ops[0]), ops[1..])
  }

  // ---- the loops of the store ----

  lemma WithoutNext(members: seq<Member>, i: nat, path: string)
    requires i < |members|
    ensures Without(members[i..], path) == if members[i].path == path then Without(members[i + 1..], path) else [members[i]] + Without(members[i + 1..], path)
  {
    assert members[i..][0] == members[i] && members[i..][1..] == members[i + 1..];
  }

  lemma WithoutFolderNext(folders: seq<Folder>, i: nat, id: U32)
    requires i < |folders|
    ensures WithoutFolder(folders[i..], id) == if folders[i].id == id then WithoutFolder(folders[i + 1..], id) else [folders[i]] + WithoutFolder(folders[i + 1..], id)
  {
    assert folders[i..][0] == folders[i] && folders[i..][1..] == folders[i + 1..];
  }

  lemma WithoutTagNext(members: seq<Member>, i: nat, id: U32)
    requires i < |members|
    ensures WithoutTag(members[i..], id) == if members[i].id == id then WithoutTag(members[i + 1..], id) else [members[i]] + WithoutTag(members[i + 1..], id)
  {
    assert members[i..][0] == members[i] && members[i..][1..] == members[i + 1..];
  }

  // ---- the store ----

  class Store {
    var folders: seq<Folder>
    var members: seq<Member>

    function Value(): Content
      reads this
    {
      Content(folders, members)
    }

    constructor ()
      ensures Value() == Content([], [])
    {
      folders, members := [], [];
    }

    // std::erase_if on the members of an app
    method EraseRecords(path: string)
      modifies this`members
      ensures members == Without(old(members), path)
    {
      assert Without([], path) == [];
      hide Without;
      var kept := [];
      for i := 0 to |members|
        invariant members == old(members) && kept + Without(members[i..], path) == Without(members, path)
      {
        WithoutNext(members, i, path);
        Assoc(kept, [members[i]], Without(members[i + 1..], path));
        if members[i].path != path {
          kept := kept + [members[i]];
        }
      }
      assert members[|members|..] == [] && kept + [] == kept;
      members := kept;
    }

    method SetFolders(path: string, ids: seq<U32>)
      modifies this
      ensures Value() == Place(old(Value()), path, ids)
      ensures folders == old(folders)
      ensures forall m :: m in members <==>
                (m in old(members) && m.path != path) || (m.path == path && m.id in ids && ids != [ROOT])
    {
      hide Without, Tagged;
      PlaceRecords(members, path, ids);
      EraseRecords(path);
      if ids == [] || (|ids| == 1 && ids[0] == ROOT) {
        return;
      }
      PushRecords(path, ids);
    }

    // the loop of SetFolders
    method PushRecords(path: string, ids: seq<U32>)
      modifies this`members
      ensures members == old(members) + Tagged(ids, path)
    {
      for i := 0 to |ids|
        invariant members == old(members) + Tagged(ids[..i], path)
      {
        assert Tagged(ids[..i + 1], path) == Tagged(ids[..i], path) + [Member(ids[i], path)];
        members := members + [Member(ids[i], path)];
      }
      assert ids[..|ids|] == ids;
    }

    method Ids(path: string) returns (out: seq<U32>)
      ensures out == FoldersOf(members, path)
    {
      out := [];
      for i := 0 to |members|
        invariant out + IdsOf(members[i..], path) == IdsOf(members, path)
      {
        if members[i].path == path {
          out := out + [members[i].id];
        }
      }
      if out == [] {
        out := [ROOT];
      }
    }

    method Add(path: string, to: U32)
      modifies this
      ensures Value() == Do(old(Value()), Op.Add(path, to))
    {
      var ids := Ids(path);
      if to !in ids {
        ids := ids + [to];
      }
      SetFolders(path, ids);
    }

    method Remove(path: string, from: U32)
      modifies this
      ensures Value() == Do(old(Value()), Op.Remove(path, from))
    {
      var ids := Ids(path);
      SetFolders(path, Erase(ids, from));
    }

    method Move(path: string, from: U32, to: U32)
      modifies this
      ensures Value() == Do(old(Value()), Op.Move(path, from, to))
    {
      var ids := Ids(path);
      ids := Erase(ids, from);
      if to !in ids {
        ids := ids + [to];
      }
      SetFolders(path, ids);
    }

    /** The id of the new folder, or of the folder that already has this name; ROOT for a bad name. */
    method CreateFolder(name: string) returns (id: U32)
      modifies this
      ensures Value() == Do(old(Value()), Op.Create(name))
      // refused: an empty or blank name, and one with a tab or a line end
      ensures (forall i :: 0 <= i < |name| ==> name[i] == ' ') || (exists i :: 0 <= i < |name| && name[i] in "\t\r\n") ==>
                id == ROOT && folders == old(folders)
      ensures !(forall i :: 0 <= i < |name| ==> name[i] == ' ') && !(exists i :: 0 <= i < |name| && name[i] in "\t\r\n") ==>
                Folder(id, name) in folders
      // a new folder comes last, with an id one above another or 1; nothing else changes
      ensures members == old(members)
      ensures !IsValidName(name) || (exists f :: f in old(folders) && f.name == name) ==> folders == old(folders)
      ensures IsValidName(name) && (forall f :: f in old(folders) ==> f.name != name) ==>
                && folders == old(folders) + [Folder(id, name)]
                && (id == 1 || exists f :: f in old(folders) && f.id == id - 1)
                && forall f :: f in old(folders) && f.id < U32_LIMIT - 1 ==> f.id < id
    {
      hide IsValidName, FindFolderByName, NextId;
      NameFound(folders, name);
      NameRefusedExactly(name);
      if !IsValidName(name) {
        return ROOT;
      }
      var f := FindFolderByName(folders, name);
      if f.Some? {
        FoundByName(folders, name);
        return f.value.id;
      }
      id := NewId();
      NextIdIsAbove(folders);
      folders := folders + [Folder(id, name)];
      assert folders[|folders| - 1] == Folder(id, name);
    }

    // the loop of CreateFolder
    method NewId() returns (id: U32)
      ensures id == NextId(folders)
    {
      id := 1;
      for i := 0 to |folders|
        invariant id == NextId(folders[..i])
      {
        assert folders[..i + 1][..i] == folders[..i];
        var next := if folders[i].id == U32_LIMIT - 1 then 0 else folders[i].id + 1;
        id := Max(id, next);
      }
      assert folders[..|folders|] == folders;
    }

    // the loop of RenameFolder: the first folder with the id gets the name
    method RenameFirst(id: U32, name: string) returns (ok: bool)
      modifies this`folders
      ensures ok <==> FindFolder(old(folders), id).Some?
      ensures folders == if ok then Renamed(old(folders), id, name) else old(folders)
    {
      for i := 0 to |folders|
        invariant folders == old(folders)
        invariant FindFolder(folders, id) == FindFolder(folders[i..], id)
        invariant Renamed(folders, id, name) == folders[..i] + Renamed(folders[i..], id, name)
      {
        if folders[i].id == id {
          assert folders[..i] + [Folder(id, name)] + folders[i + 1..] == folders[i := Folder(id, name)];
          folders := folders[i := Folder(id, name)];
          return true;
        }
      }
      return false;
    }

    method RenameFolder(id: U32, name: string) returns (ok: bool)
      modifies this
      ensures ok <==> CanRename(old(Value()), id, name)
      ensures Value() == Do(old(Value()), Op.Rename(id, name))
      // of distinct folders: the name is valid and no other folder's, and the folder with the id gets it
      ensures DistinctFolders(old(folders)) ==>
                (ok <==> && IsValidName(name) && (exists f :: f in old(folders) && f.id == id)
                         && forall f :: f in old(folders) && f.name == name ==> f.id == id)
      ensures members == old(members) && (!ok ==> folders == old(folders))
      ensures ok && DistinctFolders(old(folders)) ==>
                && |folders| == |old(folders)|
                && forall i :: 0 <= i < |folders| ==>
                     folders[i] == if old(folders)[i].id == id then Folder(id, name) else old(folders)[i]
    {
      RenameMeans(folders, id, name);
      if !IsValidName(name) {
        return false;
      }
      var other := FindFolderByName(folders, name);
      if other.Some? && other.value.id != id {
        return false;
      }
      ok := RenameFirst(id, name);
    }

    method EraseFolder(id: U32)
      modifies this`folders
      ensures folders == WithoutFolder(old(folders), id)
    {
      assert WithoutFolder([], id) == [];
      hide WithoutFolder;
      var kept := [];
      for i := 0 to |folders|
        invariant folders == old(folders) && kept + WithoutFolder(folders[i..], id) == WithoutFolder(folders, id)
      {
        WithoutFolderNext(folders, i, id);
        Assoc(kept, [folders[i]], WithoutFolder(folders[i + 1..], id));
        if folders[i].id != id {
          kept := kept + [folders[i]];
        }
      }
      assert folders[|folders|..] == [] && kept + [] == kept;
      folders := kept;
    }

    method EraseTag(id: U32)
      modifies this`members
      ensures members == WithoutTag(old(members), id)
    {
      assert WithoutTag([], id) == [];
      hide WithoutTag;
      var kept := [];
      for i := 0 to |members|
        invariant members == old(members) && kept + WithoutTag(members[i..], id) == WithoutTag(members, id)
      {
        WithoutTagNext(members, i, id);
        Assoc(kept, [members[i]], WithoutTag(members[i + 1..], id));
        if members[i].id != id {
          kept := kept + [members[i]];
        }
      }
      assert members[|members|..] == [] && kept + [] == kept;
      members := kept;
    }

    method DeleteFolder(id: U32)
      modifies this
      ensures Value() == Do(old(Value()), Op.Delete(id))
      ensures forall f :: f in folders <==> f in old(folders) && f.id != id
      ensures forall m :: m in members <==> m in old(members) && m.id != id
    {
      WithoutFolderHas(folders, id);
      WithoutTagIsSubseq(members, id);
      EraseFolder(id);
      EraseTag(id);
    }
  }

  lemma PlaceRecords(members: seq<Member>, path: string, ids: seq<U32>)
    ensures forall m :: m in Place(Content([], members), path, ids).members <==>
              (m in members && m.path != path) || (m.path == path && m.id in ids && ids != [ROOT])
  {
    WithoutIsSubseq(members, path);
    var tagged := Tagged(ids, path);
    forall m: Member | m.path == path && m.id in ids
      ensures m in tagged
    {
      var k :| 0 <= k < |ids| && ids[k] == m.id;
      assert tagged[k] == m;
    }
    hide Without;
  }

  lemma {:induction false} NameFound(folders: seq<Folder>, name: string)
    ensures FindFolderByName(folders, name).Some? <==> exists f :: f in folders && f.name == name
  {
    if folders != [] {
      NameFound(folders[1..], name);
      assert forall f :: f in folders <==> f == folders[0] || f in folders[1..];
    }
  }

  lemma NextIdIsAbove(folders: seq<Folder>)
    ensures NextId(folders) == 1 || exists f :: f in folders && f.id == NextId(folders) - 1
    ensures forall f :: f in folders && f.id < U32_LIMIT - 1 ==> f.id < NextId(folders)
  {
    NextIdReached(folders);
    if NextId(folders) != 1 {
      var i :| 0 <= i < |folders| && folders[i].id == NextId(folders) - 1;
      assert folders[i] in folders;
    }
  }

  lemma {:induction false} IdFound(folders: seq<Folder>, id: U32)
    ensures FindFolder(folders, id).Some? <==> exists f :: f in folders && f.id == id
  {
    if folders != [] {
      IdFound(folders[1..], id);
      assert forall f :: f in folders <==> f == folders[0] || f in folders[1..];
    }
  }

  // when a folder can be renamed, and what that makes of the folders
  lemma RenameMeans(folders: seq<Folder>, id: U32, name: string)
    ensures DistinctFolders(folders) ==>
              (CanRename(Content(folders, []), id, name)
               <==> && IsValidName(name) && (exists f :: f in folders && f.id == id)
                    && forall f :: f in folders && f.name == name ==> f.id == id)
    ensures DistinctFolders(folders) && CanRename(Content(folders, []), id, name) ==>
              && |Renamed(folders, id, name)| == |folders|
              && forall i :: 0 <= i < |folders| ==>
                   Renamed(folders, id, name)[i] == if folders[i].id == id then Folder(id, name) else folders[i]
  {
    if DistinctFolders(folders) {
      NameTaken(folders, name);
      IdFound(folders, id);
      hide IsValidName, Renamed, FindFolder, FindFolderByName;
      if CanRename(Content(folders, []), id, name) {
        RenamedKeeps(folders, id, name);
      }
    }
  }

  lemma FoundByName(folders: seq<Folder>, name: string)
    requires FindFolderByName(folders, name).Some?
    ensures FindFolderByName(folders, name).value in folders && FindFolderByName(folders, name).value.name == name
  {
  }

  // ---- what the operations mean ----

  /** The effect of an operation on the folders of one app. */
  function PlaceAfter(ids: set<U32>, op: Op, path: string): set<U32> {
    match op
    case Add(p, to) => if p == path then ids + {to} else ids
    case Remove(p, from) => if p == path then OrTop(ids - {from}) else ids
    case Move(p, from, to) => if p == path then ids - {from} + {to} else ids
    case Create(_) => ids
    case Rename(_, _) => ids
    case Delete(id) => OrTop(ids - {id})
  }

  /** An app left in no folder is on the top level. */
  function OrTop(ids: set<U32>): set<U32> {
    if ids == {} then {ROOT} else ids
  }

  lemma {:induction false} IdsOfConcat(a: seq<Member>, b: seq<Member>, path: string)
    ensures IdsOf(a + b, path) == IdsOf(a, path) + IdsOf(b, path)
  {
    if a == [] {
      assert a + b == b;
    } else {
      IdsOfConcat(a[1..], b, path);
      IdsOfHead(a, path);
      IdsOfHead(a + b, path);
      hide *;
      assert (a + b)[1..] == a[1..] + b && (a + b)[0] == a[0];
      Assoc(IdOf(a[0], path), IdsOf(a[1..], path), IdsOf(b, path));
    }
  }

  lemma IdsOfHead(members: seq<Member>, path: string)
    requires members != []
    ensures IdsOf(members, path) == IdOf(members[0], path) + IdsOf(members[1..], path)
  {
  }

  lemma {:induction false} IdsOfWithout(members: seq<Member>, erased: string, path: string)
    ensures IdsOf(Without(members, erased), path) == if path == erased then [] else IdsOf(members, path)
  {
    if members != [] {
      IdsOfWithout(members[1..], erased, path);
      IdsOfConcat(if members[0].path == erased then [] else [members[0]], Without(members[1..], erased), path);
    }
  }

  lemma {:induction false} IdsOfTagged(ids: seq<U32>, tagged: string, path: string)
    ensures IdsOf(Tagged(ids, tagged), path) == if path == tagged then ids else []
  {
    if ids != [] {
      IdsOfTagged(ids[1..], tagged, path);
      assert Tagged(ids, tagged)[1..] == Tagged(ids[1..], tagged);
    }
  }

  // erasing from the front part and the rest
  lemma EraseConcat(front: seq<U32>, rest: seq<U32>, id: U32)
    requires |front| <= 1
    ensures Erase(front + rest, id) == Erase(front, id) + Erase(rest, id)
  {
    if front == [] {
      assert front + rest == rest;
    } else {
      assert (front + rest)[1..] == rest;
    }
  }

  lemma {:induction false} IdsOfWithoutTag(members: seq<Member>, id: U32, path: string)
    ensures IdsOf(WithoutTag(members, id), path) == Erase(IdsOf(members, path), id)
  {
    if members != [] {
      IdsOfWithoutTag(members[1..], id, path);
      IdsOfConcat(if members[0].id == id then [] else [members[0]], WithoutTag(members[1..], id), path);
      EraseConcat(IdOf(members[0], path), IdsOf(members[1..], path), id);
    }
  }

  lemma {:induction false} ElementsErase(ids: seq<U32>, id: U32)
    ensures Elements(Erase(ids, id)) == Elements(ids) - {id}
  {
    if ids != [] {
      ElementsErase(ids[1..], id);
      assert forall x :: x in ids <==> x == ids[0] || x in ids[1..];
      assert forall x :: x in Erase(ids, id) <==> x in Elements(Erase(ids, id));
      assert forall x :: x in Erase(ids[1..], id) <==> x in Elements(Erase(ids[1..], id));
    }
  }

  lemma ElementsInclude(ids: seq<U32>, id: U32)
    ensures Elements(Include(ids, id)) == Elements(ids) + {id}
    ensures Include(ids, id) != []
  {
  }

  lemma PlacedByPlace(c: Content, path: string, ids: seq<U32>, p: string)
    ensures Placed(Place(c, path, ids), p) == if p == path then Elements(OrRoot(ids)) else Placed(c, p)
  {
    var kept := Without(c.members, path);
    IdsOfWithout(c.members, path, p);
    IdsOfTagged(ids, path, p);
    IdsOfConcat(kept, if ids == [] || ids == [ROOT] then [] else Tagged(ids, path), p);
  }

  lemma AddPlaces(c: Content, p: string, to: U32, path: string)
    ensures Placed(Do(c, Op.Add(p, to)), path) == PlaceAfter(Placed(c, path), Op.Add(p, to), path)
  {
    hide Elements, Include, Place;
    PlacedByPlace(c, p, Include(FoldersOf(c.members, p), to), path);
    ElementsInclude(FoldersOf(c.members, p), to);
  }

  lemma RemovePlaces(c: Content, p: string, from: U32, path: string)
    ensures Placed(Do(c, Op.Remove(p, from)), path) == PlaceAfter(Placed(c, path), Op.Remove(p, from), path)
  {
    hide Erase, Place;
    PlacedByPlace(c, p, Erase(FoldersOf(c.members, p), from), path);
    ElementsErase(FoldersOf(c.members, p), from);
  }

  lemma MovePlaces(c: Content, p: string, from: U32, to: U32, path: string)
    ensures Placed(Do(c, Op.Move(p, from, to)), path) == PlaceAfter(Placed(c, path), Op.Move(p, from, to), path)
  {
    hide Elements, Include, Erase, Place;
    var left := Erase(FoldersOf(c.members, p), from);
    PlacedByPlace(c, p, Include(left, to), path);
    ElementsErase(FoldersOf(c.members, p), from);
    ElementsInclude(left, to);
  }

  lemma DeletePlaces(c: Content, id: U32, path: string)
    ensures Placed(Do(c, Op.Delete(id)), path) == PlaceAfter(Placed(c, path), Op.Delete(id), path)
  {
    hide Erase, WithoutTag, WithoutFolder, IdsOf;
    IdsOfWithoutTag(c.members, id, path);
    ElementsErase(IdsOf(c.members, path), id);
  }

  /** Every operation does to the map of folders what its name says, and to no other app. */
  lemma DoPlaces(c: Content, op: Op, path: string)
    ensures Placed(Do(c, op), path) == PlaceAfter(Placed(c, path), op, path)
  {
    match op
    case Add(p, to) => AddPlaces(c, p, to, path);
    case Remove(p, from) => RemovePlaces(c, p, from, path);
    case Move(p, from, to) => MovePlaces(c, p, from, to, path);
    case Create(_) =>
    case Rename(_, _) =>
    case Delete(id) => DeletePlaces(c, id, path);
  }

  // ---- what every run keeps ----

  predicate DistinctFolders(folders: seq<Folder>) {
    forall i, j :: 0 <= i < j < |folders| ==> folders[i].id != folders[j].id && folders[i].name != folders[j].name
  }

  predicate FolderOk(f: Folder) {
    f.id != ROOT && IsValidName(f.name)
  }

  predicate NoDuplicates<T(==)>(s: seq<T>) {
    forall i, j :: 0 <= i < j < |s| ==> s[i] != s[j]
  }

  predicate Known(folders: seq<Folder>, id: U32) {
    id == ROOT || exists i :: 0 <= i < |folders| && folders[i].id == id
  }

  /** Ids and names are unique, no record is there twice, and none names a folder that is not there. */
  ghost predicate WellFormed(c: Content) {
    && DistinctFolders(c.folders) && (forall i :: 0 <= i < |c.folders| ==> FolderOk(c.folders[i]))
    && NoDuplicates(c.members) && (forall m :: m in c.members ==> Known(c.folders, m.id))
  }

  /** The two highest u32 ids are both taken: the only case where NextId is not new. */
  ghost predicate IdsUsedUp(folders: seq<Folder>) {
    Known(folders, U32_LIMIT - 1) && Known(folders, U32_LIMIT - 2)
  }

  lemma {:induction false} NextIdIsNew(folders: seq<Folder>)
    ensures Known(folders, NextId(folders)) <==> IdsUsedUp(folders)
  {
    NextIdReached(folders);
    var id := NextId(folders);
    if Known(folders, id) {
      var i :| 0 <= i < |folders| && folders[i].id == id;
      assert folders[i] in folders;
      assert id == U32_LIMIT - 1;
    }
    if IdsUsedUp(folders) {
      var i :| 0 <= i < |folders| && folders[i].id == U32_LIMIT - 2;
      assert folders[i] in folders;
    }
  }

  // the id is 1 or one above an id that is there
  lemma {:induction false} NextIdReached(folders: seq<Folder>)
    ensures NextId(folders) == 1 || Known(folders, NextId(folders) - 1)
  {
    if folders != [] {
      var front, last := folders[..|folders| - 1], folders[|folders| - 1];
      NextIdReached(front);
      if NextId(folders) == NextId(front) {
        if NextId(front) != 1 {
          var i :| 0 <= i < |front| && front[i].id == NextId(front) - 1;
          assert folders[i].id == NextId(folders) - 1;
        }
      } else {
        assert folders[|folders| - 1].id == NextId(folders) - 1;
      }
    }
  }

  // the folder an operation puts an app into
  ghost predicate TargetKnown(folders: seq<Folder>, op: Op) {
    (op.Add? || op.Move? ==> Known(folders, op.to)) && (op.Create? ==> !IdsUsedUp(folders))
  }

  lemma {:induction false} WithoutIsSubseq(members: seq<Member>, path: string)
    ensures forall m :: m in Without(members, path) <==> m in members && m.path != path
    ensures NoDuplicates(members) ==> NoDuplicates(Without(members, path))
  {
    if members != [] {
      WithoutIsSubseq(members[1..], path);
      assert forall m :: m in members <==> m == members[0] || m in members[1..];
      if NoDuplicates(members) {
        assert forall i :: 0 < i < |members| ==> members[i] == members[1..][i - 1];
        HeadAndTailDistinct(if members[0].path == path then [] else [members[0]], Without(members[1..], path));
      }
    }
  }

  lemma {:induction false} WithoutTagIsSubseq(members: seq<Member>, id: U32)
    ensures forall m :: m in WithoutTag(members, id) <==> m in members && m.id != id
    ensures NoDuplicates(members) ==> NoDuplicates(WithoutTag(members, id))
  {
    if members != [] {
      WithoutTagIsSubseq(members[1..], id);
      assert forall m :: m in members <==> m == members[0] || m in members[1..];
      if NoDuplicates(members) {
        HeadAndTailDistinct(if members[0].id == id then [] else [members[0]], WithoutTag(members[1..], id));
      }
    }
  }

  lemma HeadAndTailDistinct<T>(a: seq<T>, b: seq<T>)
    requires NoDuplicates(a) && NoDuplicates(b) && forall x :: x in a ==> x !in b
    ensures NoDuplicates(a + b)
  {
    forall i, j | 0 <= i < j < |a + b|
      ensures (a + b)[i] != (a + b)[j]
    {
      if i < |a| <= j {
        assert (a + b)[i] in a && (a + b)[j] in b;
      }
    }
  }

  lemma {:induction false} ErasedIds(ids: seq<U32>, id: U32)
    ensures forall x :: x in Erase(ids, id) <==> x in ids && x != id
    ensures NoDuplicates(ids) ==> NoDuplicates(Erase(ids, id))
  {
    if ids != [] {
      ErasedIds(ids[1..], id);
      assert forall x :: x in ids <==> x == ids[0] || x in ids[1..];
      if NoDuplicates(ids) {
        HeadAndTailDistinct(if ids[0] == id then [] else [ids[0]], Erase(ids[1..], id));
      }
    }
  }

  lemma {:induction false} IdsAreRecords(members: seq<Member>, path: string)
    ensures forall id :: id in IdsOf(members, path) <==> Member(id, path) in members
    ensures NoDuplicates(members) ==> NoDuplicates(IdsOf(members, path))
  {
    if members != [] {
      IdsAreRecords(members[1..], path);
      assert forall m :: m in members <==> m == members[0] || m in members[1..];
      if NoDuplicates(members) {
        HeadAndTailDistinct(if members[0].path == path then [members[0].id] else [], IdsOf(members[1..], path));
      }
    }
  }

  lemma PlaceKeepsWellFormed(c: Content, path: string, ids: seq<U32>)
    requires WellFormed(c) && NoDuplicates(ids) && forall id :: id in ids ==> Known(c.folders, id)
    ensures WellFormed(Place(c, path, ids))
  {
    var kept, added := Without(c.members, path), Tagged(ids, path);
    WithoutIsSubseq(c.members, path);
    assert forall i, j :: 0 <= i < j < |added| ==> added[i].id == ids[i] && added[j].id == ids[j];
    assert forall m :: m in added ==> m.path == path && m.id in ids;
    HeadAndTailDistinct(kept, added);
    assert forall m :: m in kept + added <==> m in kept || m in added;
  }

  lemma FoldersOfKnown(c: Content, path: string)
    requires WellFormed(c)
    ensures NoDuplicates(FoldersOf(c.members, path))
    ensures forall id :: id in FoldersOf(c.members, path) ==> Known(c.folders, id)
  {
    IdsAreRecords(c.members, path);
  }

  lemma {:induction false} RenamedAt(folders: seq<Folder>, id: U32, name: string, i: nat)
    requires DistinctFolders(folders) && i < |folders|
    ensures |Renamed(folders, id, name)| == |folders|
    ensures Renamed(folders, id, name)[i] == if folders[i].id == id then Folder(id, name) else folders[i]
  {
    if folders[0].id != id && |folders| > 1 {
      RenamedAt(folders[1..], id, name, if i == 0 then 0 else i - 1);
    }
  }

  lemma RenamedKeeps(folders: seq<Folder>, id: U32, name: string)
    requires DistinctFolders(folders)
    requires forall i :: 0 <= i < |folders| && folders[i].id != id ==> folders[i].name != name
    ensures |Renamed(folders, id, name)| == |folders|
    ensures forall i :: 0 <= i < |folders| ==>
              Renamed(folders, id, name)[i] == if folders[i].id == id then Folder(id, name) else folders[i]
    ensures DistinctFolders(Renamed(folders, id, name))
  {
    if folders != [] {
      RenamedAt(folders, id, name, 0);
    }
    hide Renamed;
    forall i | 0 <= i < |folders|
      ensures Renamed(folders, id, name)[i] == if folders[i].id == id then Folder(id, name) else folders[i]
    {
      RenamedAt(folders, id, name, i);
    }
  }

  lemma {:induction false} NameTaken(folders: seq<Folder>, name: string)
    requires DistinctFolders(folders)
    ensures FindFolderByName(folders, name).None? <==> forall i :: 0 <= i < |folders| ==> folders[i].name != name
    ensures forall i :: 0 <= i < |folders| && folders[i].name == name ==> FindFolderByName(folders, name) == Some(folders[i])
  {
    if folders != [] {
      NameTaken(folders[1..], name);
      assert forall i :: 0 < i < |folders| ==> folders[i] == folders[1..][i - 1];
    }
  }

  lemma {:induction false} WithoutFolderHas(folders: seq<Folder>, id: U32)
    ensures forall f :: f in WithoutFolder(folders, id) <==> f in folders && f.id != id
  {
    if folders != [] {
      WithoutFolderHas(folders[1..], id);
      assert forall f :: f in folders <==> f == folders[0] || f in folders[1..];
    }
  }

  lemma DistinctFirst(f: Folder, rest: seq<Folder>)
    requires DistinctFolders(rest) && forall x :: x in rest ==> x.id != f.id && x.name != f.name
    ensures DistinctFolders([f] + rest)
  {
    var all := [f] + rest;
    assert forall i :: 0 < i < |all| ==> all[i] == rest[i - 1] && all[i] in rest;
  }

  lemma {:induction false} WithoutFolderKeeps(folders: seq<Folder>, id: U32)
    requires DistinctFolders(folders)
    ensures DistinctFolders(WithoutFolder(folders, id))
    ensures forall f :: f in WithoutFolder(folders, id) <==> f in folders && f.id != id
  {
    WithoutFolderHas(folders, id);
    if folders != [] {
      var first, rest := folders[0], folders[1..];
      assert forall i :: 0 <= i < |rest| ==> rest[i] == folders[i + 1];
      WithoutFolderKeeps(rest, id);
      assert WithoutFolder(folders, id) == (if first.id == id then [] else [first]) + WithoutFolder(rest, id);
      hide WithoutFolder;
      if first.id != id {
        DistinctFirst(first, WithoutFolder(rest, id));
      } else {
        assert [] + WithoutFolder(rest, id) == WithoutFolder(rest, id);
      }
    }
  }

  /** Every operation keeps the store well-formed. */
  lemma DoKeepsWellFormed(c: Content, op: Op)
    requires WellFormed(c) && TargetKnown(c.folders, op)
    ensures WellFormed(Do(c, op))
  {
    match op
    case Add(path, to) =>
      FoldersOfKnown(c, path);
      PlaceKeepsWellFormed(c, path, Include(FoldersOf(c.members, path), to));
    case Remove(path, from) =>
      FoldersOfKnown(c, path);
      ErasedIds(FoldersOf(c.members, path), from);
      PlaceKeepsWellFormed(c, path, Erase(FoldersOf(c.members, path), from));
    case Move(path, from, to) =>
      FoldersOfKnown(c, path);
      ErasedIds(FoldersOf(c.members, path), from);
      PlaceKeepsWellFormed(c, path, Include(Erase(FoldersOf(c.members, path), from), to));
    case Create(name) => CreateKeepsWellFormed(c, name);
    case Rename(id, name) => RenameKeepsWellFormed(c, id, name);
    case Delete(id) => DeleteKeepsWellFormed(c, id);
  }

  lemma CreateKeepsWellFormed(c: Content, name: string)
    requires WellFormed(c) && !IdsUsedUp(c.folders)
    ensures WellFormed(Do(c, Create(name)))
  {
    hide IsValidName, IdsUsedUp, FindFolderByName, NextId, DistinctFolders, Known, NoDuplicates;
    if IsValidName(name) && FindFolderByName(c.folders, name).None? {
      NextIdIsNew(c.folders);
      NameTaken(c.folders, name);
      NewFolderKeeps(c.folders, Folder(NextId(c.folders), name));
      KnownStays(c.folders, Do(c, Create(name)).folders);
    }
  }

  lemma NewFolderKeeps(folders: seq<Folder>, f: Folder)
    requires DistinctFolders(folders) && !Known(folders, f.id)
    requires forall i :: 0 <= i < |folders| ==> folders[i].name != f.name
    ensures DistinctFolders(folders + [f])
  {
    assert forall i :: 0 <= i < |folders| ==> folders[i].id != f.id;
  }

  lemma RenameKeepsWellFormed(c: Content, id: U32, name: string)
    requires WellFormed(c)
    ensures WellFormed(Do(c, Rename(id, name)))
  {
    NameTaken(c.folders, name);
    if CanRename(c, id, name) {
      RenamedKeeps(c.folders, id, name);
      KnownStays(c.folders, Renamed(c.folders, id, name));
    }
  }

  lemma KnownStays(a: seq<Folder>, b: seq<Folder>)
    requires |a| <= |b| && forall i :: 0 <= i < |a| ==> b[i].id == a[i].id
    ensures forall id :: Known(a, id) ==> Known(b, id)
  {
    forall id | Known(a, id)
      ensures Known(b, id)
    {
      if id != ROOT {
        var i :| 0 <= i < |a| && a[i].id == id;
        assert b[i].id == id;
      }
    }
  }

  lemma DeleteKeepsWellFormed(c: Content, id: U32)
    requires WellFormed(c)
    ensures WellFormed(Do(c, Delete(id)))
  {
    WithoutFolderKeeps(c.folders, id);
    WithoutTagIsSubseq(c.members, id);
    var rest := WithoutFolder(c.folders, id);
    forall i | 0 <= i < |rest| ensures FolderOk(rest[i]) {
      assert rest[i] in c.folders;
    }
    forall m | m in WithoutTag(c.members, id) ensures Known(rest, m.id) {
      assert Known(c.folders, m.id);
      if m.id != ROOT {
        var i :| 0 <= i < |c.folders| && c.folders[i].id == m.id;
        assert c.folders[i] in rest;
      }
    }
  }

  ghost predicate TargetsKnown(c: Content, ops: seq<Op>)
    decreases |ops|
  {
    ops == [] || (TargetKnown(c.folders, ops[0]) && TargetsKnown(Do(c, ops[0]), ops[1..]))
  }

  function PlaceAfterRun(ids: set<U32>, ops: seq<Op>, path: string): set<U32>
    decreases |ops|
  {
    if ops == [] then ids else PlaceAfterRun(PlaceAfter(ids, ops[0], path), ops[1..], path)
  }

  /** Any sequence of operations on any store refines the map from apps to non-empty sets of folders. */
  lemma {:induction false} RunRefinesMap(c: Content, ops: seq<Op>, path: string)
    ensures Placed(Run(c, ops), path) == PlaceAfterRun(Placed(c, path), ops, path)
    decreases |ops|
  {
    if ops != [] {
      DoPlaces(c, ops[0], path);
      RunRefinesMap(Do(c, ops[0]), ops[1..], path);
    }
  }

  /** Any sequence of operations whose targets are there keeps a well-formed store well-formed. */
  lemma {:induction false} RunKeepsWellFormed(c: Content, ops: seq<Op>)
    requires WellFormed(c) && TargetsKnown(c, ops)
    ensures WellFormed(Run(c, ops))
    decreases |ops|
  {
    if ops != [] {
      DoKeepsWellFormed(c, ops[0]);
      RunKeepsWellFormed(Do(c, ops[0]), ops[1..]);
    }
  }
}
