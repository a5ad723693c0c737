/** The file of the virtual folders (sphaira/include/homebrew_vfolders.hpp, Format and Parse). */
module VFolderText {
  import opened Common
  import opened Text
  import opened VFolders

  const ID_DIGITS := 9

  // ---- Format ----

  function RecordLine(kind: char, id: U32, value: string): string {
    [kind] + "\t" + Digits(id) + "\t" + value
  }

  function FolderLine(f: Folder): string {
    RecordLine('F', f.id, f.name)
  }

  function MemberLine(m: Member): string {
    RecordLine('A', m.id, m.path)
  }

  function FolderLines(folders: seq<Folder>): seq<string> {
    if folders == [] then [] else [FolderLine(folders[0])] + FolderLines(folders[1..])
  }

  function MemberLines(members: seq<Member>): seq<string> {
    if members == [] then [] else [MemberLine(members[0])] + MemberLines(members[1..])
  }

  function Formatted(c: Content): string {
    Unlines(FolderLines(c.folders)) + Unlines(MemberLines(c.members))
  }

  /** Format. */
  method Format(store: Store) returns (out: string)
    ensures out == Formatted(store.Value())
  {
    out := "";
    for i := 0 to |store.folders|
      invariant out + Unlines(FolderLines(store.folders[i..])) == Unlines(FolderLines(store.folders))
    {
      out := out + (FolderLine(store.folders[i]) + "\n");
    }
    assert out + "" == out;
    ghost var front := out;
    for i := 0 to |store.members|
      invariant out + Unlines(MemberLines(store.members[i..])) == front + Unlines(MemberLines(store.members))
    {
      out := out + (MemberLine(store.members[i]) + "\n");
    }
    assert out + "" == out;
  }

  // ---- Parse ----

  datatype Record = FolderRecord(id: U32, name: string) | MemberRecord(id: U32, path: string)

  /** One line; None for a bad one. */
  function ParseLine(raw: string): Option<Record> {
    ParseFields(Text.Chomp(raw))
  }

  function ParseFields(line: string): Option<Record> {
    var t1 := Find(line, '\t');
    if t1 == |line| then None else
    var rest := line[t1 + 1..];
    var t2 := Find(rest, '\t');
    if t2 == |rest| then None else
    var kind, idText, value := line[..t1], rest[..t2], rest[t2 + 1..];
    if idText == "" || |idText| > ID_DIGITS || !AllDigits(idText) then None else
    IdFits(idText);
    RecordOf(kind, Number(idText), value)
  }

  function RecordOf(kind: string, id: U32, value: string): Option<Record> {
    if kind == "F" && id != ROOT && IsValidName(value) then Some(FolderRecord(id, value))
    else if kind == "A" && value != "" && value[0] == '/' then Some(MemberRecord(id, value))
    else None
  }

  lemma IdFits(text: string)
    requires AllDigits(text) && |text| <= ID_DIGITS
    ensures Number(text) < 1_000_000_000 < U32_LIMIT
  {
    NumberBelow(text);
    Pow10Grows(|text|, ID_DIGITS);
    NinePowers();
  }

  lemma Pow10Grows(a: nat, b: nat)
    requires a <= b
    ensures Pow10(a) <= Pow10(b)
    decreases b
  {
    if a < b {
      Pow10Grows(a, b - 1);
    }
  }

  lemma NinePowers()
    ensures Pow10(ID_DIGITS) == 1_000_000_000
  {
    assert Pow10(3) == 10 * Pow10(2) == 100 * Pow10(1) == 1000;
    assert Pow10(6) == 10 * Pow10(5) == 100 * Pow10(4) == 1000 * Pow10(3);
    assert Pow10(9) == 10 * Pow10(8) == 100 * Pow10(7) == 1000 * Pow10(6);
  }

  /** What Parse has after one more line: a folder whose id or name is taken is dropped. */
  function Accept(c: Content, line: string): Content {
    match ParseLine(line)
    case None => c
    case Some(FolderRecord(id, name)) =>
      if FindFolder(c.folders, id).None? && FindFolderByName(c.folders, name).None?
      then c.(folders := c.folders + [Folder(id, name)]) else c
    case Some(MemberRecord(id, path)) => c.(members := c.members + [Member(id, path)])
  }

  function AcceptAll(c: Content, lines: seq<string>): Content
    decreases |lines|
  {
    if lines == [] then c else AcceptAll(Accept(c, lines[0]), lines[1..])
  }

  /** Members of a folder that does not exist are dropped. */
  function Anchored(folders: seq<Folder>, members: seq<Member>): seq<Member> {
    if members == [] then [] else
    (if members[0].id == ROOT || FindFolder(folders, members[0].id).Some? then [members[0]] else [])
    + Anchored(folders, members[1..])
  }

  function Parsed(text: string): Content {
    var c := AcceptAll(Content([], []), Text.Lines(text));
    Content(c.folders, Anchored(c.folders, c.members))
  }

  // Parse's first loop: the folders go into the store, the members wait
  method ReadRecords(text: string, store: Store) returns (members: seq<Member>)
    requires store.Value() == Content([], [])
    modifies store
    ensures Content(store.folders, members) == AcceptAll(Content([], []), Text.Lines(text)) && store.members == []
  {
    hide ParseLine, FindFolder, FindFolderByName, FirstLine, AfterLine;
    members := [];
    var rest := text;
    while rest != ""
      invariant store.members == []
      invariant AcceptAll(Content(store.folders, members), Text.Lines(rest)) == AcceptAll(Content([], []), Text.Lines(text))
      decreases |rest|
    {
      var line := FirstLine(rest);
      assert Text.Lines(rest) == [line] + Text.Lines(AfterLine(rest));
      ghost var next := Accept(Content(store.folders, members), line);
      rest := AfterLine(rest);
      match ParseLine(line) {
        case None =>
        case Some(FolderRecord(id, name)) =>
          if FindFolder(store.folders, id).None? && FindFolderByName(store.folders, name).None? {
            store.folders := store.folders + [Folder(id, name)];
          }
        case Some(MemberRecord(id, path)) =>
          members := members + [Member(id, path)];
      }
      assert Content(store.folders, members) == next;
    }
  }

  lemma NoneAnchored(folders: seq<Folder>)
    ensures Anchored(folders, []) == []
  {
  }

  lemma AnchoredNext(folders: seq<Folder>, members: seq<Member>, i: nat)
    requires i < |members|
    ensures Anchored(folders, members[i..])
            == (if members[i].id == ROOT || FindFolder(folders, members[i].id).Some? then [members[i]] else [])
               + Anchored(folders, members[i + 1..])
  {
    assert members[i..][1..] == members[i + 1..];
  }

  // Parse's second loop: only members of a folder that exists stay
  method Anchor(folders: seq<Folder>, members: seq<Member>) returns (kept: seq<Member>)
    ensures kept == Anchored(folders, members)
  {
    hide FindFolder, Anchored;
    kept := [];
    assert members[0..] == members;
    NoneAnchored(folders);
    for i := 0 to |members|
      invariant kept + Anchored(folders, members[i..]) == Anchored(folders, members)
    {
      AnchoredNext(folders, members, i);
      Assoc(kept, [members[i]], Anchored(folders, members[i + 1..]));
      if members[i].id == ROOT || FindFolder(folders, members[i].id).Some? {
        kept := kept + [members[i]];
      } else {
        assert [] + Anchored(folders, members[i + 1..]) == Anchored(folders, members[i + 1..]);
      }
    }
    assert members[|members|..] == [] && kept + [] == kept;
  }

  /** Parse. */
  method Parse(text: string) returns (store: Store)
    ensures store.Value() == Parsed(text)
    ensures fresh(store)
  {
    hide AcceptAll, Text.Lines, Anchored;
    store := new Store();
    var members := ReadRecords(text, store);
    store.members := Anchor(store.folders, members);
  }

  // ---- what any text gives ----

  predicate IdPrints(id: U32) {
    id < 1_000_000_000
  }

  predicate PathOk(path: string) {
    path != "" && path[0] == '/' && Free(path, '\n')
  }

  lemma LineGives(line: string)
    requires Free(line, '\n')
    ensures match ParseLine(line)
            case None => true
            case Some(FolderRecord(id, name)) => id != ROOT && IdPrints(id) && IsValidName(name)
            case Some(MemberRecord(id, path)) => IdPrints(id) && PathOk(path)
  {
    var text := Text.Chomp(line);
    var t1 := Find(text, '\t');
    if t1 < |text| {
      var rest := text[t1 + 1..];
      var t2 := Find(rest, '\t');
      if t2 < |rest| && |rest[..t2]| <= ID_DIGITS && AllDigits(rest[..t2]) {
        IdFits(rest[..t2]);
      }
    }
  }

  /** Unique ids and names, all of them printable, and members with absolute paths. */
  ghost predicate Sound(c: Content) {
    && DistinctFolders(c.folders)
    && (forall i :: 0 <= i < |c.folders| ==> FolderOk(c.folders[i]) && IdPrints(c.folders[i].id))
    && (forall i :: 0 <= i < |c.members| ==> IdPrints(c.members[i].id) && PathOk(c.members[i].path))
  }

  /** The same but for ids of ten digits. */
  ghost predicate Whole(c: Content) {
    && DistinctFolders(c.folders) && (forall i :: 0 <= i < |c.folders| ==> FolderOk(c.folders[i]))
    && (forall i :: 0 <= i < |c.members| ==> PathOk(c.members[i].path))
  }

  lemma {:induction false} FolderAbsent(folders: seq<Folder>, id: U32)
    ensures FindFolder(folders, id).None? <==> forall i :: 0 <= i < |folders| ==> folders[i].id != id
  {
    if folders != [] {
      FolderAbsent(folders[1..], id);
      assert forall i :: 0 < i < |folders| ==> folders[i] == folders[1..][i - 1];
    }
  }

  lemma AcceptIsSound(c: Content, line: string)
    requires Sound(c) && Free(line, '\n')
    ensures Sound(Accept(c, line))
  {
    hide IsValidName, ParseLine, FindFolder, FindFolderByName, PathOk;
    LineGives(line);
    match ParseLine(line)
    case None =>
    case Some(FolderRecord(id, name)) =>
      FolderAbsent(c.folders, id);
      NameTaken(c.folders, name);
    case Some(MemberRecord(id, path)) =>
  }

  lemma {:induction false} AcceptAllIsSound(c: Content, lines: seq<string>)
    requires Sound(c) && forall i :: 0 <= i < |lines| ==> Free(lines[i], '\n')
    ensures Sound(AcceptAll(c, lines))
    decreases |lines|
  {
    if lines != [] {
      AcceptIsSound(c, lines[0]);
      AcceptAllIsSound(Accept(c, lines[0]), lines[1..]);
    }
  }

  lemma {:induction false} AnchoredAreKnown(folders: seq<Folder>, members: seq<Member>)
    ensures forall m :: m in Anchored(folders, members) <==> m in members && Known(folders, m.id)
    ensures (forall m :: m in members ==> Known(folders, m.id)) ==> Anchored(folders, members) == members
  {
    if members != [] {
      AnchoredAreKnown(folders, members[1..]);
      FolderAbsent(folders, members[0].id);
      assert forall m :: m in members <==> m == members[0] || m in members[1..];
    }
  }

  ghost predicate NoneDangling(c: Content) {
    forall m :: m in c.members ==> Known(c.folders, m.id)
  }

  /** Any text, however broken, gives a store with unique ids and names and no dangling member. */
  lemma ParsedIsSound(text: string)
    ensures Sound(Parsed(text)) && NoneDangling(Parsed(text))
  {
    var c := AcceptAll(Content([], []), Text.Lines(text));
    LinesAreFree(text);
    AcceptAllIsSound(Content([], []), Text.Lines(text));
    AnchoredAreKnown(c.folders, c.members);
    var kept := Anchored(c.folders, c.members);
    forall i | 0 <= i < |kept|
      ensures IdPrints(kept[i].id) && PathOk(kept[i].path)
    {
      assert kept[i] in c.members;
    }
  }

  // ---- the round trip ----

  // a path as the file gives it back
  function Read(m: Member): Member {
    m.(path := Text.Chomp(m.path))
  }

  function ReadAll(members: seq<Member>): (out: seq<Member>)
    ensures |out| == |members| && forall i :: 0 <= i < |out| ==> out[i] == Read(members[i])
  {
    if members == [] then [] else [Read(members[0])] + ReadAll(members[1..])
  }

  // the fields of a line that Format writes
  lemma LineParts(kind: char, id: U32, value: string)
    requires kind != '\t' && IdPrints(id)
    ensures ParseFields(RecordLine(kind, id, value)) == RecordOf([kind], id, value)
  {
    hide Find, Number, Digits, RecordOf;
    var digits, line := Digits(id), RecordLine(kind, id, value);
    var rest := digits + "\t" + value;
    FindIs(line, '\t', 1);
    assert line[..1] == [kind] && line[2..] == rest;
    FindIs(rest, '\t', |digits|);
    assert rest[..|digits|] == digits && rest[|digits| + 1..] == value;
    NumberOfDigits(id);
    DigitCount(id, ID_DIGITS);
    NinePowers();
  }

  // an id of ten digits is printed, but its line is bad
  lemma LineDropped(kind: char, id: U32, value: string)
    requires kind != '\t' && !IdPrints(id)
    ensures ParseFields(RecordLine(kind, id, value)) == None
  {
    hide Find, Number, Digits;
    var digits, line := Digits(id), RecordLine(kind, id, value);
    var rest := digits + "\t" + value;
    FindIs(line, '\t', 1);
    assert line[2..] == rest;
    FindIs(rest, '\t', |digits|);
    assert rest[..|digits|] == digits;
    DigitCount(id, ID_DIGITS);
    NinePowers();
  }

  /** The folders and the members with ids that are read back. */
  function PrintedFolders(folders: seq<Folder>): seq<Folder> {
    if folders == [] then [] else (if IdPrints(folders[0].id) then [folders[0]] else []) + PrintedFolders(folders[1..])
  }

  function PrintedMembers(members: seq<Member>): seq<Member> {
    if members == [] then [] else (if IdPrints(members[0].id) then [members[0]] else []) + PrintedMembers(members[1..])
  }

  lemma {:induction false} PrintedFoldersAre(folders: seq<Folder>)
    ensures forall f :: f in PrintedFolders(folders) <==> f in folders && IdPrints(f.id)
    ensures (forall i :: 0 <= i < |folders| ==> IdPrints(folders[i].id)) ==> PrintedFolders(folders) == folders
  {
    if folders != [] {
      PrintedFoldersAre(folders[1..]);
      assert forall f :: f in folders <==> f == folders[0] || f in folders[1..];
      assert forall i :: 0 < i < |folders| ==> folders[i] == folders[1..][i - 1];
    }
  }

  lemma {:induction false} PrintedMembersAre(members: seq<Member>)
    ensures forall m :: m in PrintedMembers(members) <==> m in members && IdPrints(m.id)
    ensures (forall i :: 0 <= i < |members| ==> IdPrints(members[i].id)) ==> PrintedMembers(members) == members
  {
    if members != [] {
      var first, rest := members[0], members[1..];
      PrintedMembersAre(rest);
      assert members == [first] + rest;
      var kept := PrintedMembers(rest);
      assert PrintedMembers(members) == (if IdPrints(first.id) then [first] else []) + kept;
      hide PrintedMembers;
      assert forall m :: m in members <==> m == first || m in rest;
      assert forall i :: 0 < i < |members| ==> members[i] == rest[i - 1];
    }
  }

  lemma ChompRecordLine(kind: char, id: U32, value: string)
    requires value != ""
    ensures Text.Chomp(RecordLine(kind, id, value)) == RecordLine(kind, id, Text.Chomp(value))
  {
    hide Digits;
  }

  lemma FolderLineParses(f: Folder)
    requires FolderOk(f)
    ensures ParseLine(FolderLine(f)) == if IdPrints(f.id) then Some(FolderRecord(f.id, f.name)) else None
  {
    assert f.name != "" && Text.Chomp(f.name) == f.name;
    hide RecordLine, ParseFields, Text.Chomp;
    ChompRecordLine('F', f.id, f.name);
    if IdPrints(f.id) {
      LineParts('F', f.id, f.name);
    } else {
      LineDropped('F', f.id, f.name);
    }
  }

  lemma MemberLineParses(m: Member)
    requires PathOk(m.path)
    ensures ParseLine(MemberLine(m)) == if IdPrints(m.id) then Some(MemberRecord(m.id, Text.Chomp(m.path))) else None
  {
    var path := Text.Chomp(m.path);
    assert path != "" && path[0] == '/';
    hide RecordLine, ParseFields, Text.Chomp;
    ChompRecordLine('A', m.id, m.path);
    if IdPrints(m.id) {
      LineParts('A', m.id, path);
    } else {
      LineDropped('A', m.id, path);
    }
  }

  // of distinct folders in a row the first is new to those before it, and can be left out
  lemma NextFolder(done: seq<Folder>, f: Folder, more: seq<Folder>)
    requires DistinctFolders(done + ([f] + more))
    ensures FindFolder(done, f.id).None? && FindFolderByName(done, f.name).None?
    ensures DistinctFolders((done + [f]) + more) && DistinctFolders(done + more)
  {
    DistinctParts(done, f, more);
    FolderAbsent(done, f.id);
    NameTaken(done, f.name);
    Assoc(done, [f], more);
  }

  lemma DistinctParts(done: seq<Folder>, f: Folder, more: seq<Folder>)
    requires DistinctFolders(done + ([f] + more))
    ensures DistinctFolders(done) && DistinctFolders(done + more)
    ensures forall i :: 0 <= i < |done| ==> done[i].id != f.id && done[i].name != f.name
  {
    var all, kept := done + ([f] + more), done + more;
    forall i, j | 0 <= i < j < |kept|
      ensures kept[i].id != kept[j].id && kept[i].name != kept[j].name
    {
      assert kept[i] == all[if i < |done| then i else i + 1] && kept[j] == all[if j < |done| then j else j + 1];
    }
    forall i | 0 <= i < |done|
      ensures done[i].id != f.id && done[i].name != f.name
    {
      assert all[i] == done[i] && all[|done|] == f;
    }
    forall i, j | 0 <= i < j < |done|
      ensures done[i].id != done[j].id && done[i].name != done[j].name
    {
      assert all[i] == done[i] && all[j] == done[j];
    }
  }

  lemma {:induction false} FoldersAccepted(done: seq<Folder>, folders: seq<Folder>, rest: seq<string>)
    requires DistinctFolders(done + folders) && forall i :: 0 <= i < |folders| ==> FolderOk(folders[i])
    ensures AcceptAll(Content(done, []), FolderLines(folders) + rest)
            == AcceptAll(Content(done + PrintedFolders(folders), []), rest)
    decreases |folders|
  {
    hide ParseLine, FolderLine, FindFolder, FindFolderByName, FolderOk, DistinctFolders;
    if folders == [] {
      assert done + PrintedFolders(folders) == done && FolderLines(folders) + rest == rest;
    } else {
      var f, more := folders[0], folders[1..];
      assert folders == [f] + more;
      FolderLineParses(f);
      NextFolder(done, f, more);
      assert (FolderLines(folders) + rest)[0] == FolderLine(f);
      assert (FolderLines(folders) + rest)[1..] == FolderLines(more) + rest;
      var next := if IdPrints(f.id) then done + [f] else done;
      assert AcceptAll(Content(done, []), FolderLines(folders) + rest) == AcceptAll(Content(next, []), FolderLines(more) + rest);
      FoldersAccepted(next, more, rest);
      assert done + PrintedFolders(folders) == next + PrintedFolders(more);
    }
  }

  lemma {:induction false} MembersAccepted(c: Content, members: seq<Member>)
    requires forall i :: 0 <= i < |members| ==> PathOk(members[i].path)
    ensures AcceptAll(c, MemberLines(members)) == c.(members := c.members + ReadAll(PrintedMembers(members)))
    decreases |members|
  {
    hide PathOk, Text.Chomp;
    if members == [] {
      assert c.members + [] == c.members;
    } else {
      var m, more := members[0], members[1..];
      assert members == [m] + more;
      hide AcceptAll, MemberLines, ReadAll, PrintedMembers, Read;
      var next := if IdPrints(m.id) then c.(members := c.members + [Read(m)]) else c;
      MemberTaken(c, m, more);
      MembersAccepted(next, more);
      ReadNext(c.members, m, more);
    }
  }

  lemma MemberTaken(c: Content, m: Member, more: seq<Member>)
    requires PathOk(m.path)
    ensures AcceptAll(c, MemberLines([m] + more))
            == AcceptAll(if IdPrints(m.id) then c.(members := c.members + [Read(m)]) else c, MemberLines(more))
  {
    hide ParseLine, MemberLine, Text.Chomp, PathOk;
    MemberLineParses(m);
    assert ([m] + more)[1..] == more;
    assert ([MemberLine(m)] + MemberLines(more))[1..] == MemberLines(more);
  }

  lemma ReadNext(done: seq<Member>, m: Member, more: seq<Member>)
    ensures done + ReadAll(PrintedMembers([m] + more))
            == (if IdPrints(m.id) then done + [Read(m)] else done) + ReadAll(PrintedMembers(more))
  {
    assert ([m] + more)[1..] == more;
    var rest := PrintedMembers(more);
    if IdPrints(m.id) {
      assert ([m] + rest)[1..] == rest && ReadAll([m] + rest) == [Read(m)] + ReadAll(rest);
      hide ReadAll, PrintedMembers, Text.Chomp;
      Assoc(done, [Read(m)], ReadAll(rest));
    } else {
      assert [] + rest == rest;
    }
  }

  lemma {:induction false} FolderLinesFree(folders: seq<Folder>)
    requires forall i :: 0 <= i < |folders| ==> FolderOk(folders[i])
    ensures forall i :: 0 <= i < |FolderLines(folders)| ==> Free(FolderLines(folders)[i], '\n')
  {
    if folders != [] {
      FolderLinesFree(folders[1..]);
      DigitsFree(folders[0].id);
    }
  }

  lemma {:induction false} MemberLinesFree(members: seq<Member>)
    requires forall i :: 0 <= i < |members| ==> PathOk(members[i].path)
    ensures forall i :: 0 <= i < |MemberLines(members)| ==> Free(MemberLines(members)[i], '\n')
  {
    if members != [] {
      MemberLinesFree(members[1..]);
      DigitsFree(members[0].id);
    }
  }

  lemma DigitsFree(n: nat)
    ensures Free(Digits(n), '\n')
  {
    assert AllDigits(Digits(n));
  }

  lemma PrintedLines(c: Content)
    requires Whole(c)
    ensures Text.Lines(Formatted(c)) == FolderLines(c.folders) + MemberLines(c.members)
  {
    hide FolderLines, MemberLines, Unlines, Text.Lines, IsValidName;
    var folders, members := FolderLines(c.folders), MemberLines(c.members);
    FolderLinesFree(c.folders);
    MemberLinesFree(c.members);
    hide FolderOk, PathOk, Free;
    UnlinesConcat(folders, members);
    assert forall i :: 0 <= i < |folders + members| ==> Free((folders + members)[i], '\n');
    LinesOfUnlines(folders + members);
  }

  lemma PrintedRecords(c: Content)
    requires Whole(c)
    ensures AcceptAll(Content([], []), FolderLines(c.folders) + MemberLines(c.members))
            == Content(PrintedFolders(c.folders), ReadAll(PrintedMembers(c.members)))
  {
    hide Accept, AcceptAll, FolderLines, MemberLines, IsValidName, Text.Chomp, PathOk, PrintedFolders, PrintedMembers;
    assert [] + c.folders == c.folders;
    FoldersAccepted([], c.folders, MemberLines(c.members));
    assert [] + PrintedFolders(c.folders) == PrintedFolders(c.folders);
    MembersAccepted(Content(PrintedFolders(c.folders), []), c.members);
    assert [] + ReadAll(PrintedMembers(c.members)) == ReadAll(PrintedMembers(c.members));
  }

  lemma PrintedAreAnchored(c: Content)
    requires NoneDangling(c)
    ensures var folders, members := PrintedFolders(c.folders), ReadAll(PrintedMembers(c.members));
            Anchored(folders, members) == members
  {
    var folders, printed := PrintedFolders(c.folders), PrintedMembers(c.members);
    PrintedFoldersAre(c.folders);
    PrintedMembersAre(c.members);
    hide Text.Chomp, PrintedFolders, PrintedMembers, Anchored;
    AnchoredAreKnown(folders, ReadAll(printed));
    forall m | m in ReadAll(printed)
      ensures Known(folders, m.id)
    {
      var i :| 0 <= i < |printed| && ReadAll(printed)[i] == m;
      PrintedIsKnown(c, printed[i].id);
    }
  }

  lemma PrintedIsKnown(c: Content, id: U32)
    requires Known(c.folders, id) && IdPrints(id)
    ensures Known(PrintedFolders(c.folders), id)
  {
    PrintedFoldersAre(c.folders);
    if id != ROOT {
      var i :| 0 <= i < |c.folders| && c.folders[i].id == id;
      assert c.folders[i] in PrintedFolders(c.folders);
    }
  }

  /** What a printed store reads back as: itself without the folders of ten-digit ids and their members, and without
      a '\r' at the end of a path. */
  lemma ReadsBackAs(c: Content)
    requires Whole(c) && NoneDangling(c)
    ensures Parsed(Formatted(c)) == Content(PrintedFolders(c.folders), ReadAll(PrintedMembers(c.members)))
  {
    hide Whole, NoneDangling, AcceptAll, FolderLines, MemberLines, Anchored, Formatted, Text.Lines, PrintedFolders, PrintedMembers;
    PrintedLines(c);
    PrintedRecords(c);
    PrintedAreAnchored(c);
  }

  predicate NoCarriageEnd(path: string) {
    Text.Chomp(path) == path
  }

  /** Printing then parsing is the identity, order included, exactly for the stores with unique printable ids,
      unique valid names, no dangling member and absolute paths of one line. */
  lemma RoundTrip(c: Content)
    ensures Parsed(Formatted(c)) == c
            <==> Sound(c) && NoneDangling(c) && forall i :: 0 <= i < |c.members| ==> NoCarriageEnd(c.members[i].path)
  {
    if Parsed(Formatted(c)) == c {
      ParsedIsSound(Formatted(c));
    }
    if Sound(c) && NoneDangling(c) {
      ReadsBackAs(c);
      PrintedFoldersAre(c.folders);
      PrintedMembersAre(c.members);
      if Parsed(Formatted(c)) == c {
        forall i | 0 <= i < |c.members|
          ensures NoCarriageEnd(c.members[i].path)
        {
          assert c.members[i] == Read(c.members[i]);
        }
      }
    }
  }

  // ---- stores that are used ----

  /** A path the file can hold. */
  predicate PathStays(path: string) {
    PathOk(path) && NoCarriageEnd(path)
  }

  /** A well-formed store that saving and loading gives back. */
  ghost predicate Survives(c: Content) {
    WellFormed(c) && Parsed(Formatted(c)) == c
  }

  lemma SurvivesExactly(c: Content)
    ensures Survives(c) <==>
              && WellFormed(c)
              && (forall i :: 0 <= i < |c.folders| ==> IdPrints(c.folders[i].id))
              && (forall i :: 0 <= i < |c.members| ==> PathStays(c.members[i].path))
  {
    RoundTrip(c);
    hide Parsed, Formatted, PathOk, NoCarriageEnd, FolderOk, DistinctFolders;
    if WellFormed(c) && forall i :: 0 <= i < |c.folders| ==> IdPrints(c.folders[i].id) {
      forall i | 0 <= i < |c.members|
        ensures IdPrints(c.members[i].id)
      {
        assert Known(c.folders, c.members[i].id);
      }
    }
  }

  const LAST_PRINTED := 999_999_999

  /** Where all ids are read back, a new folder's is exactly when the last one that is is not taken. */
  lemma NextIdPrints(folders: seq<Folder>)
    requires forall i :: 0 <= i < |folders| ==> IdPrints(folders[i].id)
    ensures IdPrints(NextId(folders)) <==> !Known(folders, LAST_PRINTED)
  {
    NextIdReached(folders);
    if i :| 0 <= i < |folders| && folders[i].id == LAST_PRINTED {
      assert folders[i] in folders;
    }
  }

  predicate CreatesOne(c: Content, op: Op) {
    op.Create? && IsValidName(op.name) && FindFolderByName(c.folders, op.name).None?
  }

  /** The app and the folder an operation is for: a path the file can hold, a folder that is there. */
  ghost predicate OpOk(c: Content, op: Op) {
    && (op.Add? || op.Move? ==> Known(c.folders, op.to))
    && (op.Add? || op.Remove? || op.Move? ==> PathStays(op.path))
  }

  predicate PrintsOn(c: Content, op: Op) {
    CreatesOne(c, op) ==> !Known(c.folders, LAST_PRINTED)
  }

  // the members of a store after an operation: those it had, or the operation's app
  lemma MembersAfter(c: Content, op: Op, m: Member)
    requires m in Do(c, op).members
    ensures m in c.members || ((op.Add? || op.Remove? || op.Move?) && m.path == op.path)
  {
    match op
    case Add(path, _) => WithoutIsSubseq(c.members, path);
    case Remove(path, _) => WithoutIsSubseq(c.members, path);
    case Move(path, _, _) => WithoutIsSubseq(c.members, path);
    case Create(_) =>
    case Rename(_, _) =>
    case Delete(id) => WithoutTagIsSubseq(c.members, id);
  }

  // the ids of a store after an operation: those it had, or the new one
  lemma IdsAfter(c: Content, op: Op)
    requires WellFormed(c) && forall i :: 0 <= i < |c.folders| ==> IdPrints(c.folders[i].id)
    ensures (forall i :: 0 <= i < |Do(c, op).folders| ==> IdPrints(Do(c, op).folders[i].id)) <==> PrintsOn(c, op)
  {
    hide IsValidName, NextId, Renamed, WithoutFolder;
    match op
    case Add(_, _) =>
    case Remove(_, _) =>
    case Move(_, _, _) =>
    case Create(name) =>
      NextIdPrints(c.folders);
      assert CreatesOne(c, op) ==> Do(c, op).folders[|c.folders|].id == NextId(c.folders);
    case Rename(id, name) =>
      NameTaken(c.folders, name);
      if CanRename(c, id, name) {
        RenamedKeeps(c.folders, id, name);
      }
    case Delete(id) =>
      WithoutFolderHas(c.folders, id);
      forall i | 0 <= i < |Do(c, op).folders|
        ensures IdPrints(Do(c, op).folders[i].id)
      {
        assert Do(c, op).folders[i] in c.folders;
      }
  }

  // ids that are read back are not used up
  lemma NotUsedUp(c: Content)
    requires forall i :: 0 <= i < |c.folders| ==> IdPrints(c.folders[i].id)
    ensures !IdsUsedUp(c.folders)
  {
  }

  /** One operation: the store survives saving and loading exactly if it makes no folder where 999999999 is taken. */
  lemma DoSurvivesExactly(c: Content, op: Op)
    requires Survives(c) && OpOk(c, op)
    ensures Survives(Do(c, op)) <==> PrintsOn(c, op)
  {
    hide Parsed, Formatted, Do, PathStays, IsValidName;
    SurvivesExactly(c);
    NotUsedUp(c);
    DoKeepsWellFormed(c, op);
    var c' := Do(c, op);
    SurvivesExactly(c');
    IdsAfter(c, op);
    forall i | 0 <= i < |c'.members|
      ensures PathStays(c'.members[i].path)
    {
      MembersAfter(c, op, c'.members[i]);
    }
  }

  ghost predicate OpsOk(c: Content, ops: seq<Op>)
    decreases |ops|
  {
    ops == [] || (OpOk(c, ops[0]) && OpsOk(Do(c, ops[0]), ops[1..]))
  }

  predicate AllPrint(c: Content, ops: seq<Op>)
    decreases |ops|
  {
    ops == [] || (PrintsOn(c, ops[0]) && AllPrint(Do(c, ops[0]), ops[1..]))
  }

  ghost predicate AlwaysSurvives(c: Content, ops: seq<Op>)
    decreases |ops|
  {
    Survives(c) && (ops == [] || AlwaysSurvives(Do(c, ops[0]), ops[1..]))
  }

  /** A run of operations on a store that came from a file: it can be saved and loaded at every point exactly if no
      folder is made where 999999999 is taken. */
  lemma {:induction false} RunSurvivesExactly(c: Content, ops: seq<Op>)
    requires Survives(c) && OpsOk(c, ops)
    ensures AlwaysSurvives(c, ops) <==> AllPrint(c, ops)
    ensures AllPrint(c, ops) ==> Survives(Run(c, ops))
    decreases |ops|
  {
    hide Survives, Do, PrintsOn, OpOk;
    if ops != [] {
      DoSurvivesExactly(c, ops[0]);
      if PrintsOn(c, ops[0]) {
        RunSurvivesExactly(Do(c, ops[0]), ops[1..]);
      }
    }
  }

  function Creations(ops: seq<Op>): nat {
    if ops == [] then 0 else (if ops[0].Create? then 1 else 0) + Creations(ops[1..])
  }

  /** So it can after fewer creations than there are ids left above the highest. */
  lemma {:induction false} FewCreationsPrint(c: Content, ops: seq<Op>, top: nat)
    requires Survives(c) && OpsOk(c, ops)
    requires (forall i :: 0 <= i < |c.folders| ==> c.folders[i].id <= top) && top + Creations(ops) <= LAST_PRINTED
    ensures AllPrint(c, ops)
    decreases |ops|
  {
    hide Survives, OpOk, Do, IsValidName;
    if ops != [] {
      if CreatesOne(c, ops[0]) && Known(c.folders, LAST_PRINTED) {
        assert false;
      }
      DoSurvivesExactly(c, ops[0]);
      var top' := top + if ops[0].Create? then 1 else 0;
      TopAfter(c, ops[0], top);
      FewCreationsPrint(Do(c, ops[0]), ops[1..], top');
    }
  }

  lemma TopAfter(c: Content, op: Op, top: nat)
    requires Survives(c) && forall i :: 0 <= i < |c.folders| ==> c.folders[i].id <= top
    ensures forall i :: 0 <= i < |Do(c, op).folders| ==> Do(c, op).folders[i].id <= top + if op.Create? then 1 else 0
  {
    hide Parsed, Formatted, IsValidName, Renamed, WithoutFolder;
    match op
    case Add(_, _) =>
    case Remove(_, _) =>
    case Move(_, _, _) =>
    case Create(name) => NextIdReached(c.folders);
    case Rename(id, name) =>
      NameTaken(c.folders, name);
      if CanRename(c, id, name) {
        RenamedKeeps(c.folders, id, name);
      }
    case Delete(id) =>
      WithoutFolderHas(c.folders, id);
      forall i | 0 <= i < |Do(c, op).folders|
        ensures Do(c, op).folders[i].id <= top
      {
        assert Do(c, op).folders[i] in c.folders;
      }
  }

  lemma {:induction false} LastIsDropped(folders: seq<Folder>, f: Folder)
    requires !IdPrints(f.id) && forall i :: 0 <= i < |folders| ==> IdPrints(folders[i].id)
    ensures PrintedFolders(folders + [f]) == folders
  {
    if folders != [] {
      LastIsDropped(folders[1..], f);
      assert (folders + [f])[1..] == folders[1..] + [f];
    }
  }

  lemma ReadAllSame(members: seq<Member>)
    requires forall m :: m in members ==> PathStays(m.path)
    ensures ReadAll(members) == members
  {
    assert forall i :: 0 <= i < |members| ==> members[i] in members && Read(members[i]) == members[i];
  }

  // what a store with one ten-digit folder at its end reads back as
  lemma ReadWithoutLast(folders: seq<Folder>, last: Folder, members: seq<Member>)
    requires var c := Content(folders + [last], members); WellFormed(c) && forall m :: m in members ==> PathStays(m.path)
    requires !IdPrints(last.id) && forall i :: 0 <= i < |folders| ==> IdPrints(folders[i].id)
    ensures Parsed(Formatted(Content(folders + [last], members))) == Content(folders, PrintedMembers(members))
  {
    hide Parsed, Formatted, PathOk, NoCarriageEnd, FolderOk;
    ReadsBackAs(Content(folders + [last], members));
    LastIsDropped(folders, last);
    PrintedMembersAre(members);
    ReadAllSame(PrintedMembers(members));
  }

  /** The folder that is lost: made where 999999999 is taken it is printed, and gone after the next load, together
      with the records of the apps that were put into it; everything else is read back. */
  lemma TenDigitsLost(c: Content, name: string, path: string)
    requires Survives(c) && CreatesOne(c, Create(name)) && Known(c.folders, LAST_PRINTED) && PathStays(path)
    ensures var lost := NextId(c.folders); var put := Do(Do(c, Create(name)), Add(path, lost));
      && lost == LAST_PRINTED + 1 && put.folders == c.folders + [Folder(lost, name)] && Member(lost, path) in put.members
      && var back := Parsed(Formatted(put));
      && back.folders == c.folders && forall m :: m in back.members <==> m in put.members && m.id != lost
  {
    hide *;
    var lost := NextId(c.folders);
    var put := Do(Do(c, Create(name)), Add(path, lost));
    SurvivesExactly(c);
    NextIdPrints(c.folders);
    LostId(c.folders);
    PutIsWhole(c, name, path);
    ReadWithoutLast(c.folders, Folder(lost, name), put.members);
    OnlyTenDigits(put, c.folders, Folder(lost, name));
  }

  // the store with the new folder and the app in it
  lemma PutIsWhole(c: Content, name: string, path: string)
    requires Survives(c) && CreatesOne(c, Create(name)) && PathStays(path)
    ensures var lost := NextId(c.folders); var put := Do(Do(c, Create(name)), Add(path, lost));
      && put == Content(c.folders + [Folder(lost, name)], put.members) && WellFormed(put) && Member(lost, path) in put.members
      && forall m :: m in put.members ==> PathStays(m.path)
  {
    var made, lost := Do(c, Create(name)), NextId(c.folders);
    var put := Do(made, Add(path, lost));
    assert made == Content(c.folders + [Folder(lost, name)], c.members) && put.folders == made.folders;
    assert made.folders[|c.folders|].id == lost;
    SurvivesExactly(c);
    NotUsedUp(c);
    PutIsThere(made, path, lost);
    hide Parsed, Formatted, IsValidName, PathStays, Do, IdsUsedUp;
    DoKeepsWellFormed(c, Create(name));
    DoKeepsWellFormed(made, Add(path, lost));
    forall m | m in put.members
      ensures PathStays(m.path)
    {
      MembersAfter(made, Add(path, lost), m);
    }
  }

  lemma LostId(folders: seq<Folder>)
    requires Known(folders, LAST_PRINTED) && forall i :: 0 <= i < |folders| ==> IdPrints(folders[i].id)
    ensures NextId(folders) == LAST_PRINTED + 1
  {
    NextIdPrints(folders);
    NextIdReached(folders);
  }

  lemma PutIsThere(c: Content, path: string, to: U32)
    requires to != ROOT
    ensures Member(to, path) in Do(c, Add(path, to)).members
  {
    var ids := Include(FoldersOf(c.members, path), to);
    var k :| 0 <= k < |ids| && ids[k] == to;
    assert Tagged(ids, path)[k] == Member(to, path);
  }

  lemma OnlyTenDigits(put: Content, folders: seq<Folder>, last: Folder)
    requires WellFormed(put) && put.folders == folders + [last] && !IdPrints(last.id)
    requires forall i :: 0 <= i < |folders| ==> IdPrints(folders[i].id)
    ensures forall m :: m in PrintedMembers(put.members) <==> m in put.members && m.id != last.id
  {
    PrintedMembersAre(put.members);
    forall m | m in put.members && m.id != last.id
      ensures IdPrints(m.id)
    {
      assert Known(put.folders, m.id);
    }
  }

  /** Such a store. */
  lemma LastIdTaken()
    ensures var c := Content([Folder(LAST_PRINTED, "a")], []);
            Survives(c) && CreatesOne(c, Create("b")) && Known(c.folders, LAST_PRINTED)
  {
    var f := Folder(LAST_PRINTED, "a");
    assert "a"[0] != ' ' && "b"[0] != ' ' && "a" != "b";
    assert FolderOk(f) && IsValidName("b");
    hide IsValidName, Parsed, Formatted, FolderOk;
    OtherName(f, "b");
    SurvivesExactly(Content([f], []));
  }

  lemma OtherName(f: Folder, name: string)
    requires f.name != name
    ensures FindFolderByName([f], name) == None && Known([f], f.id)
  {
    assert [f][1..] == [] && [f][0] == f;
  }

  /** The file of one folder and one app in it. */
  lemma OneFolderFile(name: string, path: string)
    ensures Formatted(Content([Folder(7, name)], [Member(7, path)])) == "F\t7\t" + name + "\nA\t7\t" + path + "\n"
  {
    var f, m := Folder(7, name), Member(7, path);
    assert Digits(7) == "7" && FolderLine(f) == "F\t7\t" + name && MemberLine(m) == "A\t7\t" + path;
    assert [f][1..] == [] && [m][1..] == [];
    assert FolderLines([f]) == [FolderLine(f)] && MemberLines([m]) == [MemberLine(m)];
    assert [FolderLine(f)][1..] == [] && [MemberLine(m)][1..] == [];
    assert Unlines([FolderLine(f)]) == FolderLine(f) + "\n" && Unlines([MemberLine(m)]) == MemberLine(m) + "\n";
  }
}
