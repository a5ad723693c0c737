/** Which hekate boot entry starts the wanted MMC, and the boot request in hekate's payload
    (sphaira/include/battery_hop.hpp). */
module HopEntry {
  import opened Common
  import opened Text

  // ---- the reference: a file as sections ----

  predicate IsBlank(c: char) {
    c == ' ' || c == '\t' || c == '\r'
  }

  function TrimLeft(s: string): string {
    if s != "" && IsBlank(s[0]) then TrimLeft(s[1..]) else s
  }

  function TrimRight(s: string): string {
    if s != "" && IsBlank(s[|s| - 1]) then TrimRight(s[..|s| - 1]) else s
  }

  function Trim(s: string): string {
    TrimRight(TrimLeft(s))
  }

  datatype Pair = Pair(key: string, value: string)

  datatype Token = Header(name: string) | Setting(pair: Pair) | Other

  /** What a line says. */
  function TokenOf(raw: string): Token {
    var line := Trim(raw);
    if line == "" || line[0] == '#' || line[0] == ';' || line[0] == '{' then Other
    else if line[0] == '[' && line[|line| - 1] == ']' then Header(line[1..|line| - 1])
    else
      var eq := Find(line, '=');
      if eq == |line| then Other else Setting(Pair(Trim(line[..eq]), Trim(line[eq + 1..])))
  }

  predicate AllBlank(s: string) {
    forall i :: 0 <= i < |s| ==> s[i] == ' ' || s[i] == '\t' || s[i] == '\r'
  }

  lemma {:induction false} LeftTrimmed(s: string) returns (blank: string)
    ensures s == blank + TrimLeft(s) && AllBlank(blank)
    ensures TrimLeft(s) != "" ==> !AllBlank(TrimLeft(s)[..1])
  {
    if s != "" && IsBlank(s[0]) {
      var rest := LeftTrimmed(s[1..]);
      blank := [s[0]] + rest;
      assert s == [s[0]] + s[1..];
    } else {
      blank := "";
      assert s != "" ==> s[..1][0] == s[0];
    }
  }

  lemma {:induction false} RightTrimmed(s: string) returns (blank: string)
    ensures s == TrimRight(s) + blank && AllBlank(blank)
    ensures TrimRight(s) != "" ==> !AllBlank(TrimRight(s)[|TrimRight(s)| - 1..])
  {
    if s != "" && IsBlank(s[|s| - 1]) {
      var rest := RightTrimmed(s[..|s| - 1]);
      blank := rest + [s[|s| - 1]];
      assert s == s[..|s| - 1] + [s[|s| - 1]];
    } else {
      blank := "";
      assert s != "" ==> s[|s| - 1..][0] == s[|s| - 1];
    }
  }

  /** A line without the blanks around it, and what it says: nothing, where it is empty or a comment or a caption; a
      header in brackets; a setting, split at the first '='. */
  lemma LineSays(raw: string) returns (front: string, back: string)
    ensures raw == front + Trim(raw) + back && AllBlank(front) && AllBlank(back)
    ensures var line := Trim(raw); var says := TokenOf(raw); var eq := Find(line, '=');
      && (line == "" || line[0] == '#' || line[0] == ';' || line[0] == '{' ==> says == Other)
      && (line != "" && line[0] == '[' && line[|line| - 1] == ']' ==> says == Header(line[1..|line| - 1]))
      && (line != "" && line[0] !in "#;{" && !(line[0] == '[' && line[|line| - 1] == ']') ==>
            says == if eq == |line| then Other else Setting(Pair(Trim(line[..eq]), Trim(line[eq + 1..]))))
  {
    hide Find;
    front := LeftTrimmed(raw);
    back := RightTrimmed(TrimLeft(raw));
    Assoc(front, Trim(raw), back);
  }

  function Tokens(lines: seq<string>): seq<Token> {
    if lines == [] then [] else [TokenOf(lines[0])] + Tokens(lines[1..])
  }

  datatype Section = Section(name: string, pairs: seq<Pair>)

  /** The sections, each with its settings; what is above the first header belongs to none. */
  function Sections(tokens: seq<Token>): seq<Section> {
    if tokens == [] then [] else
    var before := Sections(tokens[..|tokens| - 1]);
    match tokens[|tokens| - 1]
    case Header(name) => before + [Section(name, [])]
    case Setting(pair) =>
      if before == [] then [] else
      var n := |before| - 1;
      before[n := before[n].(pairs := before[n].pairs + [pair])]
    case Other => before
  }

  predicate IsEntry(s: Section) {
    s.name != "config"
  }

  /** The boot entries: every section but [config], in file order. */
  function Entries(sections: seq<Section>): seq<Section> {
    if sections == [] then [] else
    var n := |sections| - 1;
    Entries(sections[..n]) + if IsEntry(sections[n]) then [sections[n]] else []
  }

  predicate BootsCfw(p: Pair) {
    p.key == "fss0" || p.key == "kernel" || (p.key == "atmosphere" && p.value == "1")
  }

  predicate ForcesSys(p: Pair) {
    p.key == "emummc_force_disable" && p.value == "1"
  }

  predicate ForcesEmu(p: Pair) {
    p.key == "emummcforce" && p.value == "1"
  }

  predicate IsPayload(p: Pair) {
    p.key == "payload"
  }

  predicate Any(pairs: seq<Pair>, p: Pair -> bool) {
    exists i :: 0 <= i < |pairs| && p(pairs[i])
  }

  /** An entry that starts Atmosphere: payload entries never do. */
  predicate IsCfw(s: Section) {
    Any(s.pairs, BootsCfw) && !Any(s.pairs, IsPayload)
  }

  predicate StartsSys(s: Section) {
    IsCfw(s) && Any(s.pairs, ForcesSys)
  }

  predicate StartsEmu(s: Section) {
    IsCfw(s) && Any(s.pairs, ForcesEmu)
  }

  predicate FollowsFile(s: Section) {
    IsCfw(s) && !Any(s.pairs, ForcesSys)
  }

  /** The number of the first entry with a property; 0 without one. */
  function First(entries: seq<Section>, p: Section -> bool): (n: nat)
    ensures n <= |entries|
    ensures n > 0 ==> p(entries[n - 1]) && forall i :: 0 <= i < n - 1 ==> !p(entries[i])
    ensures n == 0 ==> forall i :: 0 <= i < |entries| ==> !p(entries[i])
  {
    if entries == [] then 0
    else if p(entries[0]) then 1
    else var n := First(entries[1..], p); if n == 0 then 0 else n + 1
  }

  /** The entry of the file that starts the wanted MMC. */
  function EntryFor(entries: seq<Section>, wantEmu: bool): nat {
    if !wantEmu then First(entries, StartsSys)
    else
      var forced := First(entries, StartsEmu);
      if forced != 0 then forced else First(entries, FollowsFile)
  }

  /** The first entry that forces the wanted MMC; for the emuMMC, where none does, the first that follows the file; 0
      exactly without one. */
  lemma EntryForIs(entries: seq<Section>, wantEmu: bool)
    ensures var entry := EntryFor(entries, wantEmu);
      && (entry == 0 ==> forall i :: 0 <= i < |entries| ==>
            !(if wantEmu then StartsEmu(entries[i]) || FollowsFile(entries[i]) else StartsSys(entries[i])))
      && (entry > 0 ==>
            && entry <= |entries|
            && (!wantEmu ==> StartsSys(entries[entry - 1]) && forall i :: 0 <= i < entry - 1 ==> !StartsSys(entries[i]))
            && (wantEmu && StartsEmu(entries[entry - 1]) ==> forall i :: 0 <= i < entry - 1 ==> !StartsEmu(entries[i]))
            && (wantEmu && !StartsEmu(entries[entry - 1]) ==>
                  && FollowsFile(entries[entry - 1]) && (forall i :: 0 <= i < |entries| ==> !StartsEmu(entries[i]))
                  && forall i :: 0 <= i < entry - 1 ==> !FollowsFile(entries[i])))
  {
    hide StartsEmu, StartsSys, FollowsFile;
  }

  /** A setting of a section has the key. */
  predicate HasKey(s: Section, key: string) {
    exists i :: 0 <= i < |s.pairs| && s.pairs[i].key == key
  }

  predicate HasSetting(s: Section, key: string, value: string) {
    exists i :: 0 <= i < |s.pairs| && s.pairs[i] == Pair(key, value)
  }

  /** What an entry must say to count: it boots Atmosphere and is no payload; it forces the sysMMC, or the emuMMC, or
      does not force the sysMMC. */
  lemma EntriesMean(s: Section)
    ensures IsEntry(s) <==> s.name != "config"
    ensures var cfw := (HasKey(s, "fss0") || HasKey(s, "kernel") || HasSetting(s, "atmosphere", "1")) && !HasKey(s, "payload");
      && (StartsSys(s) <==> cfw && HasSetting(s, "emummc_force_disable", "1"))
      && (StartsEmu(s) <==> cfw && HasSetting(s, "emummcforce", "1"))
      && (FollowsFile(s) <==> cfw && !HasSetting(s, "emummc_force_disable", "1"))
  {
    assert Any(s.pairs, BootsCfw) <==> HasKey(s, "fss0") || HasKey(s, "kernel") || HasSetting(s, "atmosphere", "1");
    assert Any(s.pairs, IsPayload) <==> HasKey(s, "payload");
    assert Any(s.pairs, ForcesSys) <==> HasSetting(s, "emummc_force_disable", "1");
    assert Any(s.pairs, ForcesEmu) <==> HasSetting(s, "emummcforce", "1");
  }

  // ---- the scan ----

  /** FindEntry's variables. */
  datatype Scan = Scan(index: nat, found: nat, fallback: nat, inEntry: bool, cfw: bool, forceSys: bool, forceEmu: bool)

  /** The section the scan is in, if it is a boot entry. */
  function OpenEntry(sections: seq<Section>): Option<Section> {
    if sections != [] && IsEntry(sections[|sections| - 1]) then Some(sections[|sections| - 1]) else None
  }

  /** The entries before that one. */
  function ClosedEntries(sections: seq<Section>): seq<Section> {
    if OpenEntry(sections).Some? then Entries(sections[..|sections| - 1]) else Entries(sections)
  }

  // the best of the entries so far
  predicate BestOf(entries: seq<Section>, wantEmu: bool, found: nat, fallback: nat) {
    && found == First(entries, if wantEmu then StartsEmu else StartsSys)
    && (found == 0 ==> fallback == if wantEmu then First(entries, FollowsFile) else 0)
  }

  // the flags of the open entry
  predicate FlagsOf(entry: Option<Section>, s: Scan) {
    && (s.inEntry <==> entry.Some? && !Any(entry.value.pairs, IsPayload))
    && (s.inEntry ==>
          && (s.cfw <==> Any(entry.value.pairs, BootsCfw))
          && (s.forceSys <==> Any(entry.value.pairs, ForcesSys))
          && (s.forceEmu <==> Any(entry.value.pairs, ForcesEmu)))
  }

  predicate Scanned(tokens: seq<Token>, s: Scan, wantEmu: bool) {
    var sections := Sections(tokens);
    && s.index == |Entries(sections)|
    && BestOf(ClosedEntries(sections), wantEmu, s.found, s.fallback)
    && FlagsOf(OpenEntry(sections), s)
  }

  lemma {:induction false} FirstSnoc(entries: seq<Section>, e: Section, p: Section -> bool)
    ensures First(entries + [e], p)
            == if First(entries, p) != 0 then First(entries, p) else if p(e) then |entries| + 1 else 0
  {
    if entries != [] {
      FirstSnoc(entries[1..], e, p);
      assert (entries + [e])[1..] == entries[1..] + [e];
    }
  }

  lemma AnySnoc(pairs: seq<Pair>, x: Pair, p: Pair -> bool)
    ensures Any(pairs + [x], p) <==> Any(pairs, p) || p(x)
  {
    var all := pairs + [x];
    assert all[|pairs|] == x && forall i :: 0 <= i < |pairs| ==> all[i] == pairs[i];
  }

  /** The close of FindEntry: the open entry is judged. */
  method Close(s: Scan, wantEmu: bool, ghost sections: seq<Section>) returns (out: Scan)
    requires s.index == |Entries(sections)|
    requires BestOf(ClosedEntries(sections), wantEmu, s.found, s.fallback) && FlagsOf(OpenEntry(sections), s)
    ensures out == s.(found := out.found, fallback := out.fallback)
    ensures BestOf(Entries(sections), wantEmu, out.found, out.fallback)
  {
    hide Any, First, BootsCfw, ForcesEmu, ForcesSys, IsPayload;
    out := s;
    if OpenEntry(sections).Some? {
      var closed, entry := ClosedEntries(sections), OpenEntry(sections).value;
      FirstSnoc(closed, entry, if wantEmu then StartsEmu else StartsSys);
      FirstSnoc(closed, entry, FollowsFile);
      assert Entries(sections) == closed + [entry];
    }
    if !s.inEntry || !s.cfw || s.found != 0 {
      return;
    }
    if wantEmu {
      if s.forceEmu {
        out := out.(found := s.index);
      } else if !s.forceSys && s.fallback == 0 {
        out := out.(fallback := s.index);
      }
    } else if s.forceSys {
      out := out.(found := s.index);
    }
  }

  // a new header: the sections before it are closed
  lemma HeaderOpens(tokens: seq<Token>, name: string)
    ensures var sections := Sections(tokens + [Header(name)]);
            && OpenEntry(sections) == (if name != "config" then Some(Section(name, [])) else None)
            && ClosedEntries(sections) == Entries(Sections(tokens))
            && |Entries(sections)| == |Entries(Sections(tokens))| + if name != "config" then 1 else 0
  {
    var all := tokens + [Header(name)];
    assert all[..|all| - 1] == tokens;
    var before := Sections(tokens);
    assert Sections(all) == before + [Section(name, [])];
    assert (before + [Section(name, [])])[..|before|] == before;
  }

  // a setting goes to the open entry
  lemma SettingGrows(tokens: seq<Token>, pair: Pair)
    ensures var now, was := Sections(tokens + [Setting(pair)]), Sections(tokens);
            && |Entries(now)| == |Entries(was)| && ClosedEntries(now) == ClosedEntries(was)
            && (OpenEntry(now).Some? <==> OpenEntry(was).Some?)
            && (OpenEntry(was).Some? ==> OpenEntry(now).value.pairs == OpenEntry(was).value.pairs + [pair])
  {
    var all := tokens + [Setting(pair)];
    assert all[..|all| - 1] == tokens;
    var was := Sections(tokens);
    if was != [] {
      var n := |was| - 1;
      var now := was[n := was[n].(pairs := was[n].pairs + [pair])];
      assert now[..n] == was[..n] && now[n].name == was[n].name;
      assert Sections(all) == now;
    } else {
      assert Sections(all) == [];
    }
  }

  // the else-if chain on a setting of the open entry
  method TakeSetting(s: Scan, pair: Pair, wantEmu: bool, ghost tokens: seq<Token>) returns (out: Scan)
    requires Scanned(tokens, s, wantEmu)
    ensures Scanned(tokens + [Setting(pair)], out, wantEmu)
  {
    SettingGrows(tokens, pair);
    hide Sections, Entries, ClosedEntries, OpenEntry, First, Any;
    out := s;
    ghost var entry := OpenEntry(Sections(tokens));
    if entry.Some? {
      AnySnoc(entry.value.pairs, pair, BootsCfw);
      AnySnoc(entry.value.pairs, pair, ForcesSys);
      AnySnoc(entry.value.pairs, pair, ForcesEmu);
      AnySnoc(entry.value.pairs, pair, IsPayload);
    }
    KeysApart(pair);
    if !s.inEntry {
      return;
    }
    if pair.key == "fss0" || pair.key == "kernel" || (pair.key == "atmosphere" && pair.value == "1") {
      out := out.(cfw := true);
    } else if pair.key == "emummc_force_disable" && pair.value == "1" {
      out := out.(forceSys := true);
    } else if pair.key == "emummcforce" && pair.value == "1" {
      out := out.(forceEmu := true);
    } else if pair.key == "payload" {
      out := out.(cfw := false);
      out := out.(forceSys := false, forceEmu := false);
      out := out.(inEntry := false);
    }
  }

  // no setting is two things
  lemma KeysApart(p: Pair)
    ensures BootsCfw(p) ==> !ForcesSys(p) && !ForcesEmu(p) && !IsPayload(p)
    ensures ForcesSys(p) ==> !ForcesEmu(p) && !IsPayload(p)
    ensures ForcesEmu(p) ==> !IsPayload(p)
  {
    assert |"fss0"| == 4 && |"kernel"| == 6 && |"atmosphere"| == 10 && |"emummc_force_disable"| == 20
           && |"emummcforce"| == 11 && |"payload"| == 7;
  }

  // a header opens an entry of which nothing is known yet
  lemma NewEntryFlags(name: string, s: Scan)
    requires s.inEntry == (name != "config") && !s.cfw && !s.forceSys && !s.forceEmu
    ensures FlagsOf(if name != "config" then Some(Section(name, [])) else None, s)
  {
  }

  method TakeHeader(s: Scan, name: string, wantEmu: bool, ghost tokens: seq<Token>) returns (out: Scan)
    requires Scanned(tokens, s, wantEmu)
    ensures Scanned(tokens + [Header(name)], out, wantEmu)
  {
    hide Sections, Entries, ClosedEntries, OpenEntry, BestOf, FlagsOf;
    HeaderOpens(tokens, name);
    out := Close(s, wantEmu, Sections(tokens));
    out := out.(inEntry := name != "config");
    if out.inEntry {
      out := out.(index := out.index + 1);
    }
    out := out.(cfw := false, forceSys := false, forceEmu := false);
    NewEntryFlags(name, out);
  }

  lemma OtherKeeps(tokens: seq<Token>, s: Scan, wantEmu: bool)
    requires Scanned(tokens, s, wantEmu)
    ensures Scanned(tokens + [Other], s, wantEmu)
  {
    assert (tokens + [Other])[..|tokens|] == tokens;
    assert Sections(tokens + [Other]) == Sections(tokens);
  }

  method TakeToken(s: Scan, token: Token, wantEmu: bool, ghost tokens: seq<Token>) returns (out: Scan)
    requires Scanned(tokens, s, wantEmu)
    ensures Scanned(tokens + [token], out, wantEmu)
  {
    hide Scanned;
    match token {
      case Header(name) =>
        out := TakeHeader(s, name, wantEmu, tokens);
      case Setting(pair) =>
        out := TakeSetting(s, pair, wantEmu, tokens);
      case Other =>
        out := s;
        OtherKeeps(tokens, s, wantEmu);
    }
  }

  /** FindEntry: the streaming scan finds what the definition by sections says. */
  method FindEntry(ini: string, wantEmu: bool) returns (entry: nat)
    ensures entry == EntryFor(Entries(Sections(Tokens(Lines(ini)))), wantEmu)
  {
    assert Scanned([], Scan(0, 0, 0, false, false, false, false), wantEmu);
    hide Scanned, TokenOf, Sections, Entries, FirstLine, AfterLine, EntryFor;
    ghost var all, done := Tokens(Lines(ini)), [];
    var s := Scan(0, 0, 0, false, false, false, false);
    var rest := ini;
    assert [] + all == all;
    while rest != ""
      invariant Scanned(done, s, wantEmu)
      invariant all == done + Tokens(Lines(rest))
      decreases |rest|
    {
      var token := TokenOf(FirstLine(rest));
      s := TakeToken(s, token, wantEmu, done);
      assert Lines(rest) == [FirstLine(rest)] + Lines(AfterLine(rest));
      assert ([FirstLine(rest)] + Lines(AfterLine(rest)))[1..] == Lines(AfterLine(rest));
      Assoc(done, [token], Tokens(Lines(AfterLine(rest))));
      done := done + [token];
      rest := AfterLine(rest);
    }
    assert done == all;
    entry := Finish(s, wantEmu, done);
  }

  method Finish(s: Scan, wantEmu: bool, ghost tokens: seq<Token>) returns (entry: nat)
    requires Scanned(tokens, s, wantEmu)
    ensures entry == EntryFor(Entries(Sections(tokens)), wantEmu)
  {
    hide Sections, Entries, ClosedEntries, OpenEntry, First;
    var end := Close(s, wantEmu, Sections(tokens));
    entry := if end.found != 0 then end.found else if wantEmu then end.fallback else 0;
  }

  // ---- the boot request ----

  const BOOT_CFG_OFF := 0x94
  const BOOT_CFG_SIZE := 0x84

  /** What hekate reads at its start: the entry to boot at once from its first list, if it is asked to. */
  function BootRequest(payload: seq<Byte>): Option<nat>
    requires |payload| >= BOOT_CFG_OFF + BOOT_CFG_SIZE
  {
    if payload[BOOT_CFG_OFF] % 2 == 1 && payload[BOOT_CFG_OFF + 2] == 0 then Some(payload[BOOT_CFG_OFF + 1]) else None
  }

  predicate InBootCfg(i: int) {
    BOOT_CFG_OFF <= i < BOOT_CFG_OFF + BOOT_CFG_SIZE
  }

  /** PatchBootCfg: the payload asks for the entry and is otherwise the same. */
  method PatchBootCfg(payload: array<Byte>, index: int) returns (ok: bool)
    modifies payload
    ensures ok <==> 1 <= index <= 255 && payload.Length >= BOOT_CFG_OFF + BOOT_CFG_SIZE + 0x100
    ensures !ok ==> payload[..] == old(payload[..])
    ensures ok ==> BootRequest(payload[..]) == Some(index)
    ensures ok ==> forall i :: 0 <= i < payload.Length ==>
                     payload[i] == if !InBootCfg(i) then old(payload[i])
                                   else if i == BOOT_CFG_OFF then 1 else if i == BOOT_CFG_OFF + 1 then index else 0
  {
    if index < 1 || index > 255 || payload.Length < BOOT_CFG_OFF + BOOT_CFG_SIZE + 0x100 {
      return false;
    }
    for i := 0 to BOOT_CFG_SIZE
      invariant forall j :: 0 <= j < payload.Length ==>
                  payload[j] == if BOOT_CFG_OFF <= j < BOOT_CFG_OFF + i then 0 else old(payload[j])
    {
      payload[BOOT_CFG_OFF + i] := 0;
    }
    payload[BOOT_CFG_OFF] := 1;
    payload[BOOT_CFG_OFF + 1] := index;
    ok := true;
  }
}
