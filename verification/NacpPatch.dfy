/** The game restrictions of control.nacp, and their edit. */
module NacpPatch {
  import opened Common
  import opened HashTree

  // sphaira/include/nacp_patch.hpp, sphaira/source/control_patch.cpp: the edit inside the hash tree of a Control NCA.

  const NACP_SIZE := 0x4000
  const OFF_STARTUP_USER_ACCOUNT := 0x3025
  const OFF_SCREENSHOT := 0x3034
  const OFF_VIDEO_CAPTURE := 0x3035
  const OFF_NETWORK_LICENSE_ON_LAUNCH := 0x3213

  datatype State = State(linkedAccountRequired: bool, screenshotsAllowed: bool, videoAllowed: bool)

  datatype Patch = Patch(linkedAccountRequired: Option<bool>, screenshotsAllowed: Option<bool>, videoAllowed: Option<bool>)

  function FileIn(bytes: seq<Byte>, at: nat): (file: seq<Byte>)
    requires at + NACP_SIZE <= |bytes|
    ensures |file| == NACP_SIZE
  {
    bytes[at..at + NACP_SIZE]
  }

  // a file reads the same wherever it is
  lemma SameFileReads(a: seq<Byte>, b: seq<Byte>, at: nat)
    requires at + NACP_SIZE <= |a| && at + NACP_SIZE <= |b| && FileIn(a, at) == FileIn(b, at)
    ensures ReadState(a, at) == ReadState(b, at)
  {
    assert forall i :: 0 <= i < NACP_SIZE ==> a[at + i] == FileIn(a, at)[i] && b[at + i] == FileIn(b, at)[i];
  }

  /** The restrictions in the NACP_SIZE bytes of `bytes` from `at`. */
  function ReadState(bytes: seq<Byte>, at: nat): State
    requires at + NACP_SIZE <= |bytes|
  {
    State(bytes[at + OFF_STARTUP_USER_ACCOUNT] == 2 || bytes[at + OFF_NETWORK_LICENSE_ON_LAUNCH] % 2 == 1,
          bytes[at + OFF_SCREENSHOT] == 0,
          bytes[at + OFF_VIDEO_CAPTURE] != 0)
  }

  /** The state the user asked for: what is not asked stays, and video capture brings screenshots along. */
  function Wanted(s: State, p: Patch): State {
    State(if p.linkedAccountRequired.Some? then p.linkedAccountRequired.value else s.linkedAccountRequired,
          if p.videoAllowed == Some(true) then true
          else if p.screenshotsAllowed.Some? then p.screenshotsAllowed.value else s.screenshotsAllowed,
          if p.videoAllowed.Some? then p.videoAllowed.value else s.videoAllowed)
  }

  predicate IsRestrictionByte(i: int) {
    i == OFF_STARTUP_USER_ACCOUNT || i == OFF_SCREENSHOT || i == OFF_VIDEO_CAPTURE || i == OFF_NETWORK_LICENSE_ON_LAUNCH
  }

  /** `after` is `before` with the restrictions of the file at `at` set as asked, and nothing else changed: the user is
      picked with a network account or as before, but never dropped; the other bits of the license byte stay. */
  predicate Edited(before: seq<Byte>, after: seq<Byte>, at: nat, p: Patch)
    requires at + NACP_SIZE <= |before|
  {
    var account, license, shot, video :=
      at + OFF_STARTUP_USER_ACCOUNT, at + OFF_NETWORK_LICENSE_ON_LAUNCH, at + OFF_SCREENSHOT, at + OFF_VIDEO_CAPTURE;
    && |after| == |before|
    && (forall i :: 0 <= i < |before| && !IsRestrictionByte(i - at) ==> after[i] == before[i])
    && (p.linkedAccountRequired == Some(true) ==> after[account] == 2)
    && (p.linkedAccountRequired == Some(false) ==> after[account] == if before[account] == 2 then 1 else before[account])
    && (p.linkedAccountRequired == None ==> after[account] == before[account] && after[license] == before[license])
    && (p.linkedAccountRequired.Some? ==>
          && after[license] / 2 == before[license] / 2
          && after[license] % 2 == if p.linkedAccountRequired.value then 1 else 0)
    && (p.videoAllowed == Some(true) ==> after[video] == 2 && after[shot] == 0)
    && (p.videoAllowed == Some(false) ==> after[video] == 0)
    && (p.videoAllowed == None ==> after[video] == before[video])
    && (p.videoAllowed != Some(true) ==>
          after[shot] == if p.screenshotsAllowed.None? then before[shot] else if p.screenshotsAllowed.value then 0 else 1)
  }

  method SetLinkedAccount(section: array<Byte>, at: nat, required: bool)
    requires at + NACP_SIZE <= section.Length
    modifies section
    ensures var now, was := section[..], old(section[..]);
      && now[at + OFF_STARTUP_USER_ACCOUNT] == (if required then 2
                                                else if was[at + OFF_STARTUP_USER_ACCOUNT] == 2 then 1 else was[at + OFF_STARTUP_USER_ACCOUNT])
      && now[at + OFF_NETWORK_LICENSE_ON_LAUNCH] % 2 == (if required then 1 else 0)
      && now[at + OFF_NETWORK_LICENSE_ON_LAUNCH] / 2 == was[at + OFF_NETWORK_LICENSE_ON_LAUNCH] / 2
      && forall i :: 0 <= i < |now| && i != at + OFF_STARTUP_USER_ACCOUNT && i != at + OFF_NETWORK_LICENSE_ON_LAUNCH ==> now[i] == was[i]
  {
    var account, license := at + OFF_STARTUP_USER_ACCOUNT, at + OFF_NETWORK_LICENSE_ON_LAUNCH;
    if required {
      section[account] := 2;
      section[license] := section[license] / 2 * 2 + 1;
    } else {
      if section[account] == 2 {
        section[account] := 1;
      }
      section[license] := section[license] / 2 * 2;
    }
  }

  method SetCapture(section: array<Byte>, at: nat, screenshots: Option<bool>, video: Option<bool>)
    requires at + NACP_SIZE <= section.Length
    modifies section
    ensures var now, was := section[..], old(section[..]);
      && now[at + OFF_SCREENSHOT] == (if video == Some(true) then 0
                                      else if screenshots.Some? then (if screenshots.value then 0 else 1) else was[at + OFF_SCREENSHOT])
      && now[at + OFF_VIDEO_CAPTURE] == (if video.Some? then (if video.value then 2 else 0) else was[at + OFF_VIDEO_CAPTURE])
      && forall i :: 0 <= i < |now| && i != at + OFF_SCREENSHOT && i != at + OFF_VIDEO_CAPTURE ==> now[i] == was[i]
  {
    if screenshots.Some? {
      section[at + OFF_SCREENSHOT] := if screenshots.value then 0 else 1;
    }
    if video.Some? {
      section[at + OFF_VIDEO_CAPTURE] := if video.value then 2 else 0;
      if video.value {
        section[at + OFF_SCREENSHOT] := 0;
      }
    }
  }

  /** Apply, on the NACP_SIZE bytes of the section from `at`. */
  method Apply(section: array<Byte>, at: nat, p: Patch) returns (changed: bool)
    requires at + NACP_SIZE <= section.Length
    modifies section
    ensures ReadState(section[..], at) == Wanted(ReadState(old(section[..]), at), p)
    ensures Edited(old(section[..]), section[..], at, p)
    ensures changed <==> section[..] != old(section[..])
    // never 0 where a user was picked at launch, never a user where none was
    ensures p.linkedAccountRequired != Some(true) ==>
              (section[..][at + OFF_STARTUP_USER_ACCOUNT] == 0 <==> old(section[..])[at + OFF_STARTUP_USER_ACCOUNT] == 0)
    // what is asked is written, and asking for what is there already changes nothing
    ensures AlreadySo(section[..], at, p)
    ensures AlreadySo(old(section[..]), at, p) ==> !changed
  {
    var before := section[at..at + NACP_SIZE];
    if p.linkedAccountRequired.Some? {
      SetLinkedAccount(section, at, p.linkedAccountRequired.value);
    }
    SetCapture(section, at, p.screenshotsAllowed, p.videoAllowed);
    changed := before != section[at..at + NACP_SIZE];
    SameOutside(old(section[..]), section[..], at, at + NACP_SIZE);
  }

  // two byte strings that agree outside a range are equal exactly when they agree in it
  lemma SameOutside(a: seq<Byte>, b: seq<Byte>, lo: nat, hi: nat)
    requires |a| == |b| && lo <= hi <= |a|
    requires forall i :: 0 <= i < |a| && !(lo <= i < hi) ==> a[i] == b[i]
    ensures a[lo..hi] == b[lo..hi] <==> a == b
  {
    if a[lo..hi] == b[lo..hi] {
      forall i | lo <= i < hi ensures a[i] == b[i] {
        assert a[lo..hi][i - lo] == b[lo..hi][i - lo];
      }
      assert a == b;
    }
  }

  /** The bytes are already the ones Apply writes for `p`. */
  predicate AlreadySo(bytes: seq<Byte>, at: nat, p: Patch)
    requires at + NACP_SIZE <= |bytes|
  {
    && (p.linkedAccountRequired == Some(true) ==>
          bytes[at + OFF_STARTUP_USER_ACCOUNT] == 2 && bytes[at + OFF_NETWORK_LICENSE_ON_LAUNCH] % 2 == 1)
    && (p.linkedAccountRequired == Some(false) ==>
          bytes[at + OFF_STARTUP_USER_ACCOUNT] != 2 && bytes[at + OFF_NETWORK_LICENSE_ON_LAUNCH] % 2 == 0)
    && (p.screenshotsAllowed.Some? && p.videoAllowed != Some(true) ==>
          bytes[at + OFF_SCREENSHOT] == if p.screenshotsAllowed.value then 0 else 1)
    && (p.videoAllowed == Some(true) ==> bytes[at + OFF_VIDEO_CAPTURE] == 2 && bytes[at + OFF_SCREENSHOT] == 0)
    && (p.videoAllowed == Some(false) ==> bytes[at + OFF_VIDEO_CAPTURE] == 0)
  }

  /** The edit of PatchNca: verify first, then edit the file, then repair the tree, for any levels. In a sound layout
      a valid tree stays valid, and the file reads back as asked; a tree that does not verify is not touched. */
  method PatchSection(section: array<Byte>, levels: seq<Level>, master: array<Byte>, fileOff: nat, p: Patch,
                      hash: seq<Byte> -> Digest, ghost masterWasExact: bool)
    returns (ok: bool, changed: bool, ghost edited: seq<Byte>)
    requires master.Length == 32 && master != section && |levels| >= 2
    requires fileOff + NACP_SIZE <= DataLevel(levels).size && DataLevel(levels).End() <= section.Length
    requires SlotsThere(levels, section.Length, Span(fileOff, NACP_SIZE))
    modifies section, master
    ensures ok <==> PathOk(hash, old(section[..]), levels, Span(fileOff, NACP_SIZE))
                    && (MasterOk(hash, old(section[..]), levels, old(master[..]), true)
                        || MasterOk(hash, old(section[..]), levels, old(master[..]), false))
    ensures !ok || !changed ==> section[..] == old(section[..]) && master[..] == old(master[..])
    ensures ok ==> Edited(old(section[..]), edited, DataLevel(levels).offset + fileOff, p) && (changed <==> edited != old(section[..]))
    ensures ok && changed ==> section[..] == Repaired(hash, edited, levels, Span(fileOff, NACP_SIZE), |levels| - 1)
    ensures ok && Layout(levels, section.Length) ==>
              FileIn(section[..], DataLevel(levels).offset + fileOff) == FileIn(edited, DataLevel(levels).offset + fileOff)
    ensures ok && Layout(levels, section.Length) ==>
              ReadState(section[..], DataLevel(levels).offset + fileOff)
              == Wanted(ReadState(old(section[..]), DataLevel(levels).offset + fileOff), p)
    ensures Layout(levels, section.Length) && TreeValid(hash, old(section[..]), levels, old(master[..]), masterWasExact) ==>
              ok && TreeValid(hash, section[..], levels, master[..], MasterOk(hash, old(section[..]), levels, old(master[..]), true))
  {
    hide TreeValid, PathOk, MasterOk, ReadState, Wanted, AlreadySo, Rehashed, Climbable, DirtyOk, Layout, SlotsThere, Repaired,
      IsRestrictionByte, Edited;
    ghost var good, goodMaster := section[..], master[..];
    var dirty := Span(fileOff, NACP_SIZE);
    var at := DataLevel(levels).offset + fileOff;
    changed := false;
    edited := good;
    var exact;
    ok, exact := Rehash(section, levels, master, dirty, hash, true, false);
    if Layout(levels, section.Length) && TreeValid(hash, good, levels, goodMaster, masterWasExact) {
      ValidTreeVerifies(hash, good, levels, goodMaster, masterWasExact, dirty);
      ValidAsVerified(hash, good, levels, goodMaster, masterWasExact);
    }
    if !ok {
      return;
    }
    changed := Apply(section, at, p);
    edited := section[..];
    RestrictionsInFile();
    if changed {
      RepairEdit(section, levels, master, dirty, hash, exact, good, goodMaster);
      if Layout(levels, section.Length) {
        SameFileReads(section[..], edited, at);
      }
    }
  }

  lemma RestrictionsInFile()
    ensures forall i :: IsRestrictionByte(i) ==> 0 <= i < NACP_SIZE
  {
  }

  // the second Rehash of PatchNca, after the file was edited
  method RepairEdit(section: array<Byte>, levels: seq<Level>, master: array<Byte>, file: Span, hash: seq<Byte> -> Digest,
                    exact: bool, ghost good: seq<Byte>, ghost goodMaster: seq<Byte>)
    requires master.Length == 32 && master != section && |good| == section.Length && |levels| >= 2
    requires file.Within(DataLevel(levels).size) && file.len == NACP_SIZE && DataLevel(levels).End() <= section.Length
    requires SlotsThere(levels, section.Length, file) && EditedInside(good, section[..], levels, file)
    modifies section, master
    ensures section[..] == Repaired(hash, old(section[..]), levels, file, |levels| - 1)
    ensures Layout(levels, section.Length) ==>
              FileIn(section[..], DataLevel(levels).offset + file.off) == FileIn(old(section[..]), DataLevel(levels).offset + file.off)
    ensures Layout(levels, section.Length) && TreeValid(hash, good, levels, goodMaster, exact) ==>
              TreeValid(hash, section[..], levels, master[..], exact)
  {
    assert file.len > 0;
    hide *;
    ghost var edited := section[..];
    var done, _ := Rehash(section, levels, master, file, hash, false, exact);
    if Layout(levels, section.Length) {
      LayoutIsClimbable(levels, |edited|, file);
      LayoutIsApart(levels, |edited|);
      RepairKeepsFile(hash, edited, section[..], levels, file);
      if TreeValid(hash, good, levels, goodMaster, exact) {
        RepairRestoresTree(hash, good, edited, section[..], levels, file, goodMaster, master[..], exact);
      }
    }
  }

  lemma LayoutIsApart(levels: seq<Level>, length: nat)
    requires Layout(levels, length)
    ensures LevelsApart(levels) && |levels| >= 2
  {
  }

  lemma RepairKeepsFile(hash: seq<Byte> -> Digest, before: seq<Byte>, after: seq<Byte>, levels: seq<Level>, file: Span)
    requires Layout(levels, |before|) && file.Within(DataLevel(levels).size) && file.len == NACP_SIZE
    requires DataLevel(levels).End() <= |before| && Rehashed(hash, before, after, levels, file)
    ensures |after| == |before|
    ensures FileIn(after, DataLevel(levels).offset + file.off) == FileIn(before, DataLevel(levels).offset + file.off)
  {
    assert |levels| > 0;
    hide Layout, Rehashed;
    var at := DataLevel(levels).offset + file.off;
    FileKept(hash, before, after, levels, file, at);
    forall i | at <= i < at + NACP_SIZE
      ensures after[i] == before[i]
    {
      FileKept(hash, before, after, levels, file, i);
    }
  }

  // the repair writes slots only: the edited file keeps its bytes
  lemma FileKept(hash: seq<Byte> -> Digest, before: seq<Byte>, after: seq<Byte>, levels: seq<Level>, file: Span, i: int)
    requires Layout(levels, |before|) && file.Within(DataLevel(levels).size)
    requires Rehashed(hash, before, after, levels, file)
    requires file.Has(i - DataLevel(levels).offset)
    ensures 0 <= i < |before| == |after| && after[i] == before[i]
  {
    if k: nat :| StaleIn(levels, file, k, i) {
      StaleOnlyInItsLevel(levels, |before|, file, k, |levels| - 1, i);
    }
  }
}
