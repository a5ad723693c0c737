/** The battery version of a CAL0 image and its patch (sphaira/include/cal0_battery.hpp). */
module Cal0 {
  import opened Crc16

  const IMAGE_SIZE := 0x8000
  const BODY_SIZE_OFF := 0x08
  const BODY_HASH_OFF := 0x20
  const BODY_OFF := 0x40
  const CERT_SIZE_OFF := 0x0AD0
  const CERT_OFF := 0x0AE0
  const CERT_HASH_OFF := 0x12E0
  const BATTERY_OFF := 0x4310
  const BATTERY_SIZE := 0x10
  const HASH_SIZE := 0x20

  type Digest = s: seq<bv8> | |s| == HASH_SIZE witness seq(HASH_SIZE, _ => 0)
  type HashFn = seq<bv8> -> Digest

  /** A little-endian u32. */
  function ReadU32(img: seq<bv8>, off: nat): nat
    requires off + 4 <= |img|
  {
    img[off] as int + 0x100 * (img[off + 1] as int) + 0x1_0000 * (img[off + 2] as int) + 0x100_0000 * (img[off + 3] as int)
  }

  function BodySize(img: seq<bv8>): nat
    requires |img| == IMAGE_SIZE
  {
    ReadU32(img, BODY_SIZE_OFF)
  }

  function CertSize(img: seq<bv8>): nat
    requires |img| == IMAGE_SIZE
  {
    ReadU32(img, CERT_SIZE_OFF)
  }

  predicate IsUsable(img: seq<bv8>) {
    |img| == IMAGE_SIZE && BODY_OFF + BodySize(img) <= |img| && CERT_OFF + CertSize(img) <= |img|
  }

  function Body(img: seq<bv8>): seq<bv8>
    requires IsUsable(img)
  {
    img[BODY_OFF..BODY_OFF + BodySize(img)]
  }

  function Cert(img: seq<bv8>): seq<bv8>
    requires IsUsable(img)
  {
    img[CERT_OFF..CERT_OFF + CertSize(img)]
  }

  function CrcLow(crc: bv16): bv8 {
    (crc & 0xFF) as bv8
  }

  function CrcHigh(crc: bv16): bv8 {
    (crc >> 8) as bv8
  }

  /** The bytes the block's CRC covers. */
  function Battery(img: seq<bv8>): seq<bv8>
    requires |img| == IMAGE_SIZE
  {
    img[BATTERY_OFF..BATTERY_OFF + BATTERY_SIZE - 2]
  }

  predicate BatteryCrcOk(img: seq<bv8>)
    requires |img| == IMAGE_SIZE
  {
    var crc := Crc(Battery(img));
    img[BATTERY_OFF + 14] == CrcLow(crc) && img[BATTERY_OFF + 15] == CrcHigh(crc)
  }

  predicate HashOk(img: seq<bv8>, at: nat, digest: Digest)
    requires at + HASH_SIZE <= |img|
  {
    img[at..at + HASH_SIZE] == digest
  }

  /** Everything the editor checks. */
  predicate Verified(img: seq<bv8>, hash: HashFn) {
    && IsUsable(img)
    && HashOk(img, CERT_HASH_OFF, hash(Cert(img)))
    && HashOk(img, BODY_HASH_OFF, hash(Body(img)))
    && BatteryCrcOk(img)
  }

  // ---- the patch, on values ----

  function WithVersion(img: seq<bv8>, version: bv8): (out: seq<bv8>)
    requires |img| == IMAGE_SIZE
    ensures |out| == |img|
  {
    img[BATTERY_OFF := version]
  }

  function WithCrc(img: seq<bv8>): (out: seq<bv8>)
    requires |img| == IMAGE_SIZE
    ensures |out| == |img|
  {
    var crc := Crc(Battery(img));
    img[BATTERY_OFF + 14 := CrcLow(crc)][BATTERY_OFF + 15 := CrcHigh(crc)]
  }

  function WithBodyHash(img: seq<bv8>, hash: HashFn): (out: seq<bv8>)
    requires IsUsable(img)
    ensures |out| == |img|
  {
    img[..BODY_HASH_OFF] + hash(Body(img)) + img[BODY_OFF..]
  }

  function Patched(img: seq<bv8>, version: bv8, hash: HashFn): (out: seq<bv8>)
    requires IsUsable(img)
    ensures |out| == |img|
  {
    var edited := WithCrc(WithVersion(img, version));
    EditKeepsSizes(img, version);
    WithBodyHash(edited, hash)
  }

  /** Bytes the patch may change: the version, the block's CRC and the body hash. */
  predicate IsPatchByte(i: int) {
    i == BATTERY_OFF || i == BATTERY_OFF + 14 || i == BATTERY_OFF + 15 || BODY_HASH_OFF <= i < BODY_HASH_OFF + HASH_SIZE
  }

  lemma EditKeepsSizes(img: seq<bv8>, version: bv8)
    requires IsUsable(img)
    ensures var edited := WithCrc(WithVersion(img, version));
            IsUsable(edited) && BodySize(edited) == BodySize(img) && CertSize(edited) == CertSize(img)
  {
  }

  // ---- the code ----

  /** The compare loop of BodyHashOk and CertHashOk. */
  method CompareHash(img: array<bv8>, at: nat, digest: Digest) returns (ok: bool)
    requires at + HASH_SIZE <= img.Length
    ensures ok <==> HashOk(img[..], at, digest)
  {
    for i := 0 to HASH_SIZE
      invariant forall j :: 0 <= j < i ==> digest[j] == img[at + j]
    {
      if digest[i] != img[at + i] {
        assert img[..][at..at + HASH_SIZE][i] == img[at + i];
        return false;
      }
    }
    assert img[..][at..at + HASH_SIZE] == digest;
    return true;
  }

  method Verify(img: array<bv8>, hash: HashFn) returns (ok: bool)
    ensures ok <==> Verified(img[..], hash)
  {
    if !IsUsable(img[..]) {
      return false;
    }
    ok := CompareHash(img, CERT_HASH_OFF, hash(Cert(img[..])));
    if !ok {
      return;
    }
    ok := CompareHash(img, BODY_HASH_OFF, hash(Body(img[..])));
    if !ok {
      return;
    }
    var crc := Compute(Battery(img[..]));
    return img[BATTERY_OFF + 14] == CrcLow(crc) && img[BATTERY_OFF + 15] == CrcHigh(crc);
  }

  /** PatchBatteryVersion: an image that fails its own checks is not touched. */
  method PatchBatteryVersion(img: array<bv8>, version: bv8, hash: HashFn) returns (ok: bool)
    modifies img
    ensures ok <==> Verified(old(img[..]), hash)
    ensures img[..] == if ok then Patched(old(img[..]), version, hash) else old(img[..])
    // the version, the block's CRC with its low byte first, and the hash of the body; all else stays
    ensures ok ==>
              && IsUsable(img[..]) && img[BATTERY_OFF] == version
              && img[BATTERY_OFF + 14] == (Crc(img[BATTERY_OFF..BATTERY_OFF + 14]) & 0xFF) as bv8
              && img[BATTERY_OFF + 15] == (Crc(img[BATTERY_OFF..BATTERY_OFF + 14]) >> 8) as bv8
              && img[BODY_HASH_OFF..BODY_HASH_OFF + HASH_SIZE] == hash(Body(img[..]))
              && forall i :: 0 <= i < img.Length && !IsPatchByte(i) ==> img[i] == old(img[i])
  {
    hide Crc, CrcLow, CrcHigh, ReadU32, BatteryCrcOk, HashOk;
    ok := Verify(img, hash);
    if !ok {
      return;
    }
    ghost var was := img[..];
    EditKeepsSizes(was, version);
    img[BATTERY_OFF] := version;
    assert img[..] == WithVersion(was, version);
    var crc := Compute(Battery(img[..]));
    img[BATTERY_OFF + 14] := CrcLow(crc);
    img[BATTERY_OFF + 15] := CrcHigh(crc);
    ghost var edited := img[..];
    assert edited == WithCrc(WithVersion(was, version));
    var digest := hash(Body(img[..]));
    forall i | 0 <= i < HASH_SIZE {
      img[BODY_HASH_OFF + i] := digest[i];
    }
    assert img[..] == WithBodyHash(edited, hash);
    PatchMeans(was, version, hash);
    assert img[..][BODY_HASH_OFF..BODY_HASH_OFF + HASH_SIZE] == img[BODY_HASH_OFF..BODY_HASH_OFF + HASH_SIZE];
    assert img[..][BATTERY_OFF..BATTERY_OFF + 14] == img[BATTERY_OFF..BATTERY_OFF + 14];
  }

  // ---- what the patch promises ----

  /** A block's CRC is stored behind it, the low byte first. */
  lemma CrcMeans(img: seq<bv8>)
    requires |img| == IMAGE_SIZE
    ensures BatteryCrcOk(img) <==>
              && img[BATTERY_OFF + 14] == (Crc(img[BATTERY_OFF..BATTERY_OFF + 14]) & 0xFF) as bv8
              && img[BATTERY_OFF + 15] == (Crc(img[BATTERY_OFF..BATTERY_OFF + 14]) >> 8) as bv8
  {
    hide Crc;
  }

  // what a patched image holds
  lemma PatchMeans(img: seq<bv8>, version: bv8, hash: HashFn)
    requires IsUsable(img)
    ensures var out := Patched(img, version, hash);
      && IsUsable(out) && out[BATTERY_OFF] == version
      && out[BATTERY_OFF + 14] == (Crc(out[BATTERY_OFF..BATTERY_OFF + 14]) & 0xFF) as bv8
      && out[BATTERY_OFF + 15] == (Crc(out[BATTERY_OFF..BATTERY_OFF + 14]) >> 8) as bv8
      && out[BODY_HASH_OFF..BODY_HASH_OFF + HASH_SIZE] == hash(Body(out))
      && forall i :: 0 <= i < |img| && !IsPatchByte(i) ==> out[i] == img[i]
  {
    hide Crc, CrcLow, CrcHigh, ReadU32, BatteryCrcOk, Patched, Body;
    PatchTouchesOnly(img, version, hash);
    PatchedParts(img, version, hash);
    CrcMeans(Patched(img, version, hash));
  }

  /** A u32 is read with its low byte first. */
  lemma U32Bytes(img: seq<bv8>, off: nat)
    requires off + 4 <= |img| && img[off + 2] == 0
    ensures img[off] == 1 && img[off + 1] == 0 && img[off + 3] == 0 ==> ReadU32(img, off) == 1
    ensures img[off] == 0 && img[off + 1] == 1 && img[off + 3] == 0 ==> ReadU32(img, off) == 0x100
    ensures img[off] == 0 && img[off + 1] == 0 && img[off + 3] == 1 ==> ReadU32(img, off) == 0x100_0000
  {
  }

  /** Only the battery block and the body hash change. */
  lemma PatchTouchesOnly(img: seq<bv8>, version: bv8, hash: HashFn)
    requires IsUsable(img)
    ensures forall i :: 0 <= i < |img| && !IsPatchByte(i) ==> Patched(img, version, hash)[i] == img[i]
    ensures Patched(img, version, hash)[BATTERY_OFF] == version
  {
    hide Crc, CrcLow, CrcHigh, ReadU32;
  }

  /** The certificate ends before the battery block. */
  predicate CertClear(img: seq<bv8>)
    requires IsUsable(img)
  {
    CERT_OFF + CertSize(img) <= BATTERY_OFF
  }

  // storing the body hash changes neither the sizes nor the body
  lemma BodyHashStored(edited: seq<bv8>, hash: HashFn)
    requires IsUsable(edited)
    ensures var out := WithBodyHash(edited, hash);
      && IsUsable(out) && BodySize(out) == BodySize(edited) && CertSize(out) == CertSize(edited)
      && Body(out) == Body(edited) && HashOk(out, BODY_HASH_OFF, hash(Body(edited)))
      && Battery(out) == Battery(edited) && out[BATTERY_OFF + 14] == edited[BATTERY_OFF + 14]
      && out[BATTERY_OFF + 15] == edited[BATTERY_OFF + 15]
      && out[CERT_HASH_OFF..CERT_HASH_OFF + HASH_SIZE] == edited[CERT_HASH_OFF..CERT_HASH_OFF + HASH_SIZE]
  {
    var out := WithBodyHash(edited, hash);
    assert out[BODY_OFF..] == edited[BODY_OFF..];
    assert forall i :: 0 <= i < BODY_HASH_OFF || BODY_OFF <= i < |out| ==> out[i] == edited[i];
    SameU32(out, edited, BODY_SIZE_OFF);
    SameU32(out, edited, CERT_SIZE_OFF);
    assert out[BODY_HASH_OFF..BODY_HASH_OFF + HASH_SIZE] == hash(Body(edited));
    hide ReadU32, WithBodyHash;
    SameSlice(out, edited, BODY_OFF, BODY_OFF + BodySize(edited));
    SameSlice(out, edited, BATTERY_OFF, BATTERY_OFF + BATTERY_SIZE - 2);
    SameSlice(out, edited, CERT_HASH_OFF, CERT_HASH_OFF + HASH_SIZE);
  }

  lemma SameU32(a: seq<bv8>, b: seq<bv8>, off: nat)
    requires off + 4 <= |a| && off + 4 <= |b| && forall i :: off <= i < off + 4 ==> a[i] == b[i]
    ensures ReadU32(a, off) == ReadU32(b, off)
  {
  }

  lemma SameSlice(a: seq<bv8>, b: seq<bv8>, lo: nat, hi: nat)
    requires lo <= hi <= |a| == |b| && forall i :: lo <= i < hi ==> a[i] == b[i]
    ensures a[lo..hi] == b[lo..hi]
  {
  }

  lemma PatchedParts(img: seq<bv8>, version: bv8, hash: HashFn)
    requires IsUsable(img)
    ensures var out := Patched(img, version, hash);
      && IsUsable(out) && BodySize(out) == BodySize(img) && CertSize(out) == CertSize(img)
      && HashOk(out, BODY_HASH_OFF, hash(Body(out))) && BatteryCrcOk(out)
      && out[CERT_HASH_OFF..CERT_HASH_OFF + HASH_SIZE] == img[CERT_HASH_OFF..CERT_HASH_OFF + HASH_SIZE]
  {
    hide Crc, CrcLow, CrcHigh, WithBodyHash, Body, ReadU32, BodySize, CertSize;
    var edited := WithCrc(WithVersion(img, version));
    EditKeepsSizes(img, version);
    BodyHashStored(edited, hash);
    assert Battery(edited) == Battery(WithVersion(img, version));
    assert edited[CERT_HASH_OFF..CERT_HASH_OFF + HASH_SIZE] == img[CERT_HASH_OFF..CERT_HASH_OFF + HASH_SIZE];
  }

  /** Patching a verified image whose certificate is clear of the block leaves it verified. */
  lemma PatchStaysVerified(img: seq<bv8>, version: bv8, hash: HashFn)
    requires Verified(img, hash) && CertClear(img)
    ensures Verified(Patched(img, version, hash), hash)
  {
    hide Crc, CrcLow, CrcHigh, ReadU32, BatteryCrcOk;
    var out := Patched(img, version, hash);
    PatchedParts(img, version, hash);
    PatchTouchesOnly(img, version, hash);
    assert Cert(out) == Cert(img);
  }

  /** Writing the version that is there already changes nothing. */
  lemma SameVersionSameImage(img: seq<bv8>, hash: HashFn)
    requires Verified(img, hash)
    ensures Patched(img, img[BATTERY_OFF], hash) == img
  {
    hide Crc, CrcLow, CrcHigh, ReadU32;
    assert WithVersion(img, img[BATTERY_OFF]) == img;
    assert WithCrc(img) == img;
  }

  /** Patching back to the first version restores the image byte for byte. */
  lemma PatchUndone(img: seq<bv8>, version: bv8, hash: HashFn)
    requires Verified(img, hash)
    ensures IsUsable(Patched(img, version, hash))
    ensures Patched(Patched(img, version, hash), img[BATTERY_OFF], hash) == img
  {
    hide Crc, CrcLow, CrcHigh, ReadU32;
    PatchedParts(img, version, hash);
    PatchOverwrites(img, version, img[BATTERY_OFF], hash);
    SameVersionSameImage(img, hash);
  }

  // the last of two patches counts
  lemma PatchOverwrites(img: seq<bv8>, first: bv8, second: bv8, hash: HashFn)
    requires IsUsable(img) && IsUsable(Patched(img, first, hash))
    ensures Patched(Patched(img, first, hash), second, hash) == Patched(img, second, hash)
  {
    hide Crc, CrcLow, CrcHigh, ReadU32;
    var mid := Patched(img, first, hash);
    PatchTouchesOnly(img, first, hash);
    var a, b := WithCrc(WithVersion(mid, second)), WithCrc(WithVersion(img, second));
    EditKeepsSizes(img, second);
    EditKeepsSizes(mid, second);
    assert Battery(WithVersion(mid, second)) == Battery(WithVersion(img, second));
    assert forall i :: 0 <= i < |img| && !(BODY_HASH_OFF <= i < BODY_OFF) ==> a[i] == b[i];
    assert a[BODY_OFF..] == b[BODY_OFF..] && a[..BODY_HASH_OFF] == b[..BODY_HASH_OFF];
    PatchedParts(img, first, hash);
    assert Body(a) == Body(b);
  }

  /** A verified image stays verified exactly when its certificate is clear of the battery block or the version
      stays the same; for a hash that tells the two certificates apart. */
  lemma StaysVerifiedExactly(img: seq<bv8>, version: bv8, hash: HashFn)
    requires Verified(img, hash)
    requires IsUsable(Patched(img, version, hash))
    requires hash(Cert(Patched(img, version, hash))) == hash(Cert(img)) ==> Cert(Patched(img, version, hash)) == Cert(img)
    ensures Verified(Patched(img, version, hash), hash) <==> CertClear(img) || version == img[BATTERY_OFF]
  {
    hide Crc, CrcLow, CrcHigh, ReadU32, BatteryCrcOk;
    var out := Patched(img, version, hash);
    PatchedParts(img, version, hash);
    PatchTouchesOnly(img, version, hash);
    if CertClear(img) {
      PatchStaysVerified(img, version, hash);
    } else if version == img[BATTERY_OFF] {
      SameVersionSameImage(img, hash);
    } else {
      var at := BATTERY_OFF - CERT_OFF;
      assert Cert(out)[at] == out[BATTERY_OFF] && Cert(img)[at] == img[BATTERY_OFF];
    }
  }

  /** An image outside that condition is one whose certificate contains its own hash. */
  lemma UnclearCertHoldsItsHash(img: seq<bv8>, hash: HashFn)
    requires Verified(img, hash) && !CertClear(img)
    ensures var at := CERT_HASH_OFF - CERT_OFF;
      at + HASH_SIZE <= CertSize(img) && Cert(img)[at..at + HASH_SIZE] == hash(Cert(img))
  {
    hide BatteryCrcOk, ReadU32;
    var at := CERT_HASH_OFF - CERT_OFF;
    assert Cert(img)[at..at + HASH_SIZE] == img[CERT_HASH_OFF..CERT_HASH_OFF + HASH_SIZE];
  }
}
