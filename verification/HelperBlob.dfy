/** The stored helper and its canonical encoding (core.py:338-444). */
module HelperBlob {
  import opened Primality
  import opened Wrappers
  import opened Bytes
  import opened Sharing
  import opened Factors

  datatype HelperSlot = HelperSlot(name: string, mandatory: bool, share: Key)

  datatype Helper = Helper(normVersion: byte, salt: byte, threshold: byte, slots: seq<HelperSlot>, checkWord: bytes)

  // ---------------------------------------------------------------- well-formed helpers

  function MandatoryCount(slots: seq<HelperSlot>): (n: nat)
    ensures n <= |slots|
  {
    if slots == [] then 0
    else MandatoryCount(slots[..|slots| - 1]) + if slots[|slots| - 1].mandatory then 1 else 0
  }

  predicate SlotsInOrder(slots: seq<HelperSlot>, norm: int) {
    && (forall i :: 0 <= i < |slots| ==> slots[i].name in Allowed(norm))
    && (forall i, j :: 0 <= i < j < |slots| ==> Less(slots[i].name, slots[j].name))
  }

  predicate HasHardStore(slots: seq<HelperSlot>) {
    exists i :: 0 <= i < |slots| && slots[i].name == "slstore" && slots[i].mandatory
  }

  /** The helpers that have an encoding. */
  predicate WellFormed(h: Helper) {
    && (h.normVersion == LEGACY_NORM_VERSION || h.normVersion == CURRENT_NORM_VERSION)
    && 1 <= MandatoryCount(h.slots) < h.threshold <= |h.slots| <= |Allowed(h.normVersion)|
    && SlotsInOrder(h.slots, h.normVersion)
    && HasHardStore(h.slots)
    && |h.checkWord| == 32
  }

  // ---------------------------------------------------------------- encoding

  const HELPER_MAGIC := "SLSSHWID"

  /** The names that fit the length byte. */
  predicate IsWritableName(name: string) {
    IsAscii(name) && |name| <= 255
  }

  function SlotBytes(s: HelperSlot): bytes
    requires IsWritableName(s.name)
  {
    [|s.name|] + Ascii(s.name) + [if s.mandatory then 1 else 0] + KeyBytes(s.share)
  }

  predicate SlotNames(slots: seq<HelperSlot>) {
    forall i :: 0 <= i < |slots| ==> IsSlotName(slots[i].name)
  }

  predicate WritableNames(slots: seq<HelperSlot>) {
    forall i :: 0 <= i < |slots| ==> IsWritableName(slots[i].name)
  }

  lemma SlotNamesWritable(slots: seq<HelperSlot>)
    requires SlotNames(slots)
    ensures WritableNames(slots)
  {
  }

  function SlotsBytes(slots: seq<HelperSlot>): bytes
    requires WritableNames(slots)
  {
    if slots == [] then [] else SlotsBytes(slots[..|slots| - 1]) + SlotBytes(slots[|slots| - 1])
  }

  /** In an allowed schema the slots are few and their names short. */
  lemma {:induction false} SlotsSize(slots: seq<HelperSlot>)
    requires SlotNames(slots)
    ensures WritableNames(slots) && |SlotsBytes(slots)| <= 54 * |slots|
  {
    if slots != [] {
      SlotsSize(slots[..|slots| - 1]);
      KeyLength(slots[|slots| - 1].share);
      hide KeyBytes;
    }
  }

  /** What serialize_helper can write: names and counts that fit their bytes. */
  predicate Encodable(h: Helper) {
    && WritableNames(h.slots) && |h.slots| <= 255 && |h.checkWord| == 32
  }

  function Payload(h: Helper): (b: bytes)
    requires Encodable(h)
    ensures |b| >= 8
  {
    [1, h.normVersion, h.salt, |h.slots|, MandatoryCount(h.slots), h.threshold, 0, 0] + SlotsBytes(h.slots)
  }

  function Framed(payload: bytes, cw: bytes): bytes {
    Ascii(HELPER_MAGIC) + LE(|payload|, 4) + payload + cw
  }

  function Unsigned(h: Helper): bytes
    requires Encodable(h)
  {
    Framed(Payload(h), h.checkWord)
  }

  /** The blob of a helper: magic, length, payload, check word, integrity digest. */
  function Encode(sha: Sha256, h: Helper): bytes
    requires Encodable(h)
  {
    Unsigned(h) + sha(Unsigned(h))
  }

  lemma WellFormedEncodable(h: Helper)
    requires WellFormed(h)
    ensures Encodable(h) && SlotNames(h.slots) && |h.slots| <= 14
  {
    hide IsSlotName, Allowed, IsWritableName;
    AllowedSize(h.normVersion);
    forall i | 0 <= i < |h.slots| ensures IsSlotName(h.slots[i].name) {
      AllowedNames(h.normVersion, h.slots[i].name);
    }
    SlotNamesWritable(h.slots);
  }

  // ---------------------------------------------------------------- parsing one slot

  /** struct.unpack_from("<4Q", b, at), and whether every limb is in range. */
  function RawLimb(b: bytes, at: nat, l: nat): nat
    requires l < 4 && at + 32 <= |b|
  {
    FromLE(b[at + 8 * l..at + 8 * l + 8])
  }

  datatype Parsed = Parsed(slot: HelperSlot, rest: bytes)

  /** One turn of parse_helper's slot loop; done holds the slots parsed before. */
  function ParseSlot(rest: bytes, norm: int, seen: set<string>, previous: string): Result<Parsed> {
    if |rest| < 1 then Err(CorruptHelperError) else
    var nameLen: nat := rest[0];
    if nameLen == 0 || |rest| < 1 + nameLen + 1 + 32 then Err(CorruptHelperError) else
    var name :- Decode(rest[1..1 + nameLen]);
    if name !in Allowed(norm) then Err(CorruptHelperError)
    else if name in seen || (previous != "" && !Less(previous, name)) then Err(CorruptHelperError) else
    var flags := rest[1 + nameLen];
    if flags != 0 && flags != 1 then Err(CorruptHelperError) else
    var at := 2 + nameLen;
    if RawLimb(rest, at, 0) >= P || RawLimb(rest, at, 1) >= P || RawLimb(rest, at, 2) >= P || RawLimb(rest, at, 3) >= P
    then Err(CorruptHelperError)
    else
      var share := [RawLimb(rest, at, 0), RawLimb(rest, at, 1), RawLimb(rest, at, 2), RawLimb(rest, at, 3)];
      Ok(Parsed(HelperSlot(name, flags == 1, share), rest[at + 32..]))
  }

  lemma LimbsOfKey(k: Key, front: bytes, tail: bytes)
    ensures var b := front + KeyBytes(k) + tail;
      forall l :: 0 <= l < 4 ==> RawLimb(b, |front|, l) == k[l]
  {
    var b := front + KeyBytes(k) + tail;
    Widths();
    forall l | 0 <= l < 4 ensures RawLimb(b, |front|, l) == k[l] {
      assert b[|front| + 8 * l..|front| + 8 * l + 8] == LE(k[l], 8);
      LEInverse(k[l], 8);
    }
  }

  lemma KeyOfLimbs(b: bytes, at: nat, k: Key)
    requires at + 32 <= |b| && forall l :: 0 <= l < 4 ==> RawLimb(b, at, l) == k[l]
    ensures b[at..at + 32] == KeyBytes(k)
  {
    forall l | 0 <= l < 4 ensures LE(k[l], 8) == b[at + 8 * l..at + 8 * l + 8] {
      FromLEInverse(b[at + 8 * l..at + 8 * l + 8]);
    }
    assert b[at..at + 32] == b[at..at + 8] + b[at + 8..at + 16] + b[at + 16..at + 24] + b[at + 24..at + 32];
    assert LE(k[0], 8) == b[at + 8 * 0..at + 8 * 0 + 8];
    assert LE(k[1], 8) == b[at + 8 * 1..at + 8 * 1 + 8];
    assert LE(k[2], 8) == b[at + 8 * 2..at + 8 * 2 + 8];
    assert LE(k[3], 8) == b[at + 8 * 3..at + 8 * 3 + 8];
  }

  lemma ParseEncodedSlot(s: HelperSlot, tail: bytes, norm: int, seen: set<string>, previous: string)
    requires s.name in Allowed(norm) && IsSlotName(s.name)
    requires s.name !in seen && (previous != "" ==> Less(previous, s.name))
    ensures ParseSlot(SlotBytes(s) + tail, norm, seen, previous) == Ok(Parsed(s, tail))
  {
    hide Allowed, Less, RawLimb, KeyBytes;
    assert |KeyBytes(s.share)| == 32 by { KeyLength(s.share); }
    var front := [|s.name|] + Ascii(s.name) + [if s.mandatory then 1 else 0];
    var rest := SlotBytes(s) + tail;
    assert rest == front + KeyBytes(s.share) + tail;
    assert rest[1..1 + |s.name|] == Ascii(s.name);
    DecodeAscii(s.name);
    LimbsOfKey(s.share, front, tail);
    assert rest[2 + |s.name| + 32..] == tail;
    assert s.share == [s.share[0], s.share[1], s.share[2], s.share[3]];
  }

  lemma KeyLength(k: Key)
    ensures |KeyBytes(k)| == 32
  {
  }

  lemma ParsedSlotEncodes(rest: bytes, norm: int, seen: set<string>, previous: string)
    requires ParseSlot(rest, norm, seen, previous).Ok?
    ensures var p := ParseSlot(rest, norm, seen, previous).value;
      && p.slot.name in Allowed(norm) && p.slot.name !in seen && (previous != "" ==> Less(previous, p.slot.name))
      && IsSlotName(p.slot.name)
      && rest == SlotBytes(p.slot) + p.rest
  {
    hide Allowed, Less, RawLimb, KeyBytes;
    var p := ParseSlot(rest, norm, seen, previous).value;
    AllowedNames(norm, p.slot.name);
    var n: nat := rest[0];
    KeyOfLimbs(rest, 2 + n, p.slot.share);
    assert rest == rest[..1] + rest[1..1 + n] + rest[1 + n..2 + n] + rest[2 + n..2 + n + 32] + rest[2 + n + 32..];
  }

  // ---------------------------------------------------------------- parsing the slots

  function Names(slots: seq<HelperSlot>): set<string> {
    set i | 0 <= i < |slots| :: slots[i].name
  }

  function LastName(slots: seq<HelperSlot>): string {
    if slots == [] then "" else slots[|slots| - 1].name
  }

  function ParseSlots(rest: bytes, n: nat, done: seq<HelperSlot>, norm: int): Result<seq<HelperSlot>> {
    if n == 0 then
      if |rest| > 0 then Err(CorruptHelperError) else Ok(done)
    else
      var p :- ParseSlot(rest, norm, Names(done), LastName(done));
      ParseSlots(p.rest, n - 1, done + [p.slot], norm)
  }

  function TailBytes(slots: seq<HelperSlot>, i: nat): bytes
    requires i <= |slots| && WritableNames(slots)
    decreases |slots| - i
  {
    if i == |slots| then [] else SlotBytes(slots[i]) + TailBytes(slots, i + 1)
  }

  lemma {:induction false} TailCompletes(slots: seq<HelperSlot>, i: nat)
    requires i <= |slots| && WritableNames(slots)
    ensures SlotsBytes(slots[..i]) + TailBytes(slots, i) == SlotsBytes(slots)
    decreases |slots| - i
  {
    hide SlotBytes, IsWritableName;
    if i == |slots| {
      assert slots[..i] == slots;
    } else {
      TailCompletes(slots, i + 1);
      assert slots[..i + 1][..i] == slots[..i];
    }
  }

  lemma OrderExtends(done: seq<HelperSlot>, s: HelperSlot, norm: int)
    requires SlotsInOrder(done, norm) && s.name in Allowed(norm)
    ensures done == [] || Less(LastName(done), s.name) <==> SlotsInOrder(done + [s], norm)
    ensures SlotsInOrder(done + [s], norm) ==> s.name !in Names(done)
  {
    hide Allowed, Less;
    var all := done + [s];
    if done != [] && Less(LastName(done), s.name) {
      forall i | 0 <= i < |done| ensures Less(all[i].name, s.name) {
        if i < |done| - 1 {
          LessTransitive(done[i].name, LastName(done), s.name);
        }
      }
      assert forall i :: 0 <= i < |done| ==> all[i] == done[i];
    }
    if SlotsInOrder(all, norm) {
      assert done != [] ==> all[|done| - 1].name == LastName(done) && all[|done|].name == s.name;
      LessIrreflexive(s.name);
      assert forall i :: 0 <= i < |done| ==> all[i] == done[i] && Less(all[i].name, all[|done|].name);
    }
  }

  lemma PrefixInOrder(slots: seq<HelperSlot>, i: nat, norm: int)
    requires i <= |slots| && SlotsInOrder(slots, norm)
    ensures SlotsInOrder(slots[..i], norm)
  {
  }

  lemma {:induction false} ParseEncodedSlots(slots: seq<HelperSlot>, i: nat, norm: int)
    requires i <= |slots| && SlotNames(slots) && SlotsInOrder(slots, norm)
    ensures ParseSlots(TailBytes(slots, i), |slots| - i, slots[..i], norm) == Ok(slots)
    decreases |slots| - i
  {
    hide ParseSlot, SlotBytes, SlotsInOrder, Allowed, Less, IsSlotName, IsWritableName;
    SlotNamesWritable(slots);
    if i == |slots| {
      assert slots[..i] == slots;
    } else {
      var s, done := slots[i], slots[..i];
      assert slots[..i + 1] == done + [s];
      PrefixInOrder(slots, i, norm);
      PrefixInOrder(slots, i + 1, norm);
      assert s.name in Allowed(norm) by { NameAllowed(slots, i, norm); }
      OrderExtends(done, s, norm);
      ParseEncodedSlot(s, TailBytes(slots, i + 1), norm, Names(done), LastName(done));
      ParseEncodedSlots(slots, i + 1, norm);
    }
  }

  lemma NameAllowed(slots: seq<HelperSlot>, i: nat, norm: int)
    requires i < |slots| && SlotsInOrder(slots, norm)
    ensures slots[i].name in Allowed(norm)
  {
  }

  lemma {:induction false} ParsedSlotsEncode(rest: bytes, n: nat, done: seq<HelperSlot>, norm: int)
    requires SlotNames(done) && SlotsInOrder(done, norm)
    requires ParseSlots(rest, n, done, norm).Ok?
    ensures var slots := ParseSlots(rest, n, done, norm).value;
      && |slots| == |done| + n && slots[..|done|] == done
      && SlotNames(slots) && SlotsInOrder(slots, norm)
      && rest == TailBytes(slots, |done|)
    decreases n
  {
    hide ParseSlot, SlotBytes, SlotsInOrder, Allowed, Less, IsSlotName, IsWritableName;
    if n > 0 {
      var p := ParseSlot(rest, norm, Names(done), LastName(done)).value;
      ParsedSlotEncodes(rest, norm, Names(done), LastName(done));
      if done != [] { LastNameIsName(done); }
      OrderExtends(done, p.slot, norm);
      ParsedSlotsEncode(p.rest, n - 1, done + [p.slot], norm);
      var slots := ParseSlots(rest, n, done, norm).value;
      assert slots[..|done| + 1][..|done|] == slots[..|done|];
      assert slots[|done|] == p.slot;
    }
    SlotNamesWritable(ParseSlots(rest, n, done, norm).value);
  }

  lemma LastNameIsName(slots: seq<HelperSlot>)
    requires SlotNames(slots) && slots != []
    ensures LastName(slots) != ""
  {
    assert IsSlotName(slots[|slots| - 1].name);
  }

  // ---------------------------------------------------------------- parsing a blob

  function PayloadLength(blob: bytes): nat
    requires |blob| >= 12
  {
    FromLE(blob[8..12])
  }

  predicate LengthOk(blob: bytes) {
    && 8 + 4 + 8 + 32 + 32 <= |blob| <= 4096
    && 8 <= PayloadLength(blob) <= 4096 && 12 + PayloadLength(blob) + 64 == |blob|
  }

  predicate MagicOk(blob: bytes)
    requires |blob| >= 8
  {
    blob[..8] == Ascii(HELPER_MAGIC)
  }

  predicate DigestOk(sha: Sha256, blob: bytes)
    requires |blob| >= 32
  {
    sha(blob[..|blob| - 32]) == blob[|blob| - 32..]
  }

  /** The checks on the envelope: size, magic, integrity digest, payload length. */
  predicate EnvelopeOk(sha: Sha256, blob: bytes) {
    LengthOk(blob) && MagicOk(blob) && DigestOk(sha, blob)
  }

  /** The checks on the eight header bytes. */
  predicate HeaderOk(body: bytes)
    requires |body| >= 8
  {
    && body[0] == 1
    && (body[1] == LEGACY_NORM_VERSION || body[1] == CURRENT_NORM_VERSION)
    && body[6] == 0 && body[7] == 0
    && 0 < body[3] <= |Allowed(body[1])|
    && 0 < body[4] < body[5] <= body[3]
  }

  function ParseBody(body: bytes, cw: bytes): Result<Helper>
    requires |body| >= 8
  {
    if !HeaderOk(body) then Err(CorruptHelperError) else
    var slots :- ParseSlots(body[8..], body[3], [], body[1]);
    if MandatoryCount(slots) != body[4] then Err(CorruptHelperError)
    else if !HasHardStore(slots) then Err(CorruptHelperError)
    else Ok(Helper(body[1], body[2], body[5], slots, cw))
  }

  function BodyOf(blob: bytes): (body: bytes)
    requires LengthOk(blob)
    ensures |body| == PayloadLength(blob) >= 8
  {
    blob[12..12 + PayloadLength(blob)]
  }

  function WordOf(blob: bytes): (cw: bytes)
    requires LengthOk(blob)
    ensures |cw| == 32
  {
    blob[12 + PayloadLength(blob)..12 + PayloadLength(blob) + 32]
  }

  /** parse_helper: every rejection but an undecodable slot name is reported as corruption. */
  function Parse(sha: Sha256, blob: bytes): Result<Helper> {
    if !EnvelopeOk(sha, blob) then Err(CorruptHelperError)
    else ParseBody(BodyOf(blob), WordOf(blob))
  }

  lemma Slices(magic: bytes, length: bytes, payload: bytes, word: bytes, digest: bytes)
    requires |magic| == 8 && |length| == 4 && |word| == |digest| == 32
    ensures var b, n := magic + length + payload + word + digest, |payload|;
      && b[..8] == magic && b[8..12] == length && b[12..12 + n] == payload && b[12 + n..12 + n + 32] == word
      && b[..|b| - 32] == magic + length + payload + word && b[|b| - 32..] == digest
  {
  }

  lemma FramedParts(payload: bytes, cw: bytes, digest: bytes)
    requires 8 <= |payload| <= 4020 && |cw| == |digest| == 32
    ensures var blob := Framed(payload, cw) + digest;
      && LengthOk(blob) && MagicOk(blob) && BodyOf(blob) == payload && WordOf(blob) == cw
  {
    var n := |payload|;
    Widths();
    LEInverse(n, 4);
    Slices(Ascii(HELPER_MAGIC), LE(n, 4), payload, cw, digest);
    hide Ascii, LE, FromLE;
  }

  lemma SignedDigest(sha: Sha256, unsigned: bytes)
    ensures DigestOk(sha, unsigned + sha(unsigned))
  {
    var blob := unsigned + sha(unsigned);
    assert blob[..|blob| - 32] == unsigned;
  }

  lemma EncodedEnvelope(sha: Sha256, h: Helper)
    requires Encodable(h) && SlotNames(h.slots) && |h.slots| <= 14
    ensures var blob := Encode(sha, h);
      && EnvelopeOk(sha, blob) && BodyOf(blob) == Payload(h) && WordOf(blob) == h.checkWord
  {
    hide Framed, LengthOk, MagicOk, DigestOk, BodyOf, WordOf, SlotNames, IsWritableName;
    SlotsSize(h.slots);
    FramedParts(Payload(h), h.checkWord, sha(Unsigned(h)));
    SignedDigest(sha, Unsigned(h));
  }

  lemma SlotsRoundTrip(slots: seq<HelperSlot>)
    requires WritableNames(slots)
    ensures TailBytes(slots, 0) == SlotsBytes(slots)
  {
    TailCompletes(slots, 0);
    assert slots[..0] == [];
    assert SlotsBytes(slots[..0]) == [];
  }

  lemma ParsePayload(h: Helper)
    requires WellFormed(h) && Encodable(h) && SlotNames(h.slots)
    ensures ParseBody(Payload(h), h.checkWord) == Ok(h)
  {
    hide SlotsInOrder, Allowed, HasHardStore, SlotBytes, IsSlotName, ParseSlots, TailBytes, SlotsBytes;
    assert Payload(h)[8..] == SlotsBytes(h.slots);
    SlotsRoundTrip(h.slots);
    assert h.slots[..0] == [];
    ParseEncodedSlots(h.slots, 0, h.normVersion);
  }

  lemma PayloadOfParse(body: bytes, cw: bytes)
    requires |body| >= 8 && |cw| == 32 && ParseBody(body, cw).Ok?
    ensures var h := ParseBody(body, cw).value;
      WellFormed(h) && Encodable(h) && SlotNames(h.slots) && Payload(h) == body && h.checkWord == cw
  {
    hide SlotsInOrder, Allowed, HasHardStore, SlotBytes, IsSlotName, ParseSlots, TailBytes, SlotsBytes;
    var h := ParseBody(body, cw).value;
    EmptyInOrder(body[1]);
    ParsedSlotsEncode(body[8..], body[3], [], body[1]);
    SlotNamesWritable(h.slots);
    SlotsRoundTrip(h.slots);
    WellFormedEncodable(h);
    assert body == body[..8] + body[8..];
  }

  /** Every well-formed helper is read back from its own encoding. */
  lemma ParseOfEncode(sha: Sha256, h: Helper)
    requires WellFormed(h)
    ensures Encodable(h) && Parse(sha, Encode(sha, h)) == Ok(h)
  {
    WellFormedEncodable(h);
    EncodedEnvelope(sha, h);
    hide Encode, LengthOk, MagicOk, DigestOk, BodyOf, WordOf, WellFormed, Encodable, Payload, ParseBody,
      PayloadLength;
    ParsePayload(h);
  }

  lemma Rejoin(blob: bytes)
    requires LengthOk(blob)
    ensures blob[..8] + blob[8..12] + BodyOf(blob) + WordOf(blob) == blob[..|blob| - 32]
    ensures blob == blob[..|blob| - 32] + blob[|blob| - 32..]
  {
    hide PayloadLength;
  }

  lemma LengthField(blob: bytes)
    requires LengthOk(blob)
    ensures LE(PayloadLength(blob), 4) == blob[8..12]
  {
    hide LE;
    FromLEInverse(blob[8..12]);
  }

  lemma UnsignedPart(blob: bytes, h: Helper)
    requires LengthOk(blob) && MagicOk(blob) && Encodable(h)
    requires Payload(h) == BodyOf(blob) && h.checkWord == WordOf(blob)
    ensures Unsigned(h) == blob[..|blob| - 32]
  {
    hide Encodable, Payload, Ascii, HELPER_MAGIC, LE, BodyOf, WordOf, PayloadLength, LengthOk;
    LengthField(blob);
    Rejoin(blob);
  }

  lemma Reassembled(sha: Sha256, blob: bytes, h: Helper)
    requires |blob| >= 32 && DigestOk(sha, blob) && Encodable(h)
    requires Unsigned(h) == blob[..|blob| - 32]
    ensures Encode(sha, h) == blob
  {
    hide Encodable, Unsigned;
    assert blob == blob[..|blob| - 32] + blob[|blob| - 32..];
  }

  /** Every accepted blob is the encoding of the helper it parses to: one encoding per helper. */
  lemma EncodeOfParse(sha: Sha256, blob: bytes)
    requires Parse(sha, blob).Ok?
    ensures var h := Parse(sha, blob).value;
      WellFormed(h) && Encodable(h) && SlotNames(h.slots) && Encode(sha, h) == blob
  {
    hide WellFormed, Encodable, SlotNames, Payload, ParseBody, Encode, MagicOk, DigestOk, BodyOf, WordOf,
      PayloadLength, Unsigned;
    var h := Parse(sha, blob).value;
    PayloadOfParse(BodyOf(blob), WordOf(blob));
    UnsignedPart(blob, h);
    Reassembled(sha, blob, h);
  }

  lemma EmptyInOrder(norm: int)
    ensures SlotsInOrder([], norm) && SlotNames([])
  {
  }

  /** Where an accepted blob keeps what parse_helper reads from it. */
  lemma BlobLayout(sha: Sha256, blob: bytes)
    requires Parse(sha, blob).Ok?
    ensures var h, n := Parse(sha, blob).value, |blob|;
      && WritableNames(h.slots) && 84 <= n <= 4096 && FromLE(blob[8..12]) == n - 76
      && blob[12] == 1 && blob[13] == h.normVersion && blob[14] == h.salt && blob[15] == |h.slots|
      && blob[16] == MandatoryCount(h.slots) && blob[17] == h.threshold && blob[18] == blob[19] == 0
      && blob[20..n - 64] == SlotsBytes(h.slots)
      && blob[n - 64..n - 32] == h.checkWord && blob[n - 32..] == sha(blob[..n - 32])
  {
    EncodeOfParse(sha, blob);
    hide WellFormed, Encodable, SlotNames, Encode, MandatoryCount, MagicOk, SlotsBytes;
    var body := BodyOf(blob);
    PayloadOfParse(body, WordOf(blob));
    hide ParseBody;
    assert forall i :: 0 <= i < |body| ==> body[i] == blob[12 + i];
    assert blob[20..|blob| - 64] == body[8..];
    assert Payload(Parse(sha, blob).value)[8..] == SlotsBytes(Parse(sha, blob).value.slots);
  }

  /** Where the bytes of a slot keep its name, its flag and the limbs of its share. */
  lemma SlotLayout(s: HelperSlot)
    requires IsWritableName(s.name)
    ensures var b, n := SlotBytes(s), |s.name|;
      && |b| == n + 34 && b[0] == n && Decode(b[1..1 + n]) == Ok(s.name)
      && (b[1 + n] == 1 <==> s.mandatory) && (b[1 + n] == 0 <==> !s.mandatory)
      && forall l :: 0 <= l < 4 ==> RawLimb(b, 2 + n, l) == s.share[l]
  {
    var front := [|s.name|] + Ascii(s.name) + [if s.mandatory then 1 else 0];
    KeyLength(s.share);
    LimbsOfKey(s.share, front, []);
    DecodeAscii(s.name);
    hide RawLimb, KeyBytes, Decode;
    assert SlotBytes(s) == front + KeyBytes(s.share) + [];
    assert SlotBytes(s)[1..1 + |s.name|] == Ascii(s.name);
  }

  /**
   The integrity digest covers every byte: whatever differs from an accepted blob in its digest alone, or
   keeps its digest without colliding with it, is rejected as corrupt.
   */
  lemma TamperingIsDetected(sha: Sha256, blob: bytes, other: bytes)
    requires Parse(sha, blob).Ok? && |other| >= 32 && other != blob
    requires var a, b := blob[..|blob| - 32], other[..|other| - 32];
      a == b || (blob[|blob| - 32..] == other[|other| - 32..] && sha(a) != sha(b))
    ensures Parse(sha, other) == Err(CorruptHelperError)
  {
    hide MagicOk, ParseBody, BodyOf, WordOf;
    assert blob == blob[..|blob| - 32] + blob[|blob| - 32..];
    assert other == other[..|other| - 32] + other[|other| - 32..];
  }

  /** parse_helper accepts exactly the encodings of well-formed helpers. */
  lemma AcceptedBlobs(sha: Sha256, blob: bytes)
    ensures Parse(sha, blob).Ok? <==> exists h :: WellFormed(h) && Encodable(h) && Encode(sha, h) == blob
  {
    hide WellFormed, Encodable, Encode, Parse;
    if Parse(sha, blob).Ok? {
      EncodeOfParse(sha, blob);
    }
    if exists h :: WellFormed(h) && Encodable(h) && Encode(sha, h) == blob {
      var h :| WellFormed(h) && Encodable(h) && Encode(sha, h) == blob;
      ParseOfEncode(sha, h);
    }
  }

  // ---------------------------------------------------------------- rejected blobs

  /** The bytes start with a slot whose lengths are sound and whose name holds a byte that is not ASCII. */
  predicate UndecodableHead(tail: bytes) {
    && |tail| >= 1
    && var n: nat := tail[0];
    && n != 0 && |tail| >= 1 + n + 1 + 32
    && exists i :: 1 <= i < 1 + n && tail[i] >= 128
  }

  lemma UndecodableSlot(rest: bytes, norm: int, seen: set<string>, previous: string)
    ensures ParseSlot(rest, norm, seen, previous) == Err(UnicodeDecodeError) <==> UndecodableHead(rest)
    ensures var r := ParseSlot(rest, norm, seen, previous);
      r.Err? ==> r.error == CorruptHelperError || r.error == UnicodeDecodeError
  {
    hide Allowed, Less, RawLimb;
    if |rest| >= 1 {
      var n: nat := rest[0];
      if n != 0 && |rest| >= 1 + n + 1 + 32 {
        var name := rest[1..1 + n];
        assert forall i :: 0 <= i < n ==> name[i] == rest[i + 1];
        assert forall i :: 1 <= i < 1 + n ==> rest[i] == name[i - 1];
      }
    }
  }

  /** The slots before an undecodable name are in order and parse. */
  ghost predicate ReachesUndecodable(body: bytes, good: seq<HelperSlot>, tail: bytes)
    requires |body| >= 8
  {
    && |good| < body[3] && SlotNames(good) && SlotsInOrder(good, body[1]) && WritableNames(good)
    && body[8..] == SlotsBytes(good) + tail && UndecodableHead(tail)
  }

  lemma {:induction false} EscapeIsReached(rest: bytes, n: nat, done: seq<HelperSlot>, norm: int)
    returns (good: seq<HelperSlot>, tail: bytes)
    requires SlotNames(done) && SlotsInOrder(done, norm)
    requires ParseSlots(rest, n, done, norm) == Err(UnicodeDecodeError)
    ensures |done| <= |good| < |done| + n && good[..|done|] == done
    ensures SlotNames(good) && SlotsInOrder(good, norm) && WritableNames(good)
    ensures rest == TailBytes(good, |done|) + tail && UndecodableHead(tail)
    decreases n
  {
    hide ParseSlot, SlotBytes, SlotsInOrder, Allowed, Less, IsSlotName, IsWritableName, UndecodableHead;
    UndecodableSlot(rest, norm, Names(done), LastName(done));
    if UndecodableHead(rest) {
      good, tail := done, rest;
      SlotNamesWritable(done);
    } else {
      var p := ParseSlot(rest, norm, Names(done), LastName(done)).value;
      ParsedSlotEncodes(rest, norm, Names(done), LastName(done));
      if done != [] { LastNameIsName(done); }
      OrderExtends(done, p.slot, norm);
      good, tail := EscapeIsReached(p.rest, n - 1, done + [p.slot], norm);
      assert good[..|done| + 1][..|done|] == good[..|done|];
      assert good[|done|] == p.slot;
    }
  }

  lemma {:induction false} EscapeIsRaised(good: seq<HelperSlot>, tail: bytes, i: nat, n: nat, norm: int)
    requires i <= |good| < i + n && SlotNames(good) && SlotsInOrder(good, norm) && WritableNames(good)
    requires UndecodableHead(tail)
    ensures ParseSlots(TailBytes(good, i) + tail, n, good[..i], norm) == Err(UnicodeDecodeError)
    decreases n
  {
    hide ParseSlot, SlotBytes, SlotsInOrder, Allowed, Less, IsSlotName, IsWritableName, UndecodableHead;
    var done := good[..i];
    if i == |good| {
      assert TailBytes(good, i) + tail == tail;
      UndecodableSlot(tail, norm, Names(done), LastName(done));
    } else {
      var s := good[i];
      assert good[..i + 1] == done + [s];
      PrefixInOrder(good, i, norm);
      PrefixInOrder(good, i + 1, norm);
      assert s.name in Allowed(norm) by { NameAllowed(good, i, norm); }
      OrderExtends(done, s, norm);
      ParseEncodedSlot(s, TailBytes(good, i + 1) + tail, norm, Names(done), LastName(done));
      assert TailBytes(good, i) + tail == SlotBytes(s) + (TailBytes(good, i + 1) + tail);
      EscapeIsRaised(good, tail, i + 1, n - 1, norm);
    }
  }

  lemma {:induction false} ParseSlotsErrors(rest: bytes, n: nat, done: seq<HelperSlot>, norm: int)
    ensures var r := ParseSlots(rest, n, done, norm);
      r.Err? ==> r.error == CorruptHelperError || r.error == UnicodeDecodeError
    decreases n
  {
    hide ParseSlot, Names, LastName, UndecodableHead;
    if n > 0 {
      UndecodableSlot(rest, norm, Names(done), LastName(done));
      var p := ParseSlot(rest, norm, Names(done), LastName(done));
      if p.Ok? { ParseSlotsErrors(p.value.rest, n - 1, done + [p.value.slot], norm); }
    }
  }

  lemma BodyEscapes(body: bytes)
    requires |body| >= 8
    ensures ParseSlots(body[8..], body[3], [], body[1]) == Err(UnicodeDecodeError)
       <==> exists good, tail :: ReachesUndecodable(body, good, tail)
  {
    hide ParseSlots, SlotsInOrder, IsSlotName, IsWritableName, UndecodableHead, SlotsBytes, TailBytes;
    EmptyInOrder(body[1]);
    if ParseSlots(body[8..], body[3], [], body[1]) == Err(UnicodeDecodeError) {
      var good, tail := EscapeIsReached(body[8..], body[3], [], body[1]);
      SlotsRoundTrip(good);
      assert ReachesUndecodable(body, good, tail);
    }
    if good, tail :| ReachesUndecodable(body, good, tail) {
      SlotsRoundTrip(good);
      assert good[..0] == [];
      EscapeIsRaised(good, tail, 0, body[3], body[1]);
    }
  }

  /**
   A rejected helper is reported as corrupt, except that UnicodeDecodeError escapes exactly when the
   envelope and the header are sound and the slots in order before some slot are followed by a name
   with a byte that is not ASCII.
   */
  lemma ParseErrors(sha: Sha256, blob: bytes)
    ensures var r := Parse(sha, blob); r.Err? ==> r.error == CorruptHelperError || r.error == UnicodeDecodeError
    ensures Parse(sha, blob) == Err(UnicodeDecodeError) <==>
      && EnvelopeOk(sha, blob) && LengthOk(blob) && HeaderOk(BodyOf(blob))
      && exists good, tail :: ReachesUndecodable(BodyOf(blob), good, tail)
  {
    hide HeaderOk, MagicOk, DigestOk, WordOf, BodyOf, PayloadLength, MandatoryCount, HasHardStore, Allowed,
      ParseSlots, ReachesUndecodable;
    if EnvelopeOk(sha, blob) && HeaderOk(BodyOf(blob)) {
      var body := BodyOf(blob);
      ParseSlotsErrors(body[8..], body[3], [], body[1]);
      BodyEscapes(body);
    }
  }

  /** Two slots announced, of which the first has the one-byte name 0x80. */
  function UndecodableBody(): (body: bytes)
    ensures |body| == 43
  {
    [1, 2, 0, 2, 1, 2, 0, 0] + [1, 128] + seq(33, _ => 0)
  }

  function UndecodableBlob(sha: Sha256): bytes {
    var unsigned := Framed(UndecodableBody(), seq(32, _ => 0));
    unsigned + sha(unsigned)
  }

  /** A blob with a sound digest whose rejection escapes, whatever the hash. */
  lemma UndecodableBlobEscapes(sha: Sha256)
    ensures Parse(sha, UndecodableBlob(sha)) == Err(UnicodeDecodeError)
  {
    hide BodyOf, WordOf, Framed, LengthOk, MagicOk, DigestOk, ParseSlots, ReachesUndecodable, Allowed;
    var body := UndecodableBody();
    var cw := seq(32, _ => 0);
    FramedParts(body, cw, sha(Framed(body, cw)));
    SignedDigest(sha, Framed(body, cw));
    UndecodableHeader();
    BodyEscapes(body);
    UndecodableIsReached();
  }

  lemma UndecodableHeader()
    ensures HeaderOk(UndecodableBody())
  {
    CurrentNamesAtLeastTwo();
    hide Allowed;
  }

  lemma CurrentNamesAtLeastTwo()
    ensures |Allowed(CURRENT_NORM_VERSION)| >= 2
  {
    var two := {"slstore", "cpu_id"};
    var rest := Allowed(CURRENT_NORM_VERSION) - two;
    assert two <= Allowed(CURRENT_NORM_VERSION);
    assert Allowed(CURRENT_NORM_VERSION) == two + rest;
    hide Allowed;
    assert |two + rest| == |two| + |rest|;
  }

  lemma UndecodableIsReached()
    ensures ReachesUndecodable(UndecodableBody(), [], UndecodableBody()[8..])
  {
    var tail := UndecodableBody()[8..];
    assert tail[0] == 1 && tail[1] == 128 && |tail| == 35;
  }

  /** parse_helper's loop over the slots. */
  method ParseSlotLoop(data: bytes, n: nat, norm: int) returns (r: Result<seq<HelperSlot>>)
    ensures r == ParseSlots(data, n, [], norm)
  {
    hide ParseSlot, Allowed;
    var slots: seq<HelperSlot> := [];
    var rest := data;
    for i := 0 to n
      invariant ParseSlots(data, n, [], norm) == ParseSlots(rest, n - i, slots, norm)
    {
      var p := ParseSlot(rest, norm, Names(slots), LastName(slots));
      if p.Err? { return Err(p.error); }
      slots := slots + [p.value.slot];
      rest := p.value.rest;
    }
    if |rest| > 0 { return Err(CorruptHelperError); }
    return Ok(slots);
  }

  method ParseHelper(sha: Sha256, blob: bytes) returns (r: Result<Helper>)
    ensures r == Parse(sha, blob)
  {
    hide EnvelopeOk, LengthOk, HeaderOk, BodyOf, WordOf, MandatoryCount, HasHardStore;
    if !EnvelopeOk(sha, blob) { return Err(CorruptHelperError); }
    EnvelopeHasLength(sha, blob);
    var body, cw := BodyOf(blob), WordOf(blob);
    if !HeaderOk(body) { return Err(CorruptHelperError); }
    var slots := ParseSlotLoop(body[8..], body[3], body[1]);
    if slots.Err? { return Err(slots.error); }
    if MandatoryCount(slots.value) != body[4] { return Err(CorruptHelperError); }
    if !HasHardStore(slots.value) { return Err(CorruptHelperError); }
    return Ok(Helper(body[1], body[2], body[5], slots.value, cw));
  }

  lemma EnvelopeHasLength(sha: Sha256, blob: bytes)
    requires EnvelopeOk(sha, blob)
    ensures LengthOk(blob)
  {
  }

  // ---------------------------------------------------------------- helpers from shares

  function SlotsFor(names: seq<string>, shares: map<string, Key>, mandatory: set<string>): (slots: seq<HelperSlot>)
    requires forall i :: 0 <= i < |names| ==> names[i] in shares
    ensures |slots| == |names|
  {
    seq(|names|, i requires 0 <= i < |names| => HelperSlot(names[i], names[i] in mandatory, shares[names[i]]))
  }

  /** The helper that serialize_helper writes. */
  function HelperOf(shares: map<string, Key>, mandatory: set<string>, t: byte, salt: byte, cw: bytes,
                    norm: byte): Helper {
    Helper(norm, salt, t, SlotsFor(Sorted(shares.Keys), shares, mandatory), cw)
  }

  /** serialize_helper's loops over the sorted names. */
  method SerializeSlots(slots: seq<HelperSlot>) returns (count: nat, encoded: bytes)
    requires WritableNames(slots)
    ensures count == MandatoryCount(slots) && encoded == SlotsBytes(slots)
  {
    hide SlotBytes, IsWritableName;
    count, encoded := 0, [];
    for i := 0 to |slots|
      invariant count == MandatoryCount(slots[..i]) && encoded == SlotsBytes(slots[..i])
    {
      assert slots[..i + 1][..i] == slots[..i];
      if slots[i].mandatory { count := count + 1; }
      encoded := encoded + SlotBytes(slots[i]);
    }
    assert slots[..|slots|] == slots;
  }

  method SerializePayload(h: Helper) returns (payload: bytes)
    requires Encodable(h)
    ensures payload == Payload(h)
  {
    hide WritableNames, SlotsBytes, MandatoryCount;
    var count, encoded := SerializeSlots(h.slots);
    payload := [1, h.normVersion, h.salt, |h.slots|, count, h.threshold, 0, 0] + encoded;
  }

  method SerializeHelper(sha: Sha256, shares: map<string, Key>, mandatory: set<string>, t: byte, salt: byte, cw: bytes,
                         norm: byte) returns (blob: bytes)
    requires Encodable(HelperOf(shares, mandatory, t, salt, cw, norm))
    ensures blob == Encode(sha, HelperOf(shares, mandatory, t, salt, cw, norm))
  {
    hide Framed, Payload, Encodable, HelperOf;
    var h := HelperOf(shares, mandatory, t, salt, cw, norm);
    var payload := SerializePayload(h);
    blob := Framed(payload, h.checkWord);
    blob := blob + sha(blob);
  }

  /** The hard-locked slot names. */
  function MandatoryNames(slots: seq<HelperSlot>): set<string> {
    if slots == [] then {} else
      var last := slots[|slots| - 1];
      MandatoryNames(slots[..|slots| - 1]) + if last.mandatory then {last.name} else {}
  }

  lemma {:induction false} MandatoryNamesAre(slots: seq<HelperSlot>)
    ensures forall a ::
      a in MandatoryNames(slots) <==> exists i :: 0 <= i < |slots| && slots[i].mandatory && slots[i].name == a
  {
    if slots != [] {
      var n := |slots| - 1;
      MandatoryNamesAre(slots[..n]);
      forall a
        ensures a in MandatoryNames(slots) <==> exists i :: 0 <= i < |slots| && slots[i].mandatory && slots[i].name == a
      {
        if a in MandatoryNames(slots[..n]) {
          var i :| 0 <= i < n && slots[..n][i].mandatory && slots[..n][i].name == a;
          assert slots[i] == slots[..n][i];
        }
        if exists i :: 0 <= i < |slots| && slots[i].mandatory && slots[i].name == a {
          var i :| 0 <= i < |slots| && slots[i].mandatory && slots[i].name == a;
          assert i < n ==> slots[..n][i] == slots[i];
        }
      }
    }
  }

  /** In an ordered helper the count of hard-locked slots is the number of their names. */
  lemma {:induction false} CountsNames(slots: seq<HelperSlot>, norm: int)
    requires SlotsInOrder(slots, norm)
    ensures MandatoryCount(slots) == |MandatoryNames(slots)|
  {
    hide Allowed, Less, SlotsInOrder;
    if slots != [] {
      var n := |slots| - 1;
      var front, last := slots[..n], slots[n];
      PrefixInOrder(slots, n, norm);
      CountsNames(front, norm);
      assert slots == front + [last];
      NameAllowed(slots, n, norm);
      OrderExtends(front, last, norm);
      MandatoryNamesAre(front);
      assert last.name !in MandatoryNames(front);
    }
  }
}
