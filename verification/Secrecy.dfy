/** What a stored helper tells about the key and its identifier (core.py:119-142, 309-332). */
module Secrecy {
  import opened Bytes
  import opened Field
  import opened Polynomials
  import opened Sharing
  import opened Factors
  import opened HelperBlob
  import opened Refresh
  import opened Lifecycle
  import opened Store
  import opened Runs
  import opened WriteConditions

  // ---------------------------------------------------------------- the shares that are handed out

  /** Some salt tells all slots apart. */
  ghost predicate Separable(sha: Sha256, slots: seq<Slot>)
    requires AsciiSlots(slots)
  {
    exists salt: byte :: salt < 255 && SaltSeparates(sha, slots, salt)
  }

  lemma SeparableIsFound(sha: Sha256, slots: seq<Slot>)
    requires AsciiSlots(slots)
    ensures Separable(sha, slots) <==> FirstSalt(sha, slots, 0).Some?
    ensures FirstSalt(sha, slots, 0).Some? ==>
      FirstSalt(sha, slots, 0).value < 255 && SaltSeparates(sha, slots, FirstSalt(sha, slots, 0).value)
  {
    hide SaltSeparates, FirstSalt;
    FirstSaltIsFirst(sha, slots, 0);
  }

  /** The indices are of t - 1 different slots, and one share is wanted for each. */
  predicate Wanted(slots: seq<Slot>, t: nat, who: seq<nat>, targets: seq<Key>) {
    && t >= 1 && |who| == |targets| == t - 1
    && (forall i :: 0 <= i < |who| ==> who[i] < |slots|)
    && (forall i, j :: 0 <= i < j < |who| ==> who[i] != who[j])
  }

  /** The slots of the given indices hold the wanted shares. */
  predicate HandsOut(values: map<string, Key>, slots: seq<Slot>, who: seq<nat>, targets: seq<Key>)
    requires |who| == |targets| && forall i :: 0 <= i < |who| ==> who[i] < |slots|
  {
    forall i :: 0 <= i < |who| ==> slots[who[i]].name in values && values[slots[who[i]].name] == targets[i]
  }

  function PickedXs(sha: Sha256, slots: seq<Slot>, salt: byte, who: seq<nat>): (xs: seq<Elem>)
    requires AsciiSlots(slots) && forall i :: 0 <= i < |who| ==> who[i] < |slots|
    ensures |xs| == |who|
  {
    seq(|who|, i requires 0 <= i < |who| => XsOf(sha, slots, salt)[who[i]])
  }

  lemma PickedXsDiffer(sha: Sha256, slots: seq<Slot>, salt: byte, t: nat, who: seq<nat>, targets: seq<Key>)
    requires AsciiSlots(slots) && SaltSeparates(sha, slots, salt) && Wanted(slots, t, who, targets)
    ensures Distinct(PickedXs(sha, slots, salt, who)) && 0 !in PickedXs(sha, slots, salt, who)
  {
    hide DeriveX;
    var all, xs := XsOf(sha, slots, salt), PickedXs(sha, slots, salt, who);
    forall i, j | 0 <= i < j < |xs| ensures xs[i] != xs[j] {
      assert xs[i] == all[who[i]] && xs[j] == all[who[j]];
    }
    forall i | 0 <= i < |xs| ensures xs[i] != 0 {
      assert all[who[i]] in all;
    }
  }

  lemma ProducedIsHandedOut(sha: Sha256, slots: seq<Slot>, curves: seq<seq<Elem>>, salt: byte, t: nat, who: seq<nat>,
                            targets: seq<Key>)
    requires AsciiSlots(slots) && DistinctNames(slots) && |curves| == 4 && Wanted(slots, t, who, targets)
    ensures HandsOut(ShareMap(sha, slots, curves, salt), slots, who, targets)
      <==> forall i :: 0 <= i < |who| ==> ShareAt(curves, PickedXs(sha, slots, salt, who)[i]) == targets[i]
  {
    hide ShareMap, ShareAt, DeriveX, DistinctNames;
    forall i | 0 <= i < |who|
      ensures slots[who[i]].name in ShareMap(sha, slots, curves, salt)
      ensures ShareMap(sha, slots, curves, salt)[slots[who[i]].name]
        == ShareAt(curves, PickedXs(sha, slots, salt, who)[i])
    {
      ShareOfSlot(sha, slots, curves, salt, who[i]);
      assert PickedXs(sha, slots, salt, who)[i] == XsOf(sha, slots, salt)[who[i]];
    }
  }

  lemma DrawsAfter(front: bytes, data: bytes, n: nat)
    requires |data| == 8 * n
    ensures Enough(front + data, |front|, n) && Enough(data, 0, n)
    ensures Draws(front + data, |front|, n) == Draws(data, 0, n)
  {
    forall i | 0 <= i < n ensures DrawnElem(front + data, |front| + 8 * i) == DrawnElem(data, 8 * i) {
      assert (front + data)[|front| + 8 * i..|front| + 8 * i + 8] == data[8 * i..8 * i + 8];
    }
  }

  /**
   The shares themselves hide the key: for every key, any t - 1 slots and any shares wanted for them there
   is a byte source under which build_shares hands out exactly those shares, wherever it reads from.
   */
  lemma SharesHideKey(sha: Sha256, k: Key, slots: seq<Slot>, t: nat, who: seq<nat>, targets: seq<Key>, front: bytes)
    returns (data: bytes)
    requires AsciiSlots(slots) && DistinctNames(slots) && Separable(sha, slots) && Wanted(slots, t, who, targets)
    ensures |data| == 32 * (t - 1)
    ensures var r := SharesOf(sha, k, slots, t, front + data, |front|);
      r.Ok? && HandsOut(r.value.values, slots, who, targets)
  {
    hide SaltSeparates, ShareMap, DistinctNames, Draws, CurvesOf, HandsOut, FirstSalt, Separable, PickedXs, Distinct,
      ShareAt;
    SeparableIsFound(sha, slots);
    var salt := FirstSalt(sha, slots, 0).value;
    var xs, n := PickedXs(sha, slots, salt, who), 4 * (t - 1);
    PickedXsDiffer(sha, slots, salt, t, who, targets);
    PerfectHiding(k, t, xs, targets);
    data :| |data| == 32 * (t - 1) && Produces(k, Draws(data, 0, n), t, xs, targets);
    DrawsAfter(front, data, n);
    ProducedIsHandedOut(sha, slots, CurvesOf(k, Draws(data, 0, n), t), salt, t, who, targets);
  }

  /** Under one key, two byte sources that hand out the same t - 1 shares draw the same coefficients. */
  lemma SharesFixCoefficients(sha: Sha256, k: Key, slots: seq<Slot>, t: nat, who: seq<nat>, targets: seq<Key>,
                              data: bytes, pos: nat, other: bytes, at: nat)
    requires AsciiSlots(slots) && DistinctNames(slots) && Wanted(slots, t, who, targets)
    requires var r := SharesOf(sha, k, slots, t, data, pos); r.Ok? && HandsOut(r.value.values, slots, who, targets)
    requires var r := SharesOf(sha, k, slots, t, other, at); r.Ok? && HandsOut(r.value.values, slots, who, targets)
    ensures Enough(data, pos, 4 * (t - 1)) && Enough(other, at, 4 * (t - 1))
    ensures Draws(data, pos, 4 * (t - 1)) == Draws(other, at, 4 * (t - 1))
  {
    hide SaltSeparates, ShareMap, DistinctNames, Draws, Enough, CurvesOf, HandsOut, FirstSalt, PickedXs, Distinct,
      ShareAt;
    SeparableIsFound(sha, slots);
    var salt := FirstSalt(sha, slots, 0).value;
    var xs, n := PickedXs(sha, slots, salt, who), 4 * (t - 1);
    PickedXsDiffer(sha, slots, salt, t, who, targets);
    PerfectHiding(k, t, xs, targets);
    ProducedIsHandedOut(sha, slots, CurvesOf(k, Draws(data, pos, n), t), salt, t, who, targets);
    ProducedIsHandedOut(sha, slots, CurvesOf(k, Draws(other, at, n), t), salt, t, who, targets);
  }

  // ---------------------------------------------------------------- the helper that is stored

  /** The helper stores the share for the slot of the given name. */
  ghost predicate Stores(h: Helper, name: string, share: Key) {
    exists j :: 0 <= j < |h.slots| && h.slots[j].name == name && h.slots[j].share == share
  }

  predicate DifferentNames(names: seq<string>) {
    forall i, j :: 0 <= i < j < |names| ==> names[i] != names[j]
  }

  /** Where the named factors stand in the slot list. */
  lemma IndicesOf(factors: Raw, mandatory: set<string>, names: seq<string>) returns (who: seq<nat>)
    requires forall i :: 0 <= i < |names| ==> names[i] in factors
    ensures |who| == |names| && forall i :: 0 <= i < |names| ==> who[i] < |factors|
    ensures forall i :: 0 <= i < |names| ==> SlotList(factors, mandatory)[who[i]].name == names[i]
  {
    hide SlotList;
    who := [];
    for i := 0 to |names|
      invariant |who| == i
      invariant forall j :: 0 <= j < i ==> who[j] < |factors| && SlotList(factors, mandatory)[who[j]].name == names[j]
    {
      var w := SlotOfName(factors, mandatory, names[i]);
      who := who + [w];
    }
  }

  lemma KeyIsDrawn(k: Key, data: bytes)
    ensures Enough(SourceOf(k) + data, 0, 4) && Draws(SourceOf(k) + data, 0, 4) == k
  {
    var front := SourceOf(k);
    forall i | 0 <= i < 4 ensures DrawnElem(front + data, 8 * i) == k[i] {
      SourceDraws(k, i);
      assert (front + data)[8 * i..8 * i + 8] == front[8 * i..8 * i + 8];
    }
  }

  /** The helper made of handed-out shares stores them. */
  lemma HandedOutIsStored(shares: Shares, factors: Raw, mandatory: set<string>, t: byte, cw: bytes, names: seq<string>,
                          who: seq<nat>, targets: seq<Key>)
    requires |who| == |names| == |targets| && forall i :: 0 <= i < |who| ==> who[i] < |factors|
    requires forall i :: 0 <= i < |names| ==> SlotList(factors, mandatory)[who[i]].name == names[i]
    requires HandsOut(shares.values, SlotList(factors, mandatory), who, targets)
    ensures var h := HelperOf(shares.values, mandatory, t, shares.salt, cw, CURRENT_NORM_VERSION);
      forall i :: 0 <= i < |names| ==> Stores(h, names[i], targets[i])
  {
    hide SlotList, SlotsFor, Sorted;
    var h := HelperOf(shares.values, mandatory, t, shares.salt, cw, CURRENT_NORM_VERSION);
    forall i | 0 <= i < |names| ensures Stores(h, names[i], targets[i]) {
      var j := WrittenSlot(shares.values, mandatory, names[i]);
    }
  }

  /**
   Whatever can be enrolled can be enrolled with any key, and fewer shares than the threshold tell
   nothing about which: for every key, any t - 1 slots and any shares wanted for them, some byte source makes
   enrolment draw exactly that key and store exactly those shares.
   */
  lemma EnrolmentHidesKey(sha: Sha256, factors: Projected, mandatory: set<string>, k: Key, names: seq<string>,
                          targets: seq<Key>)
    returns (data: bytes)
    requires Admissible(factors, mandatory) && exists salt: byte :: salt < 255 && TellsApart(sha, factors, salt)
    requires |names| == |targets| == Needed(|factors|, |mandatory|) - 1 && DifferentNames(names)
    requires forall i :: 0 <= i < |names| ==> names[i] in factors
    ensures |data| == 32 * Needed(|factors|, |mandatory|)
    ensures var e := EnrolmentOf(sha, factors, mandatory, data, 0);
      && e.Ok? && e.value.key == k && e.value.helper.checkWord == CheckWord(sha, k)
      && forall i :: 0 <= i < |names| ==> Stores(e.value.helper, names[i], targets[i])
  {
    hide IsProjected, SlotList, SaltSeparates, TellsApart, Needed, SharesOf, Threshold, LocksPresent, SlotsFor, Sorted,
      CheckWord, Stores, HandsOut, Draws, Enough, SourceOf;
    AdmissibleIsAccepted(factors, mandatory);
    SlotListNames(factors, mandatory);
    var slots, t := SlotList(factors, mandatory), Threshold(|factors|, |mandatory|).value;
    var salt: byte :| salt < 255 && TellsApart(sha, factors, salt);
    TellsApartIsSalt(sha, factors, mandatory, salt);
    var who := IndicesOf(factors, mandatory, names);
    var rest := SharesHideKey(sha, k, slots, t, who, targets, SourceOf(k));
    data := SourceOf(k) + rest;
    KeyIsDrawn(k, rest);
    HandedOutIsStored(SharesOf(sha, k, slots, t, data, 32).value, factors, mandatory, t, CheckWord(sha, k), names, who,
                      targets);
  }

  // ---------------------------------------------------------------- the identifier

  predicate IsKeyInput(b: bytes, k: Key) {
    b == WordInput(k) || b == IdentifierInput(k)
  }

  /** The hash has no collisions among the inputs of check words and identifiers. */
  ghost predicate SeparatesKeyInputs(sha: Sha256) {
    forall k, k', b, c :: IsKeyInput(b, k) && IsKeyInput(c, k') && sha(b) == sha(c) ==> b == c
  }

  /** The identifier determines the key, and is never the check word that is stored in the clear. */
  lemma IdentifierIsSeparate(sha: Sha256, k: Key, k': Key)
    requires SeparatesKeyInputs(sha)
    ensures HwidOf(sha, k) == HwidOf(sha, k') <==> k == k'
    ensures HwidOf(sha, k) != CheckWord(sha, k')
    ensures CheckWord(sha, k) == CheckWord(sha, k') <==> k == k'
  {
    KeyInputsAreSeparated(k, k');
    KeyInputsAreSeparated(k', k);
    hide WordInput, IdentifierInput;
    assert IsKeyInput(WordInput(k), k) && IsKeyInput(IdentifierInput(k), k);
    assert IsKeyInput(WordInput(k'), k') && IsKeyInput(IdentifierInput(k'), k');
  }

  /** Such a hash meets the hypothesis on check words for every key. */
  lemma WordsIdentify(sha: Sha256, k: Key)
    requires SeparatesKeyInputs(sha)
    ensures CheckWordIdentifies(sha, k)
  {
    hide CheckWord, SeparatesKeyInputs;
    forall k': Key | CheckWord(sha, k') == CheckWord(sha, k) ensures k' == k {
      IdentifierIsSeparate(sha, k, k');
    }
  }

  /**
   Whoever reads the helper does not have the identifier: the identifier of a session is neither the check word
   stored with it nor that of any other device, and two sessions have the same identifier exactly if they have
   the same key.
   */
  lemma SessionsTellKeysApart(sha: Sha256, disk: Disk, a: Action, disk': Disk, a': Action)
    requires SeparatesKeyInputs(sha) && a.Prepare? && a'.Prepare?
    requires PrepareStep(sha, disk, a).session.Ok? && PrepareStep(sha, disk', a').session.Ok?
    ensures var p, p' := PrepareStep(sha, disk, a), PrepareStep(sha, disk', a');
      && HelperIntact(sha, p.disk) && HelperIntact(sha, p'.disk)
      && p.session.value.hwid != StoredHelper(sha, p.disk).checkWord
      && p.session.value.hwid != StoredHelper(sha, p'.disk).checkWord
      && (p.session.value.hwid == p'.session.value.hwid <==> p.session.value.key == p'.session.value.key)
  {
    hide PrepareStep, Parse, MapMandatory, MandatoryNames, HwidOf, CheckWord, SeparatesKeyInputs;
    PrepareOutcome(sha, disk, a);
    PrepareOutcome(sha, disk', a');
    var s, s' := PrepareStep(sha, disk, a).session.value, PrepareStep(sha, disk', a').session.value;
    IdentifierIsSeparate(sha, s.key.value, s'.key.value);
    IdentifierIsSeparate(sha, s.key.value, s.key.value);
  }

  // ---------------------------------------------------------------- such a hash exists

  /** Keeps the key, and tells the two purposes apart by a bit that no key uses. */
  function SampleHash(b: bytes): Digest {
    if |b| != 42 then seq(32, _ => 0)
    else if b[0] == 2 then b[10..41] + [if b[41] < 128 then b[41] + 128 else b[41]]
    else b[10..]
  }

  lemma LastByteIsSmall(k: Key)
    ensures |KeyBytes(k)| == 32 && KeyBytes(k)[31] < 128
  {
    assert Pow256(2) == 0x1_0000 && Pow256(3) == 0x100_0000;
    assert Pow256(4) == 0x1_0000_0000 && Pow256(5) == 0x100_0000_0000;
    assert Pow256(6) == 0x1_0000_0000_0000 && Pow256(7) == 0x100_0000_0000_0000;
    assert LE(k[3], 8)[7] == k[3] / Pow256(7) % 256;
  }

  lemma SampleDigests(k: Key)
    ensures SampleHash(WordInput(k)) == KeyBytes(k) && |KeyBytes(k)| == 32 && KeyBytes(k)[31] < 128
    ensures SampleHash(IdentifierInput(k))[31] >= 128 && SampleHash(IdentifierInput(k))[..31] == KeyBytes(k)[..31]
    ensures SampleHash(IdentifierInput(k))[31] == KeyBytes(k)[31] + 128
  {
    LastByteIsSmall(k);
    hide KeyBytes;
    assert WordInput(k)[10..] == KeyBytes(k);
    assert IdentifierInput(k)[10..41] == KeyBytes(k)[..31] && IdentifierInput(k)[41] == KeyBytes(k)[31];
  }

  lemma SampleSeparates()
    ensures SeparatesKeyInputs(SampleHash)
  {
    forall k, k', b, c | IsKeyInput(b, k) && IsKeyInput(c, k') && SampleHash(b) == SampleHash(c) ensures b == c {
      SampleDigests(k);
      SampleDigests(k');
      LastByteIsSmall(k);
      LastByteIsSmall(k');
      SameKeyBytes(k, k', SampleHash(b), b, c);
    }
  }

  lemma SameKeyBytes(k: Key, k': Key, d: bytes, b: bytes, c: bytes)
    requires |KeyBytes(k)| == |KeyBytes(k')| == |d| == 32 && KeyBytes(k)[31] < 128 && KeyBytes(k')[31] < 128
    requires (b == WordInput(k) && d == KeyBytes(k))
      || (b == IdentifierInput(k) && d[..31] == KeyBytes(k)[..31] && d[31] == KeyBytes(k)[31] + 128)
    requires (c == WordInput(k') && d == KeyBytes(k'))
      || (c == IdentifierInput(k') && d[..31] == KeyBytes(k')[..31] && d[31] == KeyBytes(k')[31] + 128)
    ensures b == c
  {
    hide KeyBytes;
    var x, y := KeyBytes(k), KeyBytes(k');
    assert x == x[..31] + [x[31]] && y == y[..31] + [y[31]] && d == d[..31] + [d[31]];
    assert x == y;
  }
}
