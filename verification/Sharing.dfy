/** Splitting a key over the factor slots (core.py:85-161 and 305-332). */
module Sharing {
  import opened Primality
  import opened Wrappers
  import opened Bytes
  import opened Field
  import opened Polynomials
  import opened Interpolation

  /** A key, or one share of it: four field elements. */
  type Key = k: seq<Elem> | |k| == 4 witness [0, 0, 0, 0]

  datatype Slot = Slot(name: string, value: bytes, mandatory: bool)

  datatype Shares = Shares(values: map<string, Key>, salt: byte)

  // ---------------------------------------------------------------- derivation

  /** The bytes hashed into a slot's x-coordinate. */
  function PositionInput(slot: string, value: bytes, salt: byte): bytes
    requires IsAscii(slot)
  {
    Ascii("SL-SS-X1") + [0, salt, 0] + Ascii(slot) + [0] + value
  }

  /** derive_x: a non-zero field element from a slot's name and value. */
  function DeriveX(sha: Sha256, slot: string, value: bytes, salt: byte): (x: Elem)
    requires IsAscii(slot)
    ensures x != 0
  {
    var digest := sha(PositionInput(slot, value, salt));
    var v := FromLE(digest[..8]) % (P + 1);
    1 + v % (P - 1)
  }

  function KeyBytes(k: Key): bytes {
    LE(k[0], 8) + LE(k[1], 8) + LE(k[2], 8) + LE(k[3], 8)
  }

  function WordInput(k: Key): bytes {
    [1] + Ascii("SL-SS-CW1") + KeyBytes(k)
  }

  function IdentifierInput(k: Key): bytes {
    [2] + Ascii("SL-SS-ID1") + KeyBytes(k)
  }

  function CheckWord(sha: Sha256, k: Key): (w: bytes)
    ensures |w| == 32
  {
    sha(WordInput(k))
  }

  /** The digest whose base64url form is transmitted as the device identifier. */
  function HwidOf(sha: Sha256, k: Key): bytes {
    sha(IdentifierInput(k))
  }

  lemma KeyBytesInjective(k: Key, k': Key)
    requires KeyBytes(k) == KeyBytes(k')
    ensures k == k'
  {
    Widths();
    forall l | 0 <= l < 4 ensures k[l] == k'[l] {
      LimbSlice(k, l);
      LimbSlice(k', l);
      LEInverse(k[l], 8);
      LEInverse(k'[l], 8);
    }
  }

  lemma LimbSlice(k: Key, l: nat)
    requires l < 4
    ensures |KeyBytes(k)| == 32 && KeyBytes(k)[8 * l..8 * l + 8] == LE(k[l], 8)
  {
    hide LE;
  }

  lemma JoinedInjective(a: bytes, b: bytes, c: bytes, d: bytes)
    requires |a| == |c| && a + b == c + d
    ensures a == c && b == d
  {
    assert (a + b)[..|a|] == a && (c + d)[..|c|] == c;
    assert (a + b)[|a|..] == b && (c + d)[|c|..] == d;
  }

  /**
   The hashes are separated by purpose: no check word is taken over the input of an identifier,
   and each is taken over an input that determines the key.
   */
  lemma KeyInputsAreSeparated(k: Key, k': Key)
    ensures WordInput(k) != IdentifierInput(k')
    ensures WordInput(k) == WordInput(k') ==> k == k'
    ensures IdentifierInput(k) == IdentifierInput(k') ==> k == k'
  {
    hide KeyBytes;
    assert WordInput(k)[0] == 1 && IdentifierInput(k')[0] == 2;
    if WordInput(k) == WordInput(k') {
      JoinedInjective([1] + Ascii("SL-SS-CW1"), KeyBytes(k), [1] + Ascii("SL-SS-CW1"), KeyBytes(k'));
      KeyBytesInjective(k, k');
    }
    if IdentifierInput(k) == IdentifierInput(k') {
      JoinedInjective([2] + Ascii("SL-SS-ID1"), KeyBytes(k), [2] + Ascii("SL-SS-ID1"), KeyBytes(k'));
      KeyBytesInjective(k, k');
    }
  }

  /** The input of an x-coordinate determines the salt, the slot and its value. */
  lemma PositionInputInjective(slot: string, value: bytes, salt: byte, slot': string, value': bytes, salt': byte)
    requires IsAscii(slot) && IsAscii(slot') && 0 !in Ascii(slot) && 0 !in Ascii(slot')
    requires PositionInput(slot, value, salt) == PositionInput(slot', value', salt')
    ensures salt == salt' && slot == slot' && value == value'
  {
    var tag := Ascii("SL-SS-X1");
    var rest, rest' := Ascii(slot) + [0] + value, Ascii(slot') + [0] + value';
    assert PositionInput(slot, value, salt) == (tag + [0, salt, 0]) + rest;
    assert PositionInput(slot', value', salt') == (tag + [0, salt', 0]) + rest';
    hide Ascii;
    JoinedInjective(tag + [0, salt, 0], rest, tag + [0, salt', 0], rest');
    JoinedInjective(tag, [0, salt, 0], tag, [0, salt', 0]);
    assert [0, salt, 0][1] == [0, salt', 0][1];
    SplitAtNul(Ascii(slot), Ascii(slot'), value, value');
    DecodeAscii(slot);
    DecodeAscii(slot');
  }

  /** A digest that puts x first. */
  function DigestFor(x: Elem): Digest
    requires x != 0
  {
    LE(x - 1, 8) + seq(24, _ => 0)
  }

  lemma DigestForIsX(sha: Sha256, slot: string, value: bytes, salt: byte, x: Elem)
    requires IsAscii(slot) && x != 0 && sha(PositionInput(slot, value, salt)) == DigestFor(x)
    ensures DeriveX(sha, slot, value, salt) == x
  {
    Widths();
    LEInverse(x - 1, 8);
    assert DigestFor(x)[..8] == LE(x - 1, 8);
  }

  /**
   Nothing about an x-coordinate is fixed before the slot's value is known: for slots that differ in name, value or
   salt there is, for any two non-zero elements, a hash under which these are their x-coordinates.
   */
  lemma PositionsAreFree(slot: string, value: bytes, salt: byte, slot': string, value': bytes, salt': byte, x: Elem,
                         y: Elem)
    returns (sha: Sha256)
    requires IsAscii(slot) && IsAscii(slot') && 0 !in Ascii(slot) && 0 !in Ascii(slot') && x != 0 && y != 0
    requires slot != slot' || value != value' || salt != salt'
    ensures DeriveX(sha, slot, value, salt) == x && DeriveX(sha, slot', value', salt') == y
  {
    var a, b := PositionInput(slot, value, salt), PositionInput(slot', value', salt');
    if a == b { PositionInputInjective(slot, value, salt, slot', value', salt'); }
    hide PositionInput;
    sha := input => if input == a then DigestFor(x) else DigestFor(y);
    DigestForIsX(sha, slot, value, salt, x);
    DigestForIsX(sha, slot', value', salt', y);
  }

  /** No other key has this key's check word. */
  ghost predicate CheckWordIdentifies(sha: Sha256, k: Key) {
    forall k': Key :: CheckWord(sha, k') == CheckWord(sha, k) ==> k' == k
  }

  // ---------------------------------------------------------------- threshold

  const MINIMUM_FACTORS := 8

  function Max(a: int, b: int): int { if a >= b then a else b }

  function Min(a: int, b: int): int { if a <= b then a else b }

  function Threshold(n: nat, m: nat): (r: Result<nat>)
    ensures r.Ok? <==> MINIMUM_FACTORS <= n && m < n
    ensures r.Err? ==> r.error == SsError
  {
    if n < MINIMUM_FACTORS then Err(SsError)
    else if m >= n then Err(SsError)
    else
      var num, den := if n < 8 then 4 else 7, if n < 8 then 5 else 10;
      var t := (num * n + den - 1) / den;
      Ok(Max(m + 1, Min(t, n)))
  }

  /** Every accepted enrolment can lose all but max(m + 1, ceil(7n/10)) slots. */
  lemma DriftBudget(n: nat, m: nat)
    requires Threshold(n, m).Ok?
    ensures var t := Threshold(n, m).value; m < t <= n
    ensures n - Threshold(n, m).value == Min(n - m - 1, 3 * n / 10)
    ensures m + 3 <= n ==> n - Threshold(n, m).value >= 2
  {
    var t := (7 * n + 9) / 10;
    assert n - t == 3 * n / 10;
  }

  // ---------------------------------------------------------------- random draws

  function DrawnElem(data: bytes, pos: nat): Elem
    requires pos + 8 <= |data|
  {
    FromLE(data[pos..pos + 8]) % P
  }

  /** The source still has n draws to give. */
  predicate Enough(data: bytes, pos: nat, n: nat) {
    n == 0 || pos + 8 * n <= |data|
  }

  /** The next n draws from position pos. */
  function Draws(data: bytes, pos: nat, n: nat): (r: seq<Elem>)
    requires Enough(data, pos, n)
    ensures |r| == n
  {
    seq(n, i requires 0 <= i < n => DrawnElem(data, pos + 8 * i))
  }

  /** Reads a byte source eight bytes at a time; past its end the source returns short chunks. */
  class Draw {
    const data: bytes
    var pos: nat

    constructor (data: bytes)
      ensures this.data == data && pos == 0
    {
      this.data := data;
      pos := 0;
    }

    method Source(n: nat) returns (chunk: bytes)
      modifies this
      ensures pos == old(pos) + n
      ensures chunk == data[Min(old(pos), |data|)..Min(old(pos) + n, |data|)]
    {
      chunk := data[Min(pos, |data|)..Min(pos + n, |data|)];
      pos := pos + n;
    }

    method Elem() returns (r: Result<Elem>)
      modifies this
      ensures pos == old(pos) + 8
      ensures r == if old(pos) + 8 <= |data| then Ok(DrawnElem(data, old(pos))) else Err(SsError)
    {
      var chunk := Source(8);
      if |chunk| != 8 { return Err(SsError); }
      return Ok(FromLE(chunk) % P);
    }
  }

  /** A byte source that draws exactly the given elements. */
  function SourceOf(es: seq<Elem>): (data: bytes)
    ensures |data| == 8 * |es|
  {
    if es == [] then [] else SourceOf(es[..|es| - 1]) + LE(es[|es| - 1], 8)
  }

  lemma {:induction false} SourceDraws(es: seq<Elem>, i: nat)
    requires i < |es|
    ensures DrawnElem(SourceOf(es), 8 * i) == es[i]
  {
    var n := |es| - 1;
    var front, data := SourceOf(es[..n]), SourceOf(es);
    if i < n {
      SourceDraws(es[..n], i);
      assert data[8 * i..8 * i + 8] == front[8 * i..8 * i + 8];
    } else {
      Widths();
      LEInverse(es[n], 8);
      assert data[8 * n..8 * n + 8] == LE(es[n], 8);
    }
  }

  // ---------------------------------------------------------------- shares

  predicate AsciiSlots(slots: seq<Slot>) {
    forall i :: 0 <= i < |slots| ==> IsAscii(slots[i].name)
  }

  predicate DistinctNames(slots: seq<Slot>) {
    forall i, j :: 0 <= i < j < |slots| ==> slots[i].name != slots[j].name
  }

  function XsOf(sha: Sha256, slots: seq<Slot>, salt: byte): (xs: seq<Elem>)
    requires AsciiSlots(slots)
    ensures |xs| == |slots|
    ensures forall i :: 0 <= i < |slots| ==> xs[i] == DeriveX(sha, slots[i].name, slots[i].value, salt)
    ensures 0 !in xs
  {
    seq(|slots|, i requires 0 <= i < |slots| => DeriveX(sha, slots[i].name, slots[i].value, salt))
  }

  predicate SaltSeparates(sha: Sha256, slots: seq<Slot>, salt: byte)
    requires AsciiSlots(slots)
  {
    Distinct(XsOf(sha, slots, salt))
  }

  /** The first salt from the given one on, below 255, under which the x-coordinates differ. */
  function FirstSalt(sha: Sha256, slots: seq<Slot>, salt: byte): Option<byte>
    requires AsciiSlots(slots)
    decreases 255 - salt
  {
    if salt == 255 then None
    else if SaltSeparates(sha, slots, salt) then Some(salt)
    else FirstSalt(sha, slots, salt + 1)
  }

  lemma {:induction false} FirstSaltIsFirst(sha: Sha256, slots: seq<Slot>, salt: byte)
    requires AsciiSlots(slots)
    ensures var r := FirstSalt(sha, slots, salt);
      && (r.Some? ==> salt <= r.value < 255 && SaltSeparates(sha, slots, r.value))
      && forall s: byte :: salt <= s < (if r.Some? then r.value else 255) ==> !SaltSeparates(sha, slots, s)
    decreases 255 - salt
  {
    hide SaltSeparates;
    if salt < 255 && !SaltSeparates(sha, slots, salt) {
      FirstSaltIsFirst(sha, slots, salt + 1);
    }
  }

  /** Limb l's draws start after l rows of n. */
  function RowStart(l: nat, n: nat): (r: nat)
    requires l <= 4
    ensures r == l * n
  {
    if l == 0 then 0 else if l == 1 then n else if l == 2 then 2 * n else if l == 3 then 3 * n else 4 * n
  }

  function Row(draws: seq<Elem>, n: nat, l: nat): (r: seq<Elem>)
    requires |draws| == 4 * n && l < 4
    ensures |r| == n
  {
    draws[RowStart(l, n)..RowStart(l + 1, n)]
  }

  /** The four polynomials of degree below t whose constant terms are the limbs of k. */
  function CurvesOf(k: Key, draws: seq<Elem>, t: nat): (curves: seq<seq<Elem>>)
    requires t >= 1 && |draws| == 4 * (t - 1)
    ensures |curves| == 4
  {
    seq(4, l requires 0 <= l < 4 => [k[l]] + Row(draws, t - 1, l))
  }

  /** The share at x: the four polynomials evaluated there. */
  function ShareAt(curves: seq<seq<Elem>>, x: Elem): Key
    requires |curves| == 4
  {
    seq(4, l requires 0 <= l < 4 => Eval(curves[l], x) % P)
  }

  function ShareMap(sha: Sha256, slots: seq<Slot>, curves: seq<seq<Elem>>, salt: byte): map<string, Key>
    requires AsciiSlots(slots) && |curves| == 4
  {
    if slots == [] then map[] else
      var last := slots[|slots| - 1];
      ShareMap(sha, slots[..|slots| - 1], curves, salt)
        [last.name := ShareAt(curves, DeriveX(sha, last.name, last.value, salt))]
  }

  /** Every slot's share is the point of the curves at that slot's x-coordinate. */
  lemma {:induction false} ShareOfSlot(sha: Sha256, slots: seq<Slot>, curves: seq<seq<Elem>>, salt: byte, i: nat)
    requires AsciiSlots(slots) && DistinctNames(slots) && |curves| == 4 && i < |slots|
    ensures var shares := ShareMap(sha, slots, curves, salt);
      && slots[i].name in shares
      && shares[slots[i].name] == ShareAt(curves, DeriveX(sha, slots[i].name, slots[i].value, salt))
  {
    hide ShareAt, DeriveX;
    if i < |slots| - 1 {
      ShareOfSlot(sha, slots[..|slots| - 1], curves, salt, i);
    }
  }

  lemma {:induction false} ShareNames(sha: Sha256, slots: seq<Slot>, curves: seq<seq<Elem>>, salt: byte)
    requires AsciiSlots(slots) && |curves| == 4
    ensures ShareMap(sha, slots, curves, salt).Keys == set s | s in slots :: s.name
  {
    hide ShareAt, DeriveX;
    if slots != [] {
      var front, last := slots[..|slots| - 1], slots[|slots| - 1];
      ShareNames(sha, front, curves, salt);
      assert slots == front + [last];
    }
  }

  /** What build_shares computes from a byte source at position pos. */
  function SharesOf(sha: Sha256, k: Key, slots: seq<Slot>, t: nat, data: bytes, pos: nat): Result<Shares>
    requires t >= 1 && AsciiSlots(slots)
  {
    var salt := FirstSalt(sha, slots, 0);
    var n := 4 * (t - 1);
    if salt.None? || !Enough(data, pos, n) then Err(SsError)
    else Ok(Shares(ShareMap(sha, slots, CurvesOf(k, Draws(data, pos, n), t), salt.value), salt.value))
  }

  /** One row of the coefficient table: a placeholder for the constant term, then t - 1 draws. */
  method DrawRow(t: nat, d: Draw) returns (r: Result<seq<Elem>>)
    requires t >= 1
    modifies d
    ensures Enough(d.data, old(d.pos), t - 1) ==>
      r == Ok([0] + Draws(d.data, old(d.pos), t - 1)) && d.pos == old(d.pos) + 8 * (t - 1)
    ensures !Enough(d.data, old(d.pos), t - 1) ==> r == Err(SsError)
  {
    var row: seq<Elem> := [0];
    for j := 1 to t
      invariant d.pos == old(d.pos) + 8 * (j - 1)
      invariant Enough(d.data, old(d.pos), j - 1) && row == [0] + Draws(d.data, old(d.pos), j - 1)
    {
      var e := d.Elem();
      if e.Err? { return Err(SsError); }
      row := row + [e.value];
      assert Draws(d.data, old(d.pos), j) == Draws(d.data, old(d.pos), j - 1) + [e.value];
    }
    return Ok(row);
  }

  /** The Horner loop of one limb. */
  method Horner(row: seq<Elem>, constant: Elem, x: Elem) returns (y: Elem)
    requires |row| >= 1
    ensures y == Eval([constant] + row[1..], x) % P
  {
    var acc: Elem := 0;
    for j := |row| downto 1
      invariant Same(acc, Eval(row[j..], x))
    {
      HornerStep(acc, x, row[j], Eval(row[j + 1..], x));
      assert row[j..][1..] == row[j + 1..];
      acc := AddMod(MulMod(acc, x), row[j]);
    }
    HornerStep(acc, x, constant, Eval(row[1..], x));
    assert ([constant] + row[1..])[1..] == row[1..];
    y := AddMod(MulMod(acc, x), constant);
    ReducedSum(y, Eval([constant] + row[1..], x));
  }

  lemma HornerStep(acc: Elem, x: Elem, c: Elem, tail: int)
    requires Same(acc, tail)
    ensures Same(AddMod(MulMod(acc, x), c), c + x * tail)
  {
    hide Same, AddMod, MulMod;
    SameRefl(c);
    SameScale(x, acc, tail);
    SameTrans(MulMod(acc, x), acc * x, tail * x);
    SameSum(MulMod(acc, x), tail * x, c, c);
    SameTrans(AddMod(MulMod(acc, x), c), MulMod(acc, x) + c, tail * x + c);
  }

  lemma RowIsDraws(data: bytes, pos: nat, n: nat, l: nat)
    requires Enough(data, pos, 4 * n) && l < 4
    ensures Enough(data, pos + 8 * RowStart(l, n), n)
    ensures Row(Draws(data, pos, 4 * n), n, l) == Draws(data, pos + 8 * RowStart(l, n), n)
  {
  }

  /** The four rows of the coefficient table. */
  method DrawRows(t: nat, d: Draw) returns (r: Result<seq<seq<Elem>>>)
    requires t >= 1
    modifies d
    ensures r.Ok? <==> Enough(d.data, old(d.pos), 4 * (t - 1))
    ensures r.Err? ==> r.error == SsError
    ensures r.Ok? ==> |r.value| == 4
    ensures r.Ok? ==> forall l :: 0 <= l < 4 ==>
      r.value[l] == [0] + Row(Draws(d.data, old(d.pos), 4 * (t - 1)), t - 1, l)
  {
    ghost var p, n := d.pos, t - 1;
    var rows: seq<seq<Elem>> := [];
    for limb := 0 to 4
      invariant d.pos == p + 8 * RowStart(limb, n) && Enough(d.data, p, RowStart(limb, n))
      invariant |rows| == limb
      invariant forall l :: 0 <= l < limb ==> Enough(d.data, p + 8 * RowStart(l, n), n)
      invariant forall l :: 0 <= l < limb ==> rows[l] == [0] + Draws(d.data, p + 8 * RowStart(l, n), n)
    {
      var row := DrawRow(t, d);
      if row.Err? {
        return Err(SsError);
      }
      rows := rows + [row.value];
    }
    forall l | 0 <= l < 4 ensures rows[l] == [0] + Row(Draws(d.data, p, 4 * n), n, l) {
      RowIsDraws(d.data, p, n, l);
    }
    return Ok(rows);
  }

  /** The four Horner loops of one slot. */
  method ShareLoop(rows: seq<seq<Elem>>, k: Key, x: Elem, ghost curves: seq<seq<Elem>>) returns (share: Key)
    requires |rows| == |curves| == 4
    requires forall l :: 0 <= l < 4 ==> |rows[l]| >= 1 && curves[l] == [k[l]] + rows[l][1..]
    ensures share == ShareAt(curves, x)
  {
    var limbs: seq<Elem> := [];
    for limb := 0 to 4
      invariant |limbs| == limb
      invariant forall l :: 0 <= l < limb ==> limbs[l] == Eval(curves[l], x) % P
    {
      var y := Horner(rows[limb], k[limb], x);
      limbs := limbs + [y];
    }
    share := limbs;
  }

  /** The loop over the slots. */
  method ShareTable(sha: Sha256, slots: seq<Slot>, rows: seq<seq<Elem>>, k: Key, xs: seq<Elem>, salt: byte,
                    ghost curves: seq<seq<Elem>>)
    returns (values: map<string, Key>)
    requires AsciiSlots(slots) && xs == XsOf(sha, slots, salt)
    requires |rows| == |curves| == 4
    requires forall l :: 0 <= l < 4 ==> |rows[l]| >= 1 && curves[l] == [k[l]] + rows[l][1..]
    ensures values == ShareMap(sha, slots, curves, salt)
  {
    hide ShareAt, DeriveX;
    values := map[];
    for i := 0 to |slots|
      invariant values == ShareMap(sha, slots[..i], curves, salt)
    {
      var share := ShareLoop(rows, k, xs[i], curves);
      values := values[slots[i].name := share];
      assert slots[..i + 1][..i] == slots[..i];
    }
    assert slots[..|slots|] == slots;
  }

  /** build_shares: salts the x-coordinates apart, draws the coefficients, evaluates the shares. */
  method BuildShares(sha: Sha256, k: Key, slots: seq<Slot>, t: nat, d: Draw) returns (r: Result<Shares>)
    requires t >= 1 && AsciiSlots(slots) && DistinctNames(slots)
    modifies d
    ensures r == SharesOf(sha, k, slots, t, d.data, old(d.pos))
  {
    hide SaltSeparates, ShareMap, Enough, Row, DeriveX;
    var salt: byte := 0;
    while !SaltSeparates(sha, slots, salt)
      invariant salt < 255 && FirstSalt(sha, slots, 0) == FirstSalt(sha, slots, salt)
      decreases 255 - salt
    {
      salt := salt + 1;
      if salt == 255 { return Err(SsError); }
    }
    var rows := DrawRows(t, d);
    if rows.Err? { return Err(SsError); }
    ghost var curves := CurvesOf(k, Draws(d.data, old(d.pos), 4 * (t - 1)), t);
    var values := ShareTable(sha, slots, rows.value, k, XsOf(sha, slots, salt), salt, curves);
    return Ok(Shares(values, salt));
  }

  // ---------------------------------------------------------------- perfect hiding

  /** With key k, these draws give every listed x the listed share. */
  ghost predicate Produces(k: Key, draws: seq<Elem>, t: nat, xs: seq<Elem>, shares: seq<Key>)
    requires t >= 1 && |draws| == 4 * (t - 1) && |xs| == |shares|
  {
    forall i :: 0 <= i < |xs| ==> ShareAt(CurvesOf(k, draws, t), xs[i]) == shares[i]
  }

  function LimbOf(shares: seq<Key>, l: nat): (ys: seq<Elem>)
    requires l < 4
    ensures |ys| == |shares|
  {
    seq(|shares|, i requires 0 <= i < |shares| => shares[i][l])
  }

  function Reduce(f: seq<int>): (r: seq<Elem>)
    ensures |r| == |f|
  {
    seq(|f|, i requires 0 <= i < |f| => f[i] % P)
  }

  lemma ReduceSame(f: seq<int>)
    ensures SameCoefficients(Reduce(f), f)
  {
  }

  /** The non-constant coefficients that give a limb with constant c the values ys at xs. */
  function HidingRow(c: Elem, xs: seq<Elem>, ys: seq<Elem>): (row: seq<Elem>)
    requires |xs| == |ys|
    ensures |row| == |xs|
  {
    Reduce(Interpolant([0] + xs, [c] + ys))[1..]
  }

  ghost predicate HitsAll(f: seq<int>, xs: seq<Elem>, ys: seq<Elem>)
    requires |xs| == |ys|
  {
    forall i :: 0 <= i < |xs| ==> Eval(f, xs[i]) % P == ys[i]
  }

  lemma EvalAtZero(f: seq<int>)
    requires f != []
    ensures Eval(f, 0) == f[0]
  {
  }

  lemma ReducedPassesThrough(f: seq<int>, xs: seq<Elem>, ys: seq<Elem>)
    requires |xs| == |ys| && PassesThrough(f, xs, ys)
    ensures PassesThrough(Reduce(f), xs, ys)
  {
    ReduceSame(f);
    hide Eval, Reduce, Same, SameCoefficients;
    forall i | 0 <= i < |xs| ensures Same(Eval(Reduce(f), xs[i]), ys[i]) {
      EvalSameCoefficients(Reduce(f), f, xs[i]);
      SameTrans(Eval(Reduce(f), xs[i]), Eval(f, xs[i]), ys[i]);
    }
  }

  lemma HitsAllOfPassesThrough(f: seq<int>, c: Elem, xs: seq<Elem>, ys: seq<Elem>)
    requires |xs| == |ys| && PassesThrough(f, [0] + xs, [c] + ys)
    ensures HitsAll(f, xs, ys)
  {
    hide Eval;
    forall i | 0 <= i < |xs| ensures Eval(f, xs[i]) % P == ys[i] {
      var zs, vs := [0] + xs, [c] + ys;
      assert zs[i + 1] == xs[i] && Same(Eval(f, zs[i + 1]), vs[i + 1]);
      SameRemainders(Eval(f, xs[i]), ys[i]);
    }
  }

  lemma ZeroedDistinct(xs: seq<Elem>)
    requires Distinct(xs) && 0 !in xs
    ensures Distinct([0] + xs)
  {
  }

  lemma HidingRowHits(c: Elem, xs: seq<Elem>, ys: seq<Elem>)
    requires |xs| == |ys| && Distinct(xs) && 0 !in xs
    ensures HitsAll([c] + HidingRow(c, xs, ys), xs, ys)
  {
    hide Interpolant, Reduce;
    var zs, vs := [0] + xs, [c] + ys;
    var f := Interpolant(zs, vs);
    ZeroedDistinct(xs);
    InterpolantExists(zs, vs);
    ReducedPassesThrough(f, zs, vs);
    var g := Reduce(f);
    HitsAllOfPassesThrough(g, c, xs, ys);
    assert Same(Eval(g, zs[0]), vs[0]);
    EvalAtZero(g);
    SameElem(g[0], c);
    assert [c] + g[1..] == g;
  }

  lemma HidingRowUnique(c: Elem, row: seq<Elem>, other: seq<Elem>, xs: seq<Elem>, ys: seq<Elem>)
    requires |row| == |other| == |xs| == |ys| && Distinct(xs) && 0 !in xs
    requires HitsAll([c] + row, xs, ys) && HitsAll([c] + other, xs, ys)
    ensures row == other
  {
    var zs, vs := [0] + xs, [c] + ys;
    PassesThroughZero(c, row, xs, ys);
    PassesThroughZero(c, other, xs, ys);
    Unique([c] + row, [c] + other, zs, vs);
    forall i | 0 <= i < |row| ensures row[i] == other[i] {
      assert ([c] + row)[i + 1] == row[i] && ([c] + other)[i + 1] == other[i];
      SameElem(row[i], other[i]);
    }
  }

  lemma PassesThroughZero(c: Elem, row: seq<Elem>, xs: seq<Elem>, ys: seq<Elem>)
    requires |row| == |xs| == |ys| && HitsAll([c] + row, xs, ys)
    ensures PassesThrough([c] + row, [0] + xs, [c] + ys)
  {
    var f, zs, vs := [c] + row, [0] + xs, [c] + ys;
    EvalAtZero(f);
    forall i | 0 <= i < |zs| ensures Same(Eval(f, zs[i]), vs[i]) {
      if i > 0 {
        assert zs[i] == xs[i - 1] && vs[i] == ys[i - 1];
        Reduction(Eval(f, xs[i - 1]));
      }
    }
  }

  lemma ProducesByLimb(k: Key, draws: seq<Elem>, t: nat, xs: seq<Elem>, shares: seq<Key>)
    requires t >= 1 && |draws| == 4 * (t - 1) && |xs| == |shares|
    ensures Produces(k, draws, t, xs, shares) <==>
            forall l :: 0 <= l < 4 ==> HitsAll([k[l]] + Row(draws, t - 1, l), xs, LimbOf(shares, l))
  {
    hide Eval, Row;
    var curves := CurvesOf(k, draws, t);
    assert forall i, l :: 0 <= i < |xs| && 0 <= l < 4 ==>
      LimbOf(shares, l)[i] == shares[i][l]
      && ShareAt(curves, xs[i])[l] == Eval([k[l]] + Row(draws, t - 1, l), xs[i]) % P;
    if forall l :: 0 <= l < 4 ==> HitsAll([k[l]] + Row(draws, t - 1, l), xs, LimbOf(shares, l)) {
      forall i | 0 <= i < |xs| ensures ShareAt(curves, xs[i]) == shares[i] {
        assert forall l :: 0 <= l < 4 ==> ShareAt(curves, xs[i])[l] == shares[i][l];
      }
    }
    if Produces(k, draws, t, xs, shares) {
      forall l | 0 <= l < 4 ensures HitsAll([k[l]] + Row(draws, t - 1, l), xs, LimbOf(shares, l)) {
        assert forall i :: 0 <= i < |xs| ==> ShareAt(curves, xs[i])[l] == shares[i][l];
      }
    }
  }

  /** The draws under which key k gives the listed shares. */
  function HidingDraws(k: Key, xs: seq<Elem>, shares: seq<Key>): (draws: seq<Elem>)
    requires |xs| == |shares|
    ensures |draws| == 4 * |xs|
  {
    HidingRow(k[0], xs, LimbOf(shares, 0)) + HidingRow(k[1], xs, LimbOf(shares, 1))
    + HidingRow(k[2], xs, LimbOf(shares, 2)) + HidingRow(k[3], xs, LimbOf(shares, 3))
  }

  lemma HidingDrawsRow(k: Key, xs: seq<Elem>, shares: seq<Key>, l: nat)
    requires |xs| == |shares| && l < 4
    ensures Row(HidingDraws(k, xs, shares), |xs|, l) == HidingRow(k[l], xs, LimbOf(shares, l))
  {
    hide HidingRow, LimbOf;
  }

  /**
   Perfect hiding: any t - 1 shares are consistent with every key.  For each key some byte source
   makes build_shares hand out exactly those shares, and the coefficients it draws are unique.
   */
  lemma PerfectHiding(k: Key, t: nat, xs: seq<Elem>, shares: seq<Key>)
    requires t >= 1 && |xs| == |shares| == t - 1 && Distinct(xs) && 0 !in xs
    ensures exists data: bytes :: |data| == 32 * (t - 1) && Produces(k, Draws(data, 0, 4 * (t - 1)), t, xs, shares)
    ensures forall d, e: seq<Elem> | |d| == |e| == 4 * (t - 1)
      && Produces(k, d, t, xs, shares) && Produces(k, e, t, xs, shares) :: d == e
  {
    hide Produces, Row, HidingRow, HitsAll, HidingDraws, CurvesOf;
    var draws := HidingDraws(k, xs, shares);
    forall l | 0 <= l < 4 ensures HitsAll([k[l]] + Row(draws, t - 1, l), xs, LimbOf(shares, l)) {
      HidingRowHits(k[l], xs, LimbOf(shares, l));
      HidingDrawsRow(k, xs, shares, l);
    }
    ProducesByLimb(k, draws, t, xs, shares);
    var data := SourceOf(draws);
    forall i | 0 <= i < |draws| ensures Draws(data, 0, |draws|)[i] == draws[i] {
      SourceDraws(draws, i);
    }
    assert Draws(data, 0, |draws|) == draws;
    forall d, e: seq<Elem> | |d| == |e| == 4 * (t - 1)
      && Produces(k, d, t, xs, shares) && Produces(k, e, t, xs, shares) ensures d == e {
      HidingDrawsUnique(k, t, xs, shares, d, e);
    }
  }

  lemma HidingDrawsUnique(k: Key, t: nat, xs: seq<Elem>, shares: seq<Key>, d: seq<Elem>, e: seq<Elem>)
    requires t >= 1 && |xs| == |shares| == t - 1 && Distinct(xs) && 0 !in xs
    requires |d| == |e| == 4 * (t - 1)
    requires Produces(k, d, t, xs, shares) && Produces(k, e, t, xs, shares)
    ensures d == e
  {
    hide Produces, HitsAll, Row;
    ProducesByLimb(k, d, t, xs, shares);
    ProducesByLimb(k, e, t, xs, shares);
    var n := t - 1;
    forall l | 0 <= l < 4 ensures Row(d, n, l) == Row(e, n, l) {
      HidingRowUnique(k[l], Row(d, n, l), Row(e, n, l), xs, LimbOf(shares, l));
    }
    RowsDetermine(d, e, n);
  }

  lemma RowsDetermine(d: seq<Elem>, e: seq<Elem>, n: nat)
    requires |d| == |e| == 4 * n
    requires forall l :: 0 <= l < 4 ==> Row(d, n, l) == Row(e, n, l)
    ensures d == e
  {
    JoinRows(d, n);
    JoinRows(e, n);
    hide Row;
  }

  lemma JoinRows(d: seq<Elem>, n: nat)
    requires |d| == 4 * n
    ensures d == Row(d, n, 0) + Row(d, n, 1) + Row(d, n, 2) + Row(d, n, 3)
  {
  }
}
