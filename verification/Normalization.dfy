/** Cleaning what the collectors report before it counts as a factor (core.py:166-230). */
module Normalization {
  import opened Bytes
  import opened Factors

  // ---------------------------------------------------------------- text

  /** The characters that str.strip removes. */
  predicate IsSpace(c: char) {
    || '\t' <= c <= '\r' || '\U{1C}' <= c <= ' ' || c == '\U{85}' || c == '\U{A0}' || c == '\U{1680}'
    || '\U{2000}' <= c <= '\U{200A}' || c == '\U{2028}' || c == '\U{2029}' || c == '\U{202F}' || c == '\U{205F}'
    || c == '\U{3000}'
  }

  function StripLeft(s: string): string {
    if s != "" && IsSpace(s[0]) then StripLeft(s[1..]) else s
  }

  function StripRight(s: string): string {
    if s != "" && IsSpace(s[|s| - 1]) then StripRight(s[..|s| - 1]) else s
  }

  function Strip(s: string): string {
    StripRight(StripLeft(s))
  }

  /** s.replace(c, "") */
  function Without(s: string, c: char): string {
    if s == "" then "" else (if s[0] == c then "" else [s[0]]) + Without(s[1..], c)
  }

  function LowerChar(c: char): char {
    if 'A' <= c <= 'Z' then (c as int + 32) as char else c
  }

  /** ASCII-only folding. */
  function Lower(s: string): (r: string)
    ensures |r| == |s|
  {
    seq(|s|, i requires 0 <= i < |s| => LowerChar(s[i]))
  }

  predicate IsDigit(c: char) {
    '0' <= c <= '9'
  }

  predicate IsHexChar(c: char) {
    IsDigit(c) || 'a' <= c <= 'f' || 'A' <= c <= 'F'
  }

  predicate IsDecimal(s: string) {
    forall c :: c in s ==> IsDigit(c)
  }

  predicate IsHex(s: string) {
    forall c :: c in s ==> IsHexChar(c)
  }

  predicate IsAlnum(c: char) {
    IsDigit(c) || 'a' <= c <= 'z' || 'A' <= c <= 'Z'
  }

  /** The ASCII letters and digits of s. */
  function AlnumOf(s: string): string {
    if s == "" then "" else (if IsAlnum(s[0]) then [s[0]] else "") + AlnumOf(s[1..])
  }

  function FieldLength(s: string): (n: nat)
    ensures n <= |s|
  {
    if s == "" || s[0] == '|' then 0 else 1 + FieldLength(s[1..])
  }

  /** s.split("|") */
  function Fields(s: string): (fields: seq<string>)
    ensures fields != []
    decreases |s|
  {
    var n := FieldLength(s);
    [s[..n]] + if n == |s| then [] else Fields(s[n + 1..])
  }

  function Decimal(s: string): nat
    requires IsDecimal(s)
  {
    if s == "" then 0 else
      assert IsDigit(s[|s| - 1]);
      10 * Decimal(s[..|s| - 1]) + (s[|s| - 1] as int - '0' as int)
  }

  // ---------------------------------------------------------------- UTF-8

  function Utf8Char(c: char): (b: bytes)
    ensures |b| >= 1 && (c != '\0' ==> 0 !in b)
  {
    var v := c as int;
    if v < 0x80 then [v]
    else if v < 0x800 then [0xC0 + v / 0x40, 0x80 + v % 0x40]
    else if v < 0x1_0000 then [0xE0 + v / 0x1000, 0x80 + v / 0x40 % 0x40, 0x80 + v % 0x40]
    else [0xF0 + v / 0x4_0000 % 8, 0x80 + v / 0x1000 % 0x40, 0x80 + v / 0x40 % 0x40, 0x80 + v % 0x40]
  }

  /** s.encode("utf-8") */
  function Utf8(s: string): (b: bytes)
    ensures |b| >= |s| && ('\0' !in s ==> 0 !in b)
  {
    if s == "" then [] else Utf8Char(s[0]) + Utf8(s[1..])
  }

  lemma {:induction false} Utf8OfAscii(s: string)
    requires IsAscii(s)
    ensures Utf8(s) == Ascii(s)
  {
    if s != "" {
      Utf8OfAscii(s[1..]);
      assert Ascii(s) == [s[0] as int] + Ascii(s[1..]);
    }
  }

  // ---------------------------------------------------------------- normalize

  predicate IsAddress(name: string) {
    name == "mac" || name == "nic_identity"
  }

  function Normalize(name: string, raw: string): string {
    var value := Lower(Strip(Without(raw, '\0')));
    if IsAddress(name) then Without(Without(value, ':'), '-') else value
  }

  const PLACEHOLDERS: set<string> := {
    "", "0", "none", "unknown", "default", "default string", "to be filled by o.e.m.",
    "not specified", "not available", "not applicable", "not present", "n/a", "na", "null",
    "system serial number", "asset tag", "no asset tag", "123456789", "0123456789", "example"
  }

  predicate IsMissing(value: string) {
    Strip(value) in PLACEHOLDERS
  }

  predicate IsDegenerate(value: string) {
    var compact := AlnumOf(value);
    |compact| >= 4 && ((forall c :: c in compact ==> c == '0') || (forall c :: c in compact ==> c == 'f'))
  }

  predicate IsUuidLike(value: string) {
    var compact := Without(value, '-');
    && (|value| == 32
        || (|value| == 36 && value[8] == '-' && value[13] == '-' && value[18] == '-' && value[23] == '-'))
    && |compact| == 32 && IsHex(compact) && !IsDegenerate(compact)
    && compact != "12345678123412341234123456789abc"
  }

  const IDENTIFIER_FACTORS: set<string> := {
    "machine_guid", "product_uuid", "system_uuid", "board_serial", "system_serial", "chassis_serial",
    "disk_serial", "volume_id", "tpm_ek", "memory_modules", "nic_identity", "battery_serial", "monitor_edid"
  }

  predicate IsAddressPart(part: string) {
    |part| == 12 && IsHex(part) && !IsDegenerate(part)
  }

  predicate IsIdentifierPart(part: string) {
    !IsMissing(part) && !IsDegenerate(part)
  }

  predicate AddressParts(parts: seq<string>) {
    forall i :: 0 <= i < |parts| ==> IsAddressPart(parts[i])
  }

  predicate IdentifierParts(parts: seq<string>) {
    forall i :: 0 <= i < |parts| ==> IsIdentifierPart(parts[i])
  }

  /** is_sane_factor */
  predicate IsSane(name: string, value: string) {
    if value == "" || |Utf8(value)| > 4096 || IsMissing(value) then false
    else if name == "ram_total" then IsDecimal(value) && Decimal(value) >= 128 * 1024 * 1024
    else if name == "machine_guid" || name == "product_uuid" || name == "system_uuid" then IsUuidLike(value)
    else if name == "slstore" then |value| == 64 && IsHex(value) && !IsDegenerate(value)
    else if name == "tpm_ek" then |value| == 64 && IsHex(value)
    else if IsAddress(name) then AddressParts(Fields(value))
    else if name in IDENTIFIER_FACTORS then IdentifierParts(Fields(value))
    else true
  }

  /** The factors that survive, as UTF-8. */
  function NormalizedFactors(raw: map<string, string>): Raw {
    map name | name in raw && IsSane(name, Normalize(name, raw[name])) :: Utf8(Normalize(name, raw[name]))
  }

  /** normalize_factors: one pass over what was collected. */
  method NormalizeFactors(raw: map<string, string>) returns (out: Raw)
    ensures out == NormalizedFactors(raw)
  {
    hide IsSane, Normalize;
    out := map[];
    var left := raw.Keys;
    while left != {}
      invariant left <= raw.Keys
      invariant out == NormalizedFactors(map name | name in raw && name !in left :: raw[name])
      decreases |left|
    {
      var name :| name in left;
      var value := Normalize(name, raw[name]);
      if IsSane(name, value) { out := out[name := Utf8(value)]; }
      left := left - {name};
    }
    assert (map name | name in raw && name !in left :: raw[name]) == raw;
  }

  // ---------------------------------------------------------------- what survives is clean

  lemma {:induction false} WithoutDrops(s: string, c: char)
    ensures c !in Without(s, c) && forall d :: d in Without(s, c) ==> d in s
  {
    if s != "" { WithoutDrops(s[1..], c); }
  }

  lemma {:induction false} WithoutNothing(s: string, c: char)
    requires c !in s
    ensures Without(s, c) == s
  {
    if s != "" {
      WithoutNothing(s[1..], c);
      assert s == [s[0]] + s[1..];
    }
  }

  predicate Trimmed(s: string) {
    s == "" || (!IsSpace(s[0]) && !IsSpace(s[|s| - 1]))
  }

  lemma {:induction false} StripLeftTrims(s: string)
    ensures var r := StripLeft(s); (r == "" || !IsSpace(r[0])) && forall d :: d in r ==> d in s
  {
    hide IsSpace;
    if s != "" && IsSpace(s[0]) { StripLeftTrims(s[1..]); }
  }

  lemma {:induction false} StripRightTrims(s: string)
    requires s == "" || !IsSpace(s[0])
    ensures Trimmed(StripRight(s)) && forall d :: d in StripRight(s) ==> d in s
  {
    hide IsSpace;
    if s != "" && IsSpace(s[|s| - 1]) { StripRightTrims(s[..|s| - 1]); }
  }

  lemma StripTrims(s: string)
    ensures Trimmed(Strip(s)) && forall d :: d in Strip(s) ==> d in s
    ensures Trimmed(s) ==> Strip(s) == s
  {
    hide IsSpace;
    StripLeftTrims(s);
    StripRightTrims(StripLeft(s));
  }

  lemma LowerKeeps(s: string)
    ensures Lower(Lower(s)) == Lower(s)
    ensures Trimmed(s) ==> Trimmed(Lower(s))
    ensures '\0' !in s ==> '\0' !in Lower(s)
  {
    if s != "" {
      LowerNotSpace(s[0]);
      LowerNotSpace(s[|s| - 1]);
    }
    hide IsSpace;
  }

  lemma LowerNotSpace(c: char)
    ensures IsSpace(LowerChar(c)) <==> IsSpace(c)
  {
  }

  /** Every normalized text is free of NUL. */
  lemma NormalizeDropsNul(name: string, raw: string)
    ensures '\0' !in Normalize(name, raw)
  {
    hide IsSpace, IsAddress, Strip, Lower, Without;
    var bare := Without(raw, '\0');
    WithoutDrops(raw, '\0');
    StripTrims(bare);
    LowerKeeps(Strip(bare));
    var value := Lower(Strip(bare));
    WithoutDrops(value, ':');
    WithoutDrops(Without(value, ':'), '-');
  }

  /** What normalization lets through is what the group encoding needs: NUL-free, non-empty values. */
  lemma NormalizedIsClean(raw: map<string, string>)
    ensures NulFree(NormalizedFactors(raw))
    ensures forall name :: name in NormalizedFactors(raw) ==> NormalizedFactors(raw)[name] != []
  {
    hide Normalize, Utf8, IsMissing, IsUuidLike, AddressParts, IdentifierParts, Decimal, IDENTIFIER_FACTORS;
    forall name | name in NormalizedFactors(raw)
      ensures 0 !in NormalizedFactors(raw)[name] && NormalizedFactors(raw)[name] != []
    {
      NormalizeDropsNul(name, raw[name]);
    }
  }

  /** A hexadecimal digit in lower case, or a field separator. */
  predicate IsPlainChar(c: char) {
    c == '|' || IsDigit(c) || 'a' <= c <= 'f'
  }

  predicate IsPlain(s: string) {
    forall c :: c in s ==> IsPlainChar(c)
  }

  predicate IsFolded(s: string) {
    forall c :: c in s ==> LowerChar(c) == c
  }

  lemma FieldEnds(s: string)
    ensures FieldLength(s) < |s| ==> s[FieldLength(s)] == '|'
  {
    if s != "" && s[0] != '|' { FieldEnds(s[1..]); }
  }

  lemma FoldedHexIsPlain(s: string)
    requires IsFolded(s) && IsHex(s)
    ensures IsPlain(s)
  {
  }

  lemma FirstField(s: string)
    ensures Fields(s)[0] == s[..FieldLength(s)]
    ensures FieldLength(s) < |s| ==> Fields(s)[1..] == Fields(s[FieldLength(s) + 1..])
  {
  }

  lemma PlainJoin(a: string, b: string)
    requires IsPlain(a) && IsPlain(b)
    ensures IsPlain(a + "|" + b)
  {
  }

  lemma {:induction false} FieldsOfHex(s: string)
    requires AddressParts(Fields(s)) && IsFolded(s)
    ensures IsPlain(s)
    decreases |s|
  {
    hide IsDegenerate, IsHex, LowerChar, FieldLength, Fields, IsPlain;
    var n := FieldLength(s);
    FieldEnds(s);
    FirstField(s);
    assert IsAddressPart(Fields(s)[0]);
    FoldedHexIsPlain(s[..n]);
    if n < |s| {
      var rest := s[n + 1..];
      AddressTail(Fields(s));
      FieldsOfHex(rest);
      PlainJoin(s[..n], rest);
      assert s == s[..n] + "|" + rest;
    } else {
      assert s == s[..n];
    }
  }

  lemma AddressTail(parts: seq<string>)
    requires AddressParts(parts) && parts != []
    ensures AddressParts(parts[1..])
  {
    hide IsAddressPart;
  }

  lemma PlainCharIsKept(c: char)
    requires IsPlainChar(c)
    ensures !IsSpace(c) && LowerChar(c) == c && c != '\0' && c != ':' && c != '-'
  {
  }

  /** Folded text without NULs and surrounding space is its own normal form, for addresses without separators. */
  lemma CleanIsFixed(name: string, v: string)
    requires '\0' !in v && Trimmed(v) && IsFolded(v) && (IsAddress(name) ==> ':' !in v && '-' !in v)
    ensures Normalize(name, v) == v
  {
    hide IsSpace, IsAddress, Strip, Without, LowerChar;
    WithoutNothing(v, '\0');
    StripTrims(v);
    FoldedIsFixed(v);
    if IsAddress(name) {
      WithoutNothing(v, ':');
      WithoutNothing(v, '-');
    }
  }

  lemma PlainIsFixed(name: string, v: string)
    requires IsPlain(v)
    ensures Normalize(name, v) == v
  {
    hide IsSpace, IsAddress, Normalize, LowerChar, IsPlainChar;
    forall c | c in v ensures !IsSpace(c) && LowerChar(c) == c && c != '\0' && c != ':' && c != '-' {
      PlainCharIsKept(c);
    }
    CleanIsFixed(name, v);
  }

  lemma FoldedIsFixed(s: string)
    requires IsFolded(s)
    ensures Lower(s) == s
  {
    hide LowerChar;
    forall i | 0 <= i < |s| ensures LowerChar(s[i]) == s[i] {
      assert s[i] in s;
    }
    assert Lower(s) == s;
  }

  lemma NormalizeFolds(name: string, raw: string)
    ensures IsFolded(Normalize(name, raw))
  {
    hide IsAddress, Strip, Without;
    var value := Lower(Strip(Without(raw, '\0')));
    assert IsFolded(value);
    WithoutDrops(value, ':');
    WithoutDrops(Without(value, ':'), '-');
  }

  /** A factor that is let through is its own normal form, so normalizing twice changes nothing. */
  lemma SaneIsFixed(name: string, raw: string)
    requires IsSane(name, Normalize(name, raw))
    ensures Normalize(name, Normalize(name, raw)) == Normalize(name, raw)
  {
    hide IsSane, Normalize, IsPlain;
    if IsAddress(name) {
      AddressIsPlain(name, raw);
      PlainIsFixed(name, Normalize(name, raw));
    } else {
      OtherIsFixed(name, raw);
    }
  }

  lemma AddressIsPlain(name: string, raw: string)
    requires IsAddress(name) && IsSane(name, Normalize(name, raw))
    ensures IsPlain(Normalize(name, raw))
  {
    hide Normalize, IsMissing, AddressParts, Decimal, Utf8, IsPlain, IsFolded;
    NormalizeFolds(name, raw);
    FieldsOfHex(Normalize(name, raw));
  }

  lemma OtherIsFixed(name: string, raw: string)
    requires !IsAddress(name)
    ensures Normalize(name, Normalize(name, raw)) == Normalize(name, raw)
  {
    hide IsSpace, IsAddress, Strip, Lower, Without;
    var bare := Without(raw, '\0');
    WithoutDrops(raw, '\0');
    StripTrims(bare);
    LowerKeeps(Strip(bare));
    var v := Lower(Strip(bare));
    WithoutNothing(v, '\0');
    StripTrims(v);
  }

  // ---------------------------------------------------------------- what normalization forgets

  predicate IsPadding(s: string) {
    forall c :: c in s ==> c == '\0' || IsSpace(c)
  }

  predicate IsBlank(s: string) {
    forall c :: c in s ==> IsSpace(c)
  }

  lemma WithoutFirst(s: string, t: string, c: char)
    requires s != ""
    ensures Without(s, c) == (if s[0] == c then "" else [s[0]]) + Without(s[1..], c)
    ensures Without(s + t, c) == (if s[0] == c then "" else [s[0]]) + Without(s[1..] + t, c)
  {
    assert (s + t)[0] == s[0] && (s + t)[1..] == s[1..] + t;
  }

  lemma JoinAssociates(a: string, b: string, c: string)
    ensures a + b + c == a + (b + c)
  {
  }

  lemma {:induction false} WithoutJoin(a: string, b: string, c: char)
    ensures Without(a + b, c) == Without(a, c) + Without(b, c)
  {
    hide Without;
    if a == "" {
      assert a + b == b && Without(a, c) == "" by { WithoutNothing("", c); }
    } else {
      WithoutFirst(a, b, c);
      WithoutJoin(a[1..], b, c);
      JoinAssociates(if a[0] == c then "" else [a[0]], Without(a[1..], c), Without(b, c));
    }
  }

  lemma PaddingIsBlank(s: string)
    requires IsPadding(s)
    ensures IsBlank(Without(s, '\0'))
  {
    hide IsSpace, Without;
    WithoutDrops(s, '\0');
  }

  lemma {:induction false} StripLeftBlank(a: string, s: string)
    requires IsBlank(a)
    ensures StripLeft(a + s) == StripLeft(s)
  {
    hide IsSpace;
    if a == "" {
      assert a + s == s;
    } else {
      assert a[0] in a && forall c :: c in a[1..] ==> c in a;
      StripLeftBlank(a[1..], s);
      assert (a + s)[1..] == a[1..] + s;
    }
  }

  lemma {:induction false} StripLeftFront(s: string, b: string)
    requires StripLeft(s) != ""
    ensures StripLeft(s + b) == StripLeft(s) + b
  {
    hide IsSpace;
    if IsSpace(s[0]) {
      StripLeftFront(s[1..], b);
      assert (s + b)[1..] == s[1..] + b;
    }
  }

  lemma {:induction false} StripLeftEmpty(s: string)
    requires StripLeft(s) == ""
    ensures IsBlank(s)
  {
    hide IsSpace;
    if s != "" {
      StripLeftEmpty(s[1..]);
      assert s == [s[0]] + s[1..];
    }
  }

  lemma {:induction false} StripRightBlank(s: string, b: string)
    requires IsBlank(b)
    ensures StripRight(s + b) == StripRight(s)
  {
    hide IsSpace;
    if b == "" {
      assert s + b == s;
    } else {
      var n := |b| - 1;
      assert b[n] in b && forall c :: c in b[..n] ==> c in b;
      StripRightBlank(s, b[..n]);
      assert (s + b)[..|s + b| - 1] == s + b[..n];
    }
  }

  lemma StripForgetsBlanks(a: string, s: string, b: string)
    requires IsBlank(a) && IsBlank(b)
    ensures Strip(a + (s + b)) == Strip(s)
  {
    hide IsSpace, StripLeft, StripRight, IsBlank;
    StripLeftBlank(a, s + b);
    if StripLeft(s) == "" {
      StripLeftEmpty(s);
      StripLeftBlank(s, b);
      StripLeftBlank(b, "");
      assert b + "" == b;
      assert StripLeft("") == StripLeft(s) by { StripLeftBlank(s, ""); assert s + "" == s; }
    } else {
      StripLeftFront(s, b);
      StripRightBlank(StripLeft(s), b);
    }
  }

  lemma {:induction false} WithoutLower(s: string, c: char)
    requires LowerChar(c) == c && forall d :: LowerChar(d) == c ==> d == c
    ensures Without(Lower(s), c) == Lower(Without(s, c))
  {
    hide LowerChar;
    if s != "" {
      WithoutLower(s[1..], c);
      assert Lower(s)[1..] == Lower(s[1..]);
      var head := if s[0] == c then "" else [s[0]];
      assert Lower(head + Without(s[1..], c)) == Lower(head) + Lower(Without(s[1..], c));
    }
  }

  lemma {:induction false} StripLeftLower(s: string)
    ensures StripLeft(Lower(s)) == Lower(StripLeft(s))
  {
    hide IsSpace, LowerChar;
    if s != "" {
      LowerNotSpace(s[0]);
      StripLeftLower(s[1..]);
      assert Lower(s)[1..] == Lower(s[1..]);
    }
  }

  lemma {:induction false} StripRightLower(s: string)
    ensures StripRight(Lower(s)) == Lower(StripRight(s))
  {
    hide IsSpace, LowerChar;
    if s != "" {
      var n := |s| - 1;
      LowerNotSpace(s[n]);
      StripRightLower(s[..n]);
      assert Lower(s)[..n] == Lower(s[..n]);
    }
  }

  /** Case, surrounding space and NULs make no difference to a factor. */
  lemma NormalizeForgets(name: string, raw: string, a: string, b: string)
    requires IsPadding(a) && IsPadding(b)
    ensures Normalize(name, a + (raw + b)) == Normalize(name, raw)
    ensures Normalize(name, Lower(raw)) == Normalize(name, raw)
  {
    assert LowerChar('\0') == '\0' && forall d :: LowerChar(d) == '\0' ==> d == '\0';
    hide IsSpace, IsAddress, StripLeft, StripRight, Without, IsPadding, IsBlank, Lower, LowerChar;
    PaddingIsBlank(a);
    PaddingIsBlank(b);
    WithoutJoin(a, raw + b, '\0');
    WithoutJoin(raw, b, '\0');
    var bare := Without(raw, '\0');
    StripForgetsBlanks(Without(a, '\0'), bare, Without(b, '\0'));
    WithoutLower(raw, '\0');
    StripLeftLower(bare);
    StripRightLower(StripLeft(bare));
    LowerKeeps(Strip(bare));
  }

  /** The same text in another case, or with space and NULs around it. */
  ghost predicate IsVariant(x: string, y: string) {
    y == Lower(x) || exists a, b :: IsPadding(a) && IsPadding(b) && y == a + (x + b)
  }

  /** Two collections that differ only in this way give the same factors. */
  lemma FactorsForget(raw: map<string, string>, other: map<string, string>)
    requires raw.Keys == other.Keys && forall name :: name in raw ==> IsVariant(raw[name], other[name])
    ensures NormalizedFactors(raw) == NormalizedFactors(other)
  {
    hide Normalize, IsSane, Utf8, Lower, IsPadding;
    forall name | name in raw ensures Normalize(name, raw[name]) == Normalize(name, other[name]) {
      var x, y := raw[name], other[name];
      assert IsVariant(x, y);
      if y == Lower(x) {
        NoPadding();
        NormalizeForgets(name, x, "", "");
      } else {
        var a, b :| IsPadding(a) && IsPadding(b) && y == a + (x + b);
        NormalizeForgets(name, x, a, b);
      }
    }
  }

  lemma NoPadding()
    ensures IsPadding("")
  {
  }

  // ---------------------------------------------------------------- what never survives

  /** Visible ASCII without address separators. */
  predicate IsMark(c: char) {
    '!' <= c <= '~' && c != ':' && c != '-'
  }

  predicate IsMarked(s: string) {
    && (s == "" || (IsMark(s[0]) && IsMark(s[|s| - 1])))
    && forall i :: 0 <= i < |s| ==> s[i] == ' ' || IsMark(s[i])
  }

  lemma ShortPlaceholders(p: string)
    requires p in {"", "0", "none", "unknown", "default", "n/a", "na", "null", "example", "asset tag"}
    ensures IsMarked(p) && p in PLACEHOLDERS
  {
  }

  lemma LongPlaceholders(p: string)
    requires p in {"default string", "not specified", "not available", "not applicable", "not present"}
    ensures IsMarked(p) && p in PLACEHOLDERS
  {
  }

  lemma OtherPlaceholders(p: string)
    requires p in {"to be filled by o.e.m.", "system serial number", "no asset tag", "123456789", "0123456789"}
    ensures IsMarked(p) && p in PLACEHOLDERS
  {
  }

  lemma MarkIsNotSpace(c: char)
    requires IsMark(c)
    ensures !IsSpace(c)
  {
  }

  lemma MarkedIsTrimmed(p: string)
    requires IsMarked(p)
    ensures Trimmed(p) && ':' !in p && '-' !in p
  {
    hide IsSpace;
    if p != "" {
      MarkIsNotSpace(p[0]);
      MarkIsNotSpace(p[|p| - 1]);
    }
  }

  /** Placeholder text never becomes a factor, of whatever name, in whatever case, padding or with NULs in it. */
  lemma PlaceholderIsRefused(raw: map<string, string>, name: string)
    requires name in raw
    requires Lower(Strip(Without(raw[name], '\0'))) in {
      "", "0", "none", "unknown", "default", "n/a", "na", "null", "example", "asset tag",
      "default string", "not specified", "not available", "not applicable", "not present",
      "to be filled by o.e.m.", "system serial number", "no asset tag", "123456789", "0123456789"}
    ensures name !in NormalizedFactors(raw)
  {
    hide PLACEHOLDERS, Strip, Lower, Without, Trimmed, IsMarked, IsAddress, IsUuidLike, AddressParts, IdentifierParts,
      Utf8, IDENTIFIER_FACTORS, IsDecimal, IsHex, IsDegenerate;
    var p := Lower(Strip(Without(raw[name], '\0')));
    KnownPlaceholder(p);
    MarkedIsTrimmed(p);
    StripTrims(p);
    WithoutNothing(p, ':');
    WithoutNothing(p, '-');
  }

  lemma KnownPlaceholder(p: string)
    requires p in {
      "", "0", "none", "unknown", "default", "n/a", "na", "null", "example", "asset tag",
      "default string", "not specified", "not available", "not applicable", "not present",
      "to be filled by o.e.m.", "system serial number", "no asset tag", "123456789", "0123456789"}
    ensures IsMarked(p) && p in PLACEHOLDERS
  {
    hide IsMarked, PLACEHOLDERS;
    if p in {"", "0", "none", "unknown", "default", "n/a", "na", "null", "example", "asset tag"} {
      ShortPlaceholders(p);
    } else if p in {"default string", "not specified", "not available", "not applicable", "not present"} {
      LongPlaceholders(p);
    } else {
      OtherPlaceholders(p);
    }
  }

  lemma AlnumOfFirst(s: string, t: string)
    requires s != ""
    ensures AlnumOf(s) == (if IsAlnum(s[0]) then [s[0]] else "") + AlnumOf(s[1..])
    ensures AlnumOf(s + t) == (if IsAlnum(s[0]) then [s[0]] else "") + AlnumOf(s[1..] + t)
  {
    hide IsAlnum;
    assert (s + t)[0] == s[0] && (s + t)[1..] == s[1..] + t;
  }

  lemma AlnumOfNothing()
    ensures AlnumOf("") == ""
  {
  }

  lemma {:induction false} AlnumOfJoin(a: string, b: string)
    ensures AlnumOf(a + b) == AlnumOf(a) + AlnumOf(b)
  {
    hide IsAlnum, AlnumOf;
    if a == "" {
      AlnumOfNothing();
      assert a + b == b;
    } else {
      AlnumOfFirst(a, b);
      AlnumOfJoin(a[1..], b);
      JoinAssociates(if IsAlnum(a[0]) then [a[0]] else "", AlnumOf(a[1..]), AlnumOf(b));
    }
  }

  lemma {:induction false} WithoutKeepsAlnum(s: string, c: char)
    requires !IsAlnum(c)
    ensures AlnumOf(Without(s, c)) == AlnumOf(s)
  {
    hide IsAlnum;
    if s != "" {
      WithoutKeepsAlnum(s[1..], c);
      AlnumOfJoin(if s[0] == c then "" else [s[0]], Without(s[1..], c));
    }
  }

  lemma SpaceIsNotAlnum(c: char)
    ensures IsSpace(c) ==> !IsAlnum(c)
  {
  }

  lemma {:induction false} StripLeftKeepsAlnum(s: string)
    ensures AlnumOf(StripLeft(s)) == AlnumOf(s)
  {
    hide IsAlnum, IsSpace;
    if s != "" && IsSpace(s[0]) {
      SpaceIsNotAlnum(s[0]);
      StripLeftKeepsAlnum(s[1..]);
    }
  }

  lemma {:induction false} StripRightKeepsAlnum(s: string)
    ensures AlnumOf(StripRight(s)) == AlnumOf(s)
  {
    hide IsAlnum, IsSpace;
    if s != "" && IsSpace(s[|s| - 1]) {
      var n := |s| - 1;
      SpaceIsNotAlnum(s[n]);
      StripRightKeepsAlnum(s[..n]);
      AlnumOfJoin(s[..n], [s[n]]);
      assert s == s[..n] + [s[n]];
    }
  }

  lemma LowerIsAlnum(c: char)
    ensures IsAlnum(LowerChar(c)) <==> IsAlnum(c)
  {
  }

  lemma {:induction false} LowerKeepsAlnum(s: string)
    ensures AlnumOf(Lower(s)) == Lower(AlnumOf(s))
  {
    hide IsAlnum, LowerChar;
    if s != "" {
      LowerIsAlnum(s[0]);
      LowerKeepsAlnum(s[1..]);
      assert Lower(s)[1..] == Lower(s[1..]);
      var head := if IsAlnum(s[0]) then [s[0]] else "";
      assert Lower(head + AlnumOf(s[1..])) == Lower(head) + Lower(AlnumOf(s[1..]));
    }
  }

  /** Normalizing keeps the letters and digits of a text, in lower case. */
  lemma NormalizeKeepsAlnum(name: string, raw: string)
    ensures AlnumOf(Normalize(name, raw)) == Lower(AlnumOf(raw))
  {
    hide AlnumOf, Lower, Without, StripLeft, StripRight, IsAddress;
    var bare := Without(raw, '\0');
    WithoutKeepsAlnum(raw, '\0');
    StripLeftKeepsAlnum(bare);
    StripRightKeepsAlnum(StripLeft(bare));
    LowerKeepsAlnum(Strip(bare));
    var value := Lower(Strip(bare));
    WithoutKeepsAlnum(value, ':');
    WithoutKeepsAlnum(Without(value, ':'), '-');
  }

  /** The identifiers that must not be all zeros or all ones. */
  const CHECKED_IDENTIFIERS: set<string> := {
    "machine_guid", "product_uuid", "system_uuid", "slstore", "mac", "nic_identity", "board_serial", "system_serial",
    "chassis_serial", "disk_serial", "volume_id", "memory_modules", "battery_serial", "monitor_edid"
  }

  /** At least four letters and digits, all of them 0, or all of them F in either case. */
  predicate AllZerosOrOnes(text: string) {
    var compact := AlnumOf(text);
    && |compact| >= 4
    && ((forall c :: c in compact ==> c == '0') || (forall c :: c in compact ==> c == 'f' || c == 'F'))
  }

  lemma DegenerateText(name: string, raw: string)
    requires AllZerosOrOnes(raw)
    ensures IsDegenerate(Normalize(name, raw))
  {
    hide AlnumOf, Normalize;
    NormalizeKeepsAlnum(name, raw);
    var low := Lower(AlnumOf(raw));
    forall c | c in low ensures exists d :: d in AlnumOf(raw) && c == LowerChar(d) {
      var i :| 0 <= i < |low| && low[i] == c;
      assert AlnumOf(raw)[i] in AlnumOf(raw);
    }
  }

  lemma NormalizeKeepsOut(name: string, raw: string, c: char)
    requires c !in raw && LowerChar(c) == c && !('a' <= c <= 'z')
    ensures c !in Normalize(name, raw)
  {
    hide IsSpace, IsAddress, Strip, Without;
    var bare := Without(raw, '\0');
    WithoutDrops(raw, '\0');
    StripTrims(bare);
    var value := Lower(Strip(bare));
    assert c !in value;
    WithoutDrops(value, ':');
    WithoutDrops(Without(value, ':'), '-');
  }

  lemma {:induction false} OneFieldOnly(s: string)
    requires '|' !in s
    ensures FieldLength(s) == |s| && Fields(s) == [s]
  {
    if s != "" { OneFieldOnly(s[1..]); }
    assert s[..|s|] == s;
  }

  /** An identifier of a single field that is all zeros or all ones never becomes a factor, in whatever punctuation. */
  lemma DegenerateIsRefused(raw: map<string, string>, name: string)
    requires name in raw && name in CHECKED_IDENTIFIERS && '|' !in raw[name] && AllZerosOrOnes(raw[name])
    ensures name !in NormalizedFactors(raw)
  {
    var v := Normalize(name, raw[name]);
    assert name == "machine_guid" || name == "product_uuid" || name == "system_uuid" || name == "slstore"
      || IsAddress(name) || name in IDENTIFIER_FACTORS;
    assert name != "ram_total" && name != "tpm_ek";
    hide CHECKED_IDENTIFIERS, IDENTIFIER_FACTORS, Normalize, PLACEHOLDERS, Strip, Without, IsAddress, Utf8,
      IsDegenerate, Fields, IsHex, AllZerosOrOnes;
    DegenerateText(name, raw[name]);
    NormalizeKeepsOut(name, raw[name], '|');
    OneFieldOnly(v);
    if IsUuidLike(v) { CompactIsDegenerate(v); }
    assert Fields(v)[0] == v;
  }

  lemma CompactIsDegenerate(v: string)
    requires IsDegenerate(v)
    ensures IsDegenerate(Without(v, '-'))
  {
    hide AlnumOf, Without;
    WithoutKeepsAlnum(v, '-');
  }

  lemma PlaceholderIsShort(p: string)
    requires p in PLACEHOLDERS
    ensures |p| < 64
  {
  }

  /** The one identifier that is let through although it is degenerate: a TPM key of 64 zeros. */
  lemma ZeroEndorsementIsKept(v: string)
    requires |v| == 64 && forall c :: c in v ==> c == '0'
    ensures IsSane("tpm_ek", v) && IsDegenerate(v)
  {
    hide PLACEHOLDERS, IDENTIFIER_FACTORS, Strip, Trimmed, Utf8, IsHex, IsUuidLike, AddressParts, IdentifierParts,
      Decimal, IsAscii, AlnumOf;
    AsciiZeros(v);
    Utf8OfAscii(v);
    StripTrims(v);
    ZerosAreDegenerate(v);
    if v in PLACEHOLDERS { PlaceholderIsShort(v); }
  }

  lemma AsciiZeros(v: string)
    requires forall c :: c in v ==> c == '0'
    ensures IsAscii(v) && IsHex(v) && Trimmed(v)
  {
    assert forall i :: 0 <= i < |v| ==> v[i] in v;
  }

  lemma {:induction false} ZerosAreDegenerate(v: string)
    requires forall c :: c in v ==> c == '0'
    ensures AlnumOf(v) == v
  {
    if v != "" {
      assert v[0] in v;
      assert forall c :: c in v[1..] ==> c in v;
      ZerosAreDegenerate(v[1..]);
      assert v == [v[0]] + v[1..];
    }
  }

  lemma {:induction false} FieldsJoin(a: string, b: string)
    ensures Fields(a + "|" + b) == Fields(a) + Fields(b)
    decreases |a|
  {
    hide FieldLength;
    var s, n := a + "|" + b, FieldLength(a);
    FirstFieldEnds(a, b);
    assert s[..n] == a[..n];
    if n == |a| {
      assert s[n + 1..] == b && Fields(a) == [a[..n]];
    } else {
      FieldsJoin(a[n + 1..], b);
      assert s[n + 1..] == a[n + 1..] + "|" + b;
    }
  }

  lemma {:induction false} FirstFieldEnds(a: string, b: string)
    ensures FieldLength(a + "|" + b) == FieldLength(a)
  {
    var s := a + "|" + b;
    if a != "" && a[0] != '|' {
      assert s[1..] == a[1..] + "|" + b;
      FirstFieldEnds(a[1..], b);
    }
  }

  /** Lists of identifiers are checked field by field: one bad field, wherever it stands, spoils the value. */
  lemma EveryFieldIsChecked(name: string, a: string, field: string, b: string)
    requires IsAddress(name) || name in {"board_serial", "system_serial", "chassis_serial", "disk_serial", "volume_id",
      "memory_modules", "battery_serial", "monitor_edid"}
    requires '|' !in field
    requires if IsAddress(name) then !IsAddressPart(field) else IsMissing(field) || IsDegenerate(field)
    ensures !IsSane(name, a + "|" + (field + "|" + b))
    ensures !IsSane(name, a + "|" + field) && !IsSane(name, field + "|" + b)
  {
    assert name != "ram_total" && name != "tpm_ek" && name != "slstore" && name != "machine_guid";
    assert name != "product_uuid" && name != "system_uuid" && (!IsAddress(name) ==> name in IDENTIFIER_FACTORS);
    hide IDENTIFIER_FACTORS, PLACEHOLDERS, Strip, IsAddress, Utf8, IsDegenerate, Fields, IsHex, IsMissing;
    OneFieldOnly(field);
    FieldsJoin(field, b);
    FieldsJoin(a, field);
    FieldsJoin(a, field + "|" + b);
    assert Fields(field + "|" + b)[0] == field;
    assert Fields(a + "|" + field)[|Fields(a)|] == field;
    assert Fields(a + "|" + (field + "|" + b))[|Fields(a)|] == field;
  }

  lemma DecimalStep(s: string, c: char, t: string)
    requires IsDecimal(s) && IsDigit(c) && t == s + [c]
    ensures IsDecimal(t) && Decimal(t) == 10 * Decimal(s) + (c as int - '0' as int)
  {
    assert t[..|s|] == s;
  }

  lemma EmptyDecimal()
    ensures IsDecimal("") && Decimal("") == 0
  {
  }

  // ---------------------------------------------------------------- memory

  lemma DigitsAreAscii(s: string)
    requires IsDecimal(s)
    ensures IsAscii(s) && Trimmed(s)
  {
    assert forall i :: 0 <= i < |s| ==> s[i] in s;
  }

  lemma NumericPlaceholders(s: string)
    requires s in PLACEHOLDERS && IsDecimal(s)
    ensures s == "" || s == "0" || s == "123456789" || s == "0123456789"
  {
    assert s != "" ==> s[0] in s && s[|s| - 1] in s && IsDigit(s[0]) && IsDigit(s[|s| - 1]);
  }

  lemma SmallNumbers()
    ensures IsDecimal("0") && Decimal("0") == 0
    ensures IsDecimal("123456789") && Decimal("123456789") == 123456789
    ensures IsDecimal("0123456789") && Decimal("0123456789") == 123456789
  {
    hide IsDecimal, Decimal;
    EmptyDecimal();
    DecimalStep("", '1', "1");
    DecimalStep("1", '2', "12");
    DecimalStep("12", '3', "123");
    DecimalStep("123", '4', "1234");
    DecimalStep("1234", '5', "12345");
    DecimalStep("12345", '6', "123456");
    DecimalStep("123456", '7', "1234567");
    DecimalStep("1234567", '8', "12345678");
    DecimalStep("12345678", '9', "123456789");
    DecimalStep("", '0', "0");
    DecimalStep("0", '1', "01");
    DecimalStep("01", '2', "012");
    DecimalStep("012", '3', "0123");
    DecimalStep("0123", '4', "01234");
    DecimalStep("01234", '5', "012345");
    DecimalStep("012345", '6', "0123456");
    DecimalStep("0123456", '7', "01234567");
    DecimalStep("01234567", '8', "012345678");
    DecimalStep("012345678", '9', "0123456789");
  }

  /** Reported memory counts from 128 MiB on, and only as plain decimal digits. */
  lemma MemoryIsExact(s: string)
    ensures IsSane("ram_total", s) <==> 0 < |s| <= 4096 && IsDecimal(s) && Decimal(s) >= 134217728
  {
    hide PLACEHOLDERS, Strip, IsDegenerate, IsUuidLike, AddressParts, IdentifierParts, IDENTIFIER_FACTORS, Decimal,
      IsDecimal, Utf8, Trimmed, IsAscii;
    if s != "" && IsDecimal(s) {
      DigitsAreAscii(s);
      Utf8OfAscii(s);
      StripTrims(s);
      SmallNumbers();
      if s in PLACEHOLDERS { NumericPlaceholders(s); }
    }
  }

  // ---------------------------------------------------------------- shapes of what survives

  /** No factor is longer than 4096 characters; a stored secret or TPM key is 64 lower-case hexadecimal digits. */
  lemma FactorShapes(raw: map<string, string>, name: string)
    requires name in raw && name in NormalizedFactors(raw)
    ensures |NormalizedFactors(raw)[name]| <= 4096 && |Normalize(name, raw[name])| <= 4096
    ensures name == "slstore" || name == "tpm_ek" ==>
      && |NormalizedFactors(raw)[name]| == 64
      && forall b :: b in NormalizedFactors(raw)[name] ==> 48 <= b <= 57 || 97 <= b <= 102
  {
    hide PLACEHOLDERS, IDENTIFIER_FACTORS, Normalize, IsDegenerate, IsUuidLike, AddressParts, IdentifierParts, Strip,
      Decimal, Utf8, IsPlain, IsFolded, IsHex, IsDecimal, IsAddress;
    var v := Normalize(name, raw[name]);
    if name == "slstore" || name == "tpm_ek" {
      NormalizeFolds(name, raw[name]);
      HexBytes(v);
    }
  }

  lemma HexBytes(v: string)
    requires IsHex(v) && IsFolded(v)
    ensures |Utf8(v)| == |v| && forall b :: b in Utf8(v) ==> 48 <= b <= 57 || 97 <= b <= 102
  {
    FoldedHexIsPlain(v);
    forall i | 0 <= i < |v| ensures 48 <= v[i] as int <= 57 || 97 <= v[i] as int <= 102 {
      assert v[i] in v;
      assert IsHexChar(v[i]) && LowerChar(v[i]) == v[i];
    }
    Utf8OfAscii(v);
  }

  // ---------------------------------------------------------------- encoding is faithful

  /** The code point whose encoding starts the bytes. */
  function Utf8Head(b: bytes): int
    requires |b| >= 4
  {
    var i: int, p: int, q: int, r: int := b[0], b[1], b[2], b[3];
    var j, k, l := p - 0x80, q - 0x80, r - 0x80;
    if i < 0x80 then i
    else if i < 0xE0 then (i - 0xC0) * 0x40 + j
    else if i < 0xF0 then (i - 0xE0) * 0x1000 + j * 0x40 + k
    else (i - 0xF0) * 0x4_0000 + j * 0x1000 + k * 0x40 + l
  }

  lemma SixBits(v: nat)
    ensures v == v / 0x40 * 0x40 + v % 0x40
    ensures v / 0x40 == v / 0x1000 * 0x40 + v / 0x40 % 0x40
    ensures v / 0x1000 == v / 0x4_0000 * 0x40 + v / 0x1000 % 0x40
  {
    assert v / 0x40 / 0x40 == v / 0x1000 && v / 0x1000 / 0x40 == v / 0x4_0000;
  }

  lemma HeadIsRead(c: char, rest: bytes)
    requires |rest| >= 3
    ensures Utf8Head(Utf8Char(c) + rest) == c as int
  {
    var v := c as int;
    assert v < 0x11_0000;
    SixBits(v);
    var e := Utf8Char(c);
    var b := e + rest;
    assert forall i :: 0 <= i < |e| ==> b[i] == e[i];
  }

  /** The bytes of s, far enough for the last code point to be read. */
  function PaddedUtf8(s: string): (b: bytes)
    ensures |b| >= 3
  {
    Utf8(s) + [0, 0, 0]
  }

  lemma PaddedStep(s: string)
    requires s != ""
    ensures PaddedUtf8(s) == Utf8Char(s[0]) + PaddedUtf8(s[1..])
  {
    hide Utf8Char;
  }

  lemma SameTail(a: bytes, x: bytes, y: bytes)
    requires a + x == a + y
    ensures x == y
  {
    assert x == (a + x)[|a|..] && y == (a + y)[|a|..];
  }

  lemma {:induction false} Utf8Padded(s: string, t: string)
    requires PaddedUtf8(s) == PaddedUtf8(t)
    ensures s == t
  {
    hide Utf8Char, Utf8Head;
    if s != "" && t != "" {
      hide PaddedUtf8;
      PaddedStep(s);
      PaddedStep(t);
      HeadIsRead(s[0], PaddedUtf8(s[1..]));
      HeadIsRead(t[0], PaddedUtf8(t[1..]));
      SameTail(Utf8Char(s[0]), PaddedUtf8(s[1..]), PaddedUtf8(t[1..]));
      Utf8Padded(s[1..], t[1..]);
      assert s == [s[0]] + s[1..] && t == [t[0]] + t[1..];
    } else {
      assert |PaddedUtf8(s)| == |PaddedUtf8(t)|;
    }
  }

  /** Different texts have different bytes, so a change that normalization keeps is a change of the factor. */
  lemma Utf8Injective(s: string, t: string)
    requires Utf8(s) == Utf8(t)
    ensures s == t
  {
    Utf8Padded(s, t);
  }

  // ---------------------------------------------------------------- two forms of a UUID

  function Dashed(v: string): (u: string)
    requires |v| == 32
    ensures |u| == 36
  {
    v[..8] + "-" + (v[8..12] + "-" + (v[12..16] + "-" + (v[16..20] + "-" + v[20..])))
  }

  lemma PlainPart(v: string, i: nat, j: nat)
    requires i <= j <= |v| && '-' !in v
    ensures Without(v[i..j], '-') == v[i..j] && Without("-", '-') == ""
  {
    assert forall c :: c in v[i..j] ==> c in v;
    WithoutNothing(v[i..j], '-');
  }

  lemma UndashedIsPlain(v: string)
    requires |v| == 32 && '-' !in v
    ensures Without(Dashed(v), '-') == v
  {
    hide Without;
    PlainPart(v, 0, 8);
    PlainPart(v, 8, 12);
    PlainPart(v, 12, 16);
    PlainPart(v, 16, 20);
    PlainPart(v, 20, 32);
    assert v[0..8] == v[..8] && v[20..32] == v[20..];
    var d := v[16..20] + "-" + v[20..];
    var c := v[12..16] + "-" + d;
    var b := v[8..12] + "-" + c;
    JoinUndashed(v[16..20], v[20..]);
    JoinUndashed(v[12..16], d);
    JoinUndashed(v[8..12], c);
    JoinUndashed(v[..8], b);
    assert Dashed(v) == v[..8] + "-" + b;
    assert v == v[..8] + (v[8..12] + (v[12..16] + (v[16..20] + v[20..])));
  }

  lemma JoinUndashed(a: string, b: string)
    requires Without("-", '-') == ""
    ensures Without(a + "-" + b, '-') == Without(a, '-') + Without(b, '-')
  {
    hide Without;
    WithoutJoin(a + "-", b, '-');
    WithoutJoin(a, "-", '-');
    assert Without(a, '-') + "" == Without(a, '-');
  }

  /** A UUID with its dashes is accepted exactly if it is without them. */
  lemma UuidFormsAgree(v: string)
    requires |v| == 32 && '-' !in v
    ensures IsUuidLike(Dashed(v)) <==> IsUuidLike(v)
    ensures IsUuidLike(v) <==> IsHex(v) && !IsDegenerate(v) && v != "12345678123412341234123456789abc"
  {
    hide Without, IsHex, IsDegenerate;
    UndashedIsPlain(v);
    WithoutNothing(v, '-');
    var u := Dashed(v);
    assert u[8] == u[13] == u[18] == u[23] == '-';
  }
}
