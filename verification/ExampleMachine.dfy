/** A concrete machine: what its collectors report, before and after its battery is replaced. */
module ExampleMachine {
  import opened Bytes
  import opened Factors
  import opened Normalization

  const FIRST := "battery_serial"

  /** The slots that hold collected signals. */
  const COLLECTED: set<string> := {
    "battery_serial", "cpu_id", "disk_serial", "firmware", "machine_guid", "nic_identity", "ram_total"
  }

  const SLOT_NAMES: set<string> := {
    "battery_serial", "cpu_id", "disk_serial", "firmware", "machine_guid", "nic_identity", "ram_total", "slstore"
  }

  /** The persisted secret. */
  function StoredSecret(): (b: bytes)
    ensures |b| == 32
  {
    seq(32, _ => 0xA5)
  }

  function Padded(c: char, n: nat, last: char): (s: string)
    ensures |s| == n + 1 && s[n] == last && forall i :: 0 <= i < n ==> s[i] == c
  {
    seq(n, _ => c) + [last]
  }

  function Reported(name: string): string {
    if name == "battery_serial" then "sn-7b"
    else if name == "cpu_id" then "x86-c"
    else if name == "disk_serial" then "wd-9d"
    else if name == "firmware" then "bios-f"
    else if name == "machine_guid" then Padded('b', 31, '0')
    else if name == "nic_identity" then Padded('a', 11, '3')
    else if name == "ram_total" then "17179869184"
    else ""
  }

  const NEW_BATTERY := "sn-95"

  /** What the collectors report. */
  function Collected(): map<string, string> {
    map name | name in COLLECTED :: Reported(name)
  }

  /** What they report once the battery is replaced. */
  function CollectedLater(): map<string, string> {
    Collected()[FIRST := NEW_BATTERY]
  }

  /** The machine's factors, with the persisted secret. */
  function Enrolled(): (f: Raw)
    ensures f.Keys == SLOT_NAMES
  {
    map name | name in SLOT_NAMES :: ValueOf(name)
  }

  function ValueOf(name: string): bytes {
    if name == "slstore" then Hex(StoredSecret()) else Utf8(Reported(name))
  }

  function WithNewBattery(): (f: Raw)
    ensures FIRST in f
  {
    Enrolled()[FIRST := Utf8(NEW_BATTERY)]
  }

  function Last(value: bytes): int
    requires value != []
  {
    value[|value| - 1]
  }

  /** The last byte of a slot's value, which no two slots share. */
  function Ending(name: string): byte {
    if name == "battery_serial" then 98
    else if name == "cpu_id" then 99
    else if name == "disk_serial" then 100
    else if name == "firmware" then 102
    else if name == "machine_guid" then 48
    else if name == "nic_identity" then 51
    else if name == "ram_total" then 52
    else 53
  }

  // ---------------------------------------------------------------- text that normalization keeps

  /** ASCII text in lower case without surrounding space, and no separators in an address. */
  predicate IsClean(name: string, s: string) {
    && s != "" && IsAscii(s) && '\0' !in s && Trimmed(s) && IsFolded(s)
    && (IsAddress(name) ==> ':' !in s && '-' !in s)
  }

  lemma CleanIsKept(name: string, s: string)
    requires IsClean(name, s)
    ensures Normalize(name, s) == s && Strip(s) == s && |Utf8(s)| == |s| && Utf8(s)[|s| - 1] == s[|s| - 1] as int
  {
    CleanIsFixed(name, s);
    hide IsFolded, Normalize, IsAddress, Utf8, Strip;
    StripTrims(s);
    Utf8OfAscii(s);
  }

  lemma PlaceholderLengths(s: string)
    requires s in PLACEHOLDERS
    ensures |s| != 5 && |s| != 6 && |s| != 32 && (|s| == 11 || |s| == 12 ==> s[0] == 'n')
  {
  }

  lemma {:induction false} AlnumIsKept(s: string, i: nat)
    requires i < |s| && IsAlnum(s[i])
    ensures s[i] in AlnumOf(s)
  {
    hide IsAlnum;
    if i > 0 { AlnumIsKept(s[1..], i - 1); }
  }

  lemma NotDegenerate(s: string, i: nat)
    requires i < |s| && IsAlnum(s[i]) && s[i] != '0' && s[i] != 'f'
    ensures !IsDegenerate(s)
  {
    AlnumIsKept(s, i);
    hide IsAlnum, AlnumOf;
  }

  lemma {:induction false} OneField(s: string)
    requires '|' !in s
    ensures FieldLength(s) == |s| && Fields(s) == [s]
  {
    if s != "" { OneField(s[1..]); }
    assert s[..|s|] == s;
  }

  // ---------------------------------------------------------------- normalization yields the machine's factors

  lemma ShortIdentifier(name: string, s: string)
    requires name == "battery_serial" || name == "disk_serial"
    requires IsClean(name, s) && |s| == 5 && '|' !in s && IsAlnum(s[0]) && s[0] != '0' && s[0] != 'f'
    ensures IsSane(name, s) && Normalize(name, s) == s
  {
    CleanIsKept(name, s);
    OneField(s);
    NotDegenerate(s, 0);
    hide IsClean, PLACEHOLDERS, Strip, Normalize, Utf8, IsDegenerate, IsAlnum, Fields;
    IsNotMissing(s);
  }

  lemma IsNotMissing(s: string)
    requires Strip(s) == s != "" && (|s| == 5 || |s| == 6 || |s| == 32 || (|s| in {11, 12} && s[0] != 'n'))
    ensures !IsMissing(s)
  {
    hide PLACEHOLDERS, Strip;
    if s in PLACEHOLDERS { PlaceholderLengths(s); }
  }

  lemma FreeText(name: string, s: string)
    requires name == "cpu_id" || name == "firmware"
    requires IsClean(name, s) && 5 <= |s| <= 6
    ensures IsSane(name, s) && Normalize(name, s) == s
  {
    CleanIsKept(name, s);
    hide IsClean, PLACEHOLDERS, Strip, Normalize, Utf8, IsDegenerate, Fields;
    IsNotMissing(s);
  }

  lemma MachineGuid(s: string)
    requires s == Padded('b', 31, '0')
    ensures IsClean("machine_guid", s) && IsSane("machine_guid", s) && Normalize("machine_guid", s) == s
  {
    assert IsHex(s) && '-' !in s && IsClean("machine_guid", s);
    CleanIsKept("machine_guid", s);
    WithoutNothing(s, '-');
    NotDegenerate(s, 0);
    hide IsClean, PLACEHOLDERS, Strip, Normalize, Utf8, IsDegenerate, IsHex, Without;
    IsNotMissing(s);
    assert s[0] == 'b';
  }

  lemma NicIdentity(s: string)
    requires s == Padded('a', 11, '3')
    ensures IsClean("nic_identity", s) && IsSane("nic_identity", s) && Normalize("nic_identity", s) == s
  {
    assert IsHex(s) && '|' !in s && IsClean("nic_identity", s);
    CleanIsKept("nic_identity", s);
    OneField(s);
    NotDegenerate(s, 0);
    hide IsClean, PLACEHOLDERS, Strip, Normalize, Utf8, IsDegenerate, IsHex, Fields;
    IsNotMissing(s);
  }

  lemma RamTotal(s: string)
    requires s == "17179869184"
    ensures IsClean("ram_total", s) && IsSane("ram_total", s) && Normalize("ram_total", s) == s
  {
    assert IsClean("ram_total", s);
    CleanIsKept("ram_total", s);
    RamDigits(s);
    hide IsClean, PLACEHOLDERS, Strip, Normalize, Utf8, IsDecimal, Decimal;
    IsNotMissing(s);
  }

  lemma RamDigits(s: string)
    requires s == "17179869184"
    ensures IsDecimal(s) && Decimal(s) == 17179869184
  {
    hide IsDecimal, Decimal;
    EmptyDecimal();
    DecimalStep("", '1', "1");
    DecimalStep("1", '7', "17");
    DecimalStep("17", '1', "171");
    DecimalStep("171", '7', "1717");
    DecimalStep("1717", '9', "17179");
    DecimalStep("17179", '8', "171798");
    DecimalStep("171798", '6', "1717986");
    DecimalStep("1717986", '9', "17179869");
    DecimalStep("17179869", '1', "171798691");
    DecimalStep("171798691", '8', "1717986918");
    DecimalStep("1717986918", '4', "17179869184");
  }

  /** Every reported text passes normalization unchanged. */
  lemma ReportedIsKept(name: string)
    requires name in COLLECTED
    ensures var s := Reported(name);
      IsClean(name, s) && IsSane(name, s) && Normalize(name, s) == s && s[|s| - 1] as int == Ending(name)
  {
    assert IsClean(name, Reported(name)) by {
      ReportedIsClean(name);
    }
    hide IsSane, Normalize, IsClean;
    if name == "battery_serial" || name == "disk_serial" {
      ShortIdentifier(name, Reported(name));
    } else if name == "cpu_id" || name == "firmware" {
      FreeText(name, Reported(name));
    } else if name == "machine_guid" {
      MachineGuid(Reported(name));
    } else if name == "nic_identity" {
      NicIdentity(Reported(name));
    } else {
      RamTotal(Reported(name));
    }
  }

  lemma ReportedIsClean(name: string)
    requires name in COLLECTED
    ensures IsClean(name, Reported(name))
  {
    if name == "machine_guid" { MachineGuid(Reported(name)); }
    if name == "nic_identity" { NicIdentity(Reported(name)); }
    if name == "ram_total" { RamTotal(Reported(name)); }
    hide IsSane, Normalize;
  }

  lemma NewBatteryIsKept()
    ensures IsClean(FIRST, NEW_BATTERY) && IsSane(FIRST, NEW_BATTERY) && Normalize(FIRST, NEW_BATTERY) == NEW_BATTERY
  {
    assert IsClean(FIRST, NEW_BATTERY);
    ShortIdentifier(FIRST, NEW_BATTERY);
  }

  /** Both states of the machine are what normalizing collected text yields, with the persisted secret beside it. */
  lemma MachineIsCollected()
    ensures Enrolled() == NormalizedFactors(Collected())["slstore" := Hex(StoredSecret())]
    ensures WithNewBattery() == NormalizedFactors(CollectedLater())["slstore" := Hex(StoredSecret())]
  {
    hide Reported, Normalize, IsSane, COLLECTED, SLOT_NAMES, Utf8, FIRST, NEW_BATTERY, Hex, StoredSecret;
    forall name | name in COLLECTED
      ensures IsSane(name, Reported(name)) && Normalize(name, Reported(name)) == Reported(name)
    {
      ReportedIsKept(name);
    }
    NewBatteryIsKept();
    NamesOfFirst();
    forall name ensures name in SLOT_NAMES <==> name in COLLECTED || name == "slstore" {
      SlotIsCollected(name);
    }
    assert WithNewBattery() == NormalizedFactors(CollectedLater())["slstore" := Hex(StoredSecret())];
  }

  lemma SlotIsCollected(name: string)
    ensures name in SLOT_NAMES <==> name in COLLECTED || name == "slstore"
  {
  }

  lemma NamesOfFirst()
    ensures FIRST in COLLECTED && "slstore" !in COLLECTED && FIRST != "slstore"
  {
  }

  // ---------------------------------------------------------------- how the values end

  lemma {:induction false} HexEnding(b: bytes)
    requires b != []
    ensures Hex(b)[2 * |b| - 1] == HexDigit(b[|b| - 1] % 16)
  {
    hide HexDigit;
    if |b| > 1 { HexEnding(b[1..]); }
  }

  lemma ValueEnding(name: string)
    requires name in SLOT_NAMES
    ensures var v := Enrolled()[name]; v != [] && Last(v) == Ending(name)
  {
    hide Reported, COLLECTED, SLOT_NAMES, Utf8, Hex, Normalize, IsSane, Strip;
    SlotIsCollected(name);
    if name == "slstore" {
      HexEnding(StoredSecret());
    } else {
      ReportedIsKept(name);
      CleanIsKept(name, Reported(name));
    }
  }

  lemma DriftedEnding()
    ensures var v := WithNewBattery()[FIRST]; v != [] && Last(v) == Ending("slstore")
  {
    hide Utf8, Enrolled, IsClean, IsSane, Normalize, Strip;
    NewBatteryIsKept();
    CleanIsKept(FIRST, NEW_BATTERY);
  }

  lemma StoreIsASlot()
    ensures "slstore" in SLOT_NAMES && FIRST in SLOT_NAMES && FIRST != "slstore"
  {
  }

  /** Only the battery has changed. */
  lemma DriftedValues(name: string)
    requires name in SLOT_NAMES
    ensures Get(WithNewBattery(), name) != []
    ensures name != FIRST ==> Get(WithNewBattery(), name) == Get(Enrolled(), name)
  {
    hide SLOT_NAMES, FIRST, NEW_BATTERY, ValueOf, Utf8;
    DriftedEnding();
    ValueEnding(name);
  }

  lemma EndingsDiffer(a: string, b: string)
    requires a in SLOT_NAMES && b in SLOT_NAMES && a != b
    ensures Ending(a) != Ending(b)
  {
  }
}
