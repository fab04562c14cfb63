/** Factor names, the projection of raw signals, and hard-lock names (core.py:224-306). */
module Factors {
  import opened Bytes

  type Raw = map<string, bytes>

  const LEGACY_NORM_VERSION := 1
  const CURRENT_NORM_VERSION := 2

  const LEGACY_FACTOR_NAMES: set<string> := {
    "slstore", "machine_guid", "product_uuid", "board_serial", "cpu_id", "disk_serial", "mac",
    "ram_total", "volume_id", "computer_name", "firmware", "gpu_id", "monitor_edid", "os_build"
  }

  const CURRENT_DIRECT_FACTOR_NAMES: set<string> := {
    "slstore", "machine_guid", "cpu_id", "disk_serial", "ram_total", "volume_id", "firmware",
    "tpm_ek", "memory_modules", "nic_identity", "battery_serial"
  }

  const CURRENT_GROUP_NAMES: set<string> := {"platform_identity", "display_group", "software_environment"}

  /** The slot names a helper of the given schema may hold. */
  function Allowed(norm: int): set<string> {
    if norm == LEGACY_NORM_VERSION then LEGACY_FACTOR_NAMES
    else CURRENT_DIRECT_FACTOR_NAMES + CURRENT_GROUP_NAMES
  }

  predicate IsSlotName(name: string) {
    IsAscii(name) && 1 <= |name| <= 20
  }

  lemma LegacyNames(name: string)
    requires name in LEGACY_FACTOR_NAMES
    ensures IsSlotName(name)
  {
  }

  lemma DirectNames(name: string)
    requires name in CURRENT_DIRECT_FACTOR_NAMES
    ensures IsSlotName(name)
  {
  }

  lemma GroupNames(name: string)
    requires name in CURRENT_GROUP_NAMES
    ensures IsSlotName(name)
  {
  }

  lemma AllowedNames(norm: int, name: string)
    requires name in Allowed(norm)
    ensures IsSlotName(name)
  {
    hide IsSlotName;
    if norm == LEGACY_NORM_VERSION {
      LegacyNames(name);
    } else if name in CURRENT_GROUP_NAMES {
      GroupNames(name);
    } else {
      DirectNames(name);
    }
  }

  lemma UnionSize(a: set<string>, b: set<string>)
    ensures |a + b| <= |a| + |b|
  {
    assert a + b == a + (b - a);
  }

  lemma LegacySize()
    ensures |LEGACY_FACTOR_NAMES| <= 14
  {
    var a := {"slstore", "machine_guid", "product_uuid", "board_serial", "cpu_id", "disk_serial", "mac"};
    var b := {"ram_total", "volume_id", "computer_name", "firmware", "gpu_id", "monitor_edid", "os_build"};
    UnionSize(a, b);
    assert LEGACY_FACTOR_NAMES == a + b;
  }

  lemma CurrentSize()
    ensures |CURRENT_DIRECT_FACTOR_NAMES + CURRENT_GROUP_NAMES| <= 14
  {
    var a := {"slstore", "machine_guid", "cpu_id", "disk_serial", "ram_total"};
    var b := {"volume_id", "firmware", "tpm_ek", "memory_modules", "nic_identity", "battery_serial"};
    UnionSize(a, b);
    assert CURRENT_DIRECT_FACTOR_NAMES == a + b;
    UnionSize(CURRENT_DIRECT_FACTOR_NAMES, CURRENT_GROUP_NAMES);
  }

  lemma AllowedSize(norm: int)
    ensures |Allowed(norm)| <= 14
  {
    LegacySize();
    CurrentSize();
    hide LEGACY_FACTOR_NAMES, CURRENT_DIRECT_FACTOR_NAMES, CURRENT_GROUP_NAMES;
  }

  // ---------------------------------------------------------------- order on names

  /** Python's order on str. */
  predicate Less(a: string, b: string) {
    b != "" && (a == "" || a[0] < b[0] || (a[0] == b[0] && Less(a[1..], b[1..])))
  }

  lemma {:induction false} LessIrreflexive(a: string)
    ensures !Less(a, a)
  {
    if a != "" { LessIrreflexive(a[1..]); }
  }

  lemma {:induction false} LessTransitive(a: string, b: string, c: string)
    requires Less(a, b) && Less(b, c)
    ensures Less(a, c)
  {
    if a != "" && a[0] == b[0] == c[0] { LessTransitive(a[1..], b[1..], c[1..]); }
  }

  lemma {:induction false} LessTotal(a: string, b: string)
    ensures a == b || Less(a, b) || Less(b, a)
  {
    if a != "" && b != "" && a[0] == b[0] {
      LessTotal(a[1..], b[1..]);
      assert a == [a[0]] + a[1..] && b == [b[0]] + b[1..];
    }
  }

  predicate Ascending(names: seq<string>) {
    forall i, j :: 0 <= i < j < |names| ==> Less(names[i], names[j])
  }

  predicate IsLeast(a: string, s: set<string>) {
    a in s && forall b :: b in s && b != a ==> Less(a, b)
  }

  lemma {:induction false} LeastExists(s: set<string>) returns (a: string)
    requires s != {}
    ensures IsLeast(a, s)
    decreases |s|
  {
    var x :| x in s;
    if s == {x} {
      a := x;
    } else {
      var r := s - {x};
      assert s == r + {x};
      a := LeastExists(r);
      LessTotal(a, x);
      if Less(x, a) {
        forall b | b in s && b != x ensures Less(x, b) {
          if b != a { LessTransitive(x, a, b); }
        }
        a := x;
      }
    }
  }

  lemma LeastUnique(s: set<string>, a: string, b: string)
    requires IsLeast(a, s) && IsLeast(b, s)
    ensures a == b
  {
    if a != b {
      LessTransitive(a, b, a);
      LessIrreflexive(a);
    }
  }

  lemma OneLeast(s: set<string>)
    requires s != {}
    ensures exists a :: IsLeast(a, s)
    ensures forall a, b :: IsLeast(a, s) && IsLeast(b, s) ==> a == b
  {
    var w := LeastExists(s);
    forall a, b | IsLeast(a, s) && IsLeast(b, s) ensures a == b {
      LeastUnique(s, a, b);
    }
  }

  function Least(s: set<string>): (a: string)
    requires s != {}
    ensures IsLeast(a, s)
  {
    OneLeast(s);
    var a :| a in s && IsLeast(a, s);
    a
  }

  /** sorted(s) */
  function Sorted(s: set<string>): (r: seq<string>)
    ensures forall a :: a in r <==> a in s
    ensures |r| == |s|
    decreases |s|
  {
    if s == {} then [] else
      var a := Least(s);
      [a] + Sorted(s - {a})
  }

  lemma {:induction false} SortedAscends(s: set<string>)
    ensures Ascending(Sorted(s))
    decreases |s|
  {
    if s != {} {
      var a := Least(s);
      SortedAscends(s - {a});
      forall b | b in Sorted(s - {a}) ensures Less(a, b) {
        assert b in s && b != a;
      }
    }
  }

  // ---------------------------------------------------------------- groups of correlated signals

  /** raw.get(name, "") */
  function Get(raw: Raw, name: string): bytes {
    if name in raw then raw[name] else []
  }

  function Members(group: string): seq<string> {
    if group == "platform_identity" then ["system_uuid", "board_serial", "system_serial", "chassis_serial"]
    else if group == "display_group" then ["gpu_id", "monitor_edid"]
    else if group == "software_environment" then ["computer_name", "os_build"]
    else []
  }

  predicate AsciiNames(names: seq<string>) {
    forall i :: 0 <= i < |names| ==> IsAscii(names[i])
  }

  lemma MembersAscii(group: string)
    ensures AsciiNames(Members(group))
  {
    assert IsAscii("system_uuid") && IsAscii("board_serial");
    assert IsAscii("system_serial") && IsAscii("chassis_serial");
    assert IsAscii("gpu_id") && IsAscii("monitor_edid");
    assert IsAscii("computer_name") && IsAscii("os_build");
    hide IsAscii;
  }

  /** The part of the pre-hash encoding that lists the members with their values. */
  function MemberBytes(members: seq<string>, raw: Raw): bytes
    requires AsciiNames(members)
  {
    if members == [] then []
    else Ascii(members[0]) + [0] + (Get(raw, members[0]) + [0] + MemberBytes(members[1..], raw))
  }

  function GroupEncoding(group: string, members: seq<string>, raw: Raw): bytes
    requires IsAscii(group) && AsciiNames(members)
  {
    Ascii("SL-HWID-GROUP2") + [0] + Ascii(group) + [0] + MemberBytes(members, raw)
  }

  predicate AnyPresent(members: seq<string>, raw: Raw) {
    exists i :: 0 <= i < |members| && Get(raw, members[i]) != []
  }

  /** _group_value */
  function GroupValue(sha: Sha256, group: string, raw: Raw): bytes
    requires IsAscii(group)
  {
    MembersAscii(group);
    if AnyPresent(Members(group), raw) then Hex(sha(GroupEncoding(group, Members(group), raw))) else []
  }

  /** normalize removes every NUL (core.py:181). */
  predicate NulFree(raw: Raw) {
    forall name :: name in raw ==> 0 !in raw[name]
  }

  lemma {:induction false} MemberBytesInjective(members: seq<string>, raw: Raw, other: Raw)
    requires AsciiNames(members) && NulFree(raw) && NulFree(other)
    requires MemberBytes(members, raw) == MemberBytes(members, other)
    ensures forall i :: 0 <= i < |members| ==> Get(raw, members[i]) == Get(other, members[i])
  {
    if members != [] {
      var m, rest := members[0], members[1..];
      var v, w := Get(raw, m), Get(other, m);
      var s, t := v + [0] + MemberBytes(rest, raw), w + [0] + MemberBytes(rest, other);
      assert (Ascii(m) + [0] + s)[|m| + 1..] == s && (Ascii(m) + [0] + t)[|m| + 1..] == t;
      SplitAtNul(v, w, MemberBytes(rest, raw), MemberBytes(rest, other));
      MemberBytesInjective(rest, raw, other);
    }
  }

  /** The pre-hash encoding of a group determines the value of every member. */
  lemma GroupEncodingInjective(group: string, members: seq<string>, raw: Raw, other: Raw)
    requires IsAscii(group) && AsciiNames(members) && NulFree(raw) && NulFree(other)
    requires GroupEncoding(group, members, raw) == GroupEncoding(group, members, other)
    ensures forall i :: 0 <= i < |members| ==> Get(raw, members[i]) == Get(other, members[i])
  {
    var front := Ascii("SL-HWID-GROUP2") + [0] + Ascii(group) + [0];
    assert (front + MemberBytes(members, raw))[|front|..] == MemberBytes(members, raw);
    assert (front + MemberBytes(members, other))[|front|..] == MemberBytes(members, other);
    MemberBytesInjective(members, raw, other);
  }

  // ---------------------------------------------------------------- projection

  /** The value of one slot of the current schema. */
  function CurrentValue(sha: Sha256, raw: Raw, name: string): bytes {
    if name in CURRENT_GROUP_NAMES then
      GroupNames(name);
      GroupValue(sha, name, raw)
    else Get(raw, name)
  }

  /** project_factors for the two schemas a helper can name. */
  function Project(sha: Sha256, raw: Raw, norm: int): (r: Raw)
    ensures r.Keys <= Allowed(norm)
    ensures forall name :: name in r ==> r[name] != []
  {
    if norm == LEGACY_NORM_VERSION then
      map name | name in LEGACY_FACTOR_NAMES && Get(raw, name) != [] :: Get(raw, name)
    else
      map name | name in CURRENT_DIRECT_FACTOR_NAMES + CURRENT_GROUP_NAMES && CurrentValue(sha, raw, name) != []
        :: CurrentValue(sha, raw, name)
  }

  /** The two raw maps agree on every signal but the members of the group. */
  ghost predicate DifferOnlyIn(raw: Raw, other: Raw, group: string) {
    forall name :: (name in raw || name in other) && name !in Members(group) ==> Get(raw, name) == Get(other, name)
  }

  lemma GroupsAreDisjoint(group: string, name: string)
    requires group in CURRENT_GROUP_NAMES && name in CURRENT_DIRECT_FACTOR_NAMES + CURRENT_GROUP_NAMES && name != group
    ensures name !in Members(group)
    ensures forall i :: 0 <= i < |Members(name)| ==> Members(name)[i] !in Members(group)
  {
  }

  lemma {:induction false} SameMembers(members: seq<string>, raw: Raw, other: Raw)
    requires AsciiNames(members)
    requires forall i :: 0 <= i < |members| ==> Get(raw, members[i]) == Get(other, members[i])
    ensures MemberBytes(members, raw) == MemberBytes(members, other)
    ensures AnyPresent(members, raw) <==> AnyPresent(members, other)
  {
    if members != [] {
      SameMembers(members[1..], raw, other);
    }
  }

  lemma ProjectedValue(sha: Sha256, raw: Raw, name: string)
    ensures Get(Project(sha, raw, CURRENT_NORM_VERSION), name) ==
      if name in CURRENT_DIRECT_FACTOR_NAMES + CURRENT_GROUP_NAMES then CurrentValue(sha, raw, name) else []
  {
    hide CurrentValue, CURRENT_DIRECT_FACTOR_NAMES, CURRENT_GROUP_NAMES, Allowed;
  }

  /** In the legacy schema each slot's value is its raw signal, whatever the signal, and no other name is projected. */
  lemma LegacyProjectedValue(sha: Sha256, raw: Raw, name: string)
    ensures Get(Project(sha, raw, LEGACY_NORM_VERSION), name) ==
      if name in LEGACY_FACTOR_NAMES then Get(raw, name) else []
    ensures |LEGACY_FACTOR_NAMES| == 14
  {
    LegacyCount();
    hide LEGACY_FACTOR_NAMES;
  }

  lemma LegacyCount()
    ensures |LEGACY_FACTOR_NAMES| == 14
  {
    var a := {"slstore", "machine_guid", "product_uuid", "board_serial", "cpu_id", "disk_serial", "mac"};
    var b := {"ram_total", "volume_id", "computer_name", "firmware", "gpu_id", "monitor_edid", "os_build"};
    SevenNames(["slstore", "machine_guid", "product_uuid", "board_serial", "cpu_id", "disk_serial", "mac"], a);
    SevenNames(["ram_total", "volume_id", "computer_name", "firmware", "gpu_id", "monitor_edid", "os_build"], b);
    assert a !! b;
    assert LEGACY_FACTOR_NAMES == a + b;
  }

  lemma SevenNames(names: seq<string>, all: set<string>)
    requires |names| == 7 && (forall i, j :: 0 <= i < j < 7 ==> names[i] != names[j])
    requires all == {names[0], names[1], names[2], names[3], names[4], names[5], names[6]}
    ensures |all| == 7
  {
  }

  lemma {:induction false} HexInjective(a: bytes, b: bytes)
    requires Hex(a) == Hex(b)
    ensures a == b
  {
    if a != [] && b != [] {
      DigitsInjective(a[0], b[0], Hex(a[1..]), Hex(b[1..]));
      HexInjective(a[1..], b[1..]);
      assert a == [a[0]] + a[1..] && b == [b[0]] + b[1..];
    }
  }

  lemma DigitsInjective(a: byte, b: byte, s: bytes, t: bytes)
    requires [HexDigit(a / 16), HexDigit(a % 16)] + s == [HexDigit(b / 16), HexDigit(b % 16)] + t
    ensures a == b && s == t
  {
    var x, y := [HexDigit(a / 16), HexDigit(a % 16)] + s, [HexDigit(b / 16), HexDigit(b % 16)] + t;
    assert x[0] == y[0] && x[1] == y[1] && x[2..] == s && y[2..] == t;
  }

  /**
   A group sees every change of its members: if one differs between two sets of signals, so do the
   group's values, unless the hash collides on the two encodings. It has a value exactly while some member has one.
   */
  lemma GroupChangeIsSeen(sha: Sha256, group: string, raw: Raw, other: Raw, i: nat)
    requires group in CURRENT_GROUP_NAMES && i < |Members(group)| && NulFree(raw) && NulFree(other)
    requires Get(raw, Members(group)[i]) != Get(other, Members(group)[i])
    ensures IsAscii(group) && AsciiNames(Members(group))
    ensures var a, b := GroupEncoding(group, Members(group), raw), GroupEncoding(group, Members(group), other);
      && a != b
      && (sha(a) != sha(b) ==>
            Get(Project(sha, raw, CURRENT_NORM_VERSION), group)
            != Get(Project(sha, other, CURRENT_NORM_VERSION), group))
    ensures Get(Project(sha, raw, CURRENT_NORM_VERSION), group) != [] <==>
      exists j :: 0 <= j < |Members(group)| && Get(raw, Members(group)[j]) != []
  {
    hide CURRENT_DIRECT_FACTOR_NAMES, CURRENT_GROUP_NAMES, Project, Members, IsAscii, GroupEncoding, AsciiNames;
    GroupNames(group);
    MembersAscii(group);
    ProjectedValue(sha, raw, group);
    ProjectedValue(sha, other, group);
    var a, b := GroupEncoding(group, Members(group), raw), GroupEncoding(group, Members(group), other);
    if a == b { GroupEncodingInjective(group, Members(group), raw, other); }
    SeenByHash(sha, group, raw, other, i);
  }

  lemma SeenByHash(sha: Sha256, group: string, raw: Raw, other: Raw, i: nat)
    requires IsAscii(group) && i < |Members(group)| && AsciiNames(Members(group))
    requires Get(raw, Members(group)[i]) != Get(other, Members(group)[i])
    ensures
      sha(GroupEncoding(group, Members(group), raw)) != sha(GroupEncoding(group, Members(group), other)) ==>
        GroupValue(sha, group, raw) != GroupValue(sha, group, other)
    ensures GroupValue(sha, group, raw) != [] <==>
      exists j :: 0 <= j < |Members(group)| && Get(raw, Members(group)[j]) != []
  {
    hide Members, IsAscii, GroupEncoding, AsciiNames, Get, Hex;
    var a, b := GroupEncoding(group, Members(group), raw), GroupEncoding(group, Members(group), other);
    if Hex(sha(a)) == Hex(sha(b)) { HexInjective(sha(a), sha(b)); }
  }

  /** Every signal of the current schema votes in exactly one slot: its own, or the one of its group. */
  lemma EverySignalVotes(name: string)
    requires name in {
      "slstore", "machine_guid", "cpu_id", "disk_serial", "ram_total", "volume_id", "firmware", "tpm_ek",
      "memory_modules", "nic_identity", "battery_serial", "system_uuid", "board_serial", "system_serial",
      "chassis_serial", "gpu_id", "monitor_edid", "computer_name", "os_build"}
    ensures CurrentMandatoryName(name) in CURRENT_DIRECT_FACTOR_NAMES + CURRENT_GROUP_NAMES
    ensures name in CURRENT_DIRECT_FACTOR_NAMES ==> CurrentMandatoryName(name) == name
    ensures name !in CURRENT_DIRECT_FACTOR_NAMES ==>
      CurrentMandatoryName(name) in CURRENT_GROUP_NAMES && name in Members(CurrentMandatoryName(name))
  {
  }

  /** Correlated signals cast one vote: a change inside one group moves at most that group's slot. */
  lemma OneVote(sha: Sha256, raw: Raw, other: Raw, group: string)
    requires group in CURRENT_GROUP_NAMES && DifferOnlyIn(raw, other, group)
    ensures forall name :: name != group ==>
      Get(Project(sha, raw, CURRENT_NORM_VERSION), name) == Get(Project(sha, other, CURRENT_NORM_VERSION), name)
  {
    hide CurrentValue, CURRENT_DIRECT_FACTOR_NAMES, CURRENT_GROUP_NAMES, Project, Get, DifferOnlyIn;
    forall name | name != group
      ensures Get(Project(sha, raw, CURRENT_NORM_VERSION), name) == Get(Project(sha, other, CURRENT_NORM_VERSION), name)
    {
      ProjectedValue(sha, raw, name);
      ProjectedValue(sha, other, name);
      if name in CURRENT_DIRECT_FACTOR_NAMES + CURRENT_GROUP_NAMES {
        SameCurrentValue(sha, raw, other, group, name);
      }
    }
  }

  lemma SameCurrentValue(sha: Sha256, raw: Raw, other: Raw, group: string, name: string)
    requires group in CURRENT_GROUP_NAMES && DifferOnlyIn(raw, other, group)
    requires name in CURRENT_DIRECT_FACTOR_NAMES + CURRENT_GROUP_NAMES && name != group
    ensures CurrentValue(sha, raw, name) == CurrentValue(sha, other, name)
  {
    GroupsAreDisjoint(group, name);
    MembersAscii(name);
    hide CURRENT_DIRECT_FACTOR_NAMES, Members;
    assert Get(raw, name) == Get(other, name);
    forall i | 0 <= i < |Members(name)| ensures Get(raw, Members(name)[i]) == Get(other, Members(name)[i]) {
    }
    SameMembers(Members(name), raw, other);
  }

  // ---------------------------------------------------------------- hard-lock names

  function CurrentMandatoryName(name: string): string {
    if name in {"product_uuid", "board_serial", "system_uuid", "system_serial", "chassis_serial"}
      then "platform_identity"
    else if name in {"gpu_id", "monitor_edid"} then "display_group"
    else if name in {"computer_name", "os_build"} then "software_environment"
    else if name == "mac" then "nic_identity"
    else name
  }

  /** A hard lock on a raw signal becomes a lock on the one group that the signal votes in. */
  lemma LockFollowsSignal(group: string, i: nat)
    requires group in CURRENT_GROUP_NAMES && i < |Members(group)|
    ensures CurrentMandatoryName(Members(group)[i]) == group && CurrentMandatoryName(group) == group
  {
  }

  /** Where a hard lock of the legacy schema goes: the slot that the same signal, or its successor, votes in. */
  lemma LegacyLockTargets()
    ensures CurrentMandatoryName("product_uuid") == "platform_identity"
    ensures CurrentMandatoryName("board_serial") == "platform_identity"
    ensures CurrentMandatoryName("gpu_id") == "display_group" && CurrentMandatoryName("monitor_edid") == "display_group"
    ensures CurrentMandatoryName("computer_name") == "software_environment"
    ensures CurrentMandatoryName("os_build") == "software_environment"
    ensures CurrentMandatoryName("mac") == "nic_identity"
    ensures forall name ::
      name in LEGACY_FACTOR_NAMES * CURRENT_DIRECT_FACTOR_NAMES ==> CurrentMandatoryName(name) == name
    ensures LEGACY_FACTOR_NAMES - CURRENT_DIRECT_FACTOR_NAMES ==
      {"product_uuid", "board_serial", "mac", "computer_name", "gpu_id", "monitor_edid", "os_build"}
  {
  }

  function MapMandatory(names: set<string>): set<string> {
    set name | name in names :: CurrentMandatoryName(name)
  }

  lemma CurrentNameIsFixed(name: string)
    ensures CurrentMandatoryName(CurrentMandatoryName(name)) == CurrentMandatoryName(name)
    ensures name in Allowed(CURRENT_NORM_VERSION) ==> CurrentMandatoryName(name) == name
    ensures name in Allowed(LEGACY_NORM_VERSION) ==> CurrentMandatoryName(name) in Allowed(CURRENT_NORM_VERSION)
  {
  }

  /** Mapping hard locks to the current schema is idempotent, and the identity on current names. */
  lemma MapMandatoryIdempotent(names: set<string>)
    ensures MapMandatory(MapMandatory(names)) == MapMandatory(names)
    ensures names <= Allowed(CURRENT_NORM_VERSION) ==> MapMandatory(names) == names
    ensures "slstore" in names ==> "slstore" in MapMandatory(names)
  {
    forall name ensures CurrentMandatoryName(CurrentMandatoryName(name)) == CurrentMandatoryName(name)
      && (name in Allowed(CURRENT_NORM_VERSION) ==> CurrentMandatoryName(name) == name)
    {
      CurrentNameIsFixed(name);
    }
    assert CurrentMandatoryName("slstore") == "slstore";
    hide CurrentMandatoryName, Allowed;
    var once := MapMandatory(names);
    forall a | a in once ensures a in MapMandatory(once) {
      assert CurrentMandatoryName(a) == a;
    }
    if names <= Allowed(CURRENT_NORM_VERSION) {
      forall a | a in names ensures a in once {
        assert CurrentMandatoryName(a) == a;
      }
    }
  }
}
