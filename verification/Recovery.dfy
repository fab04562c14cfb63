/** Recovering the key from current hardware (core.py:506-615). */
module Recovery {
  import opened Wrappers
  import opened Bytes
  import opened Field
  import opened Polynomials
  import opened Interpolation
  import opened Sharing
  import opened Search
  import opened Factors
  import opened HelperBlob

  // ---------------------------------------------------------------- points of present slots

  predicate IsPresent(factors: Raw, s: HelperSlot) {
    Get(factors, s.name) != []
  }

  function PointOf(sha: Sha256, factors: Raw, salt: byte, s: HelperSlot): Point
    requires IsSlotName(s.name)
  {
    Point(DeriveX(sha, s.name, Get(factors, s.name), salt), s.share, s.name)
  }

  /** The points of the present slots that are hard-locked, or of those that are not. */
  function Points(sha: Sha256, factors: Raw, salt: byte, slots: seq<HelperSlot>, locked: bool): (ps: seq<Point>)
    requires SlotNames(slots)
    ensures |ps| <= |slots|
  {
    if slots == [] then [] else
      var last := slots[|slots| - 1];
      Points(sha, factors, salt, slots[..|slots| - 1], locked)
      + if IsPresent(factors, last) && last.mandatory == locked then [PointOf(sha, factors, salt, last)] else []
  }

  function MissingMandatory(factors: Raw, slots: seq<HelperSlot>): seq<string> {
    if slots == [] then [] else
      var last := slots[|slots| - 1];
      MissingMandatory(factors, slots[..|slots| - 1])
      + if !IsPresent(factors, last) && last.mandatory then [last.name] else []
  }

  function PresentCount(factors: Raw, slots: seq<HelperSlot>): nat {
    if slots == [] then 0 else
      PresentCount(factors, slots[..|slots| - 1]) + if IsPresent(factors, slots[|slots| - 1]) then 1 else 0
  }

  // ---------------------------------------------------------------- diagnosis of a hard lock

  /** _is_mandatory: the flag of the first slot with that name. */
  function IsMandatory(slots: seq<HelperSlot>, name: string): bool {
    if slots == [] then false
    else if slots[0].name == name then slots[0].mandatory
    else IsMandatory(slots[1..], name)
  }

  /** The points not named name whose slot's flag is locked. */
  function Others(slots: seq<HelperSlot>, points: seq<Point>, name: string, locked: bool): seq<Point> {
    if points == [] then [] else
      var last := points[|points| - 1];
      Others(slots, points[..|points| - 1], name, locked)
      + if last.name != name && IsMandatory(slots, last.name) == locked then [last] else []
  }

  /** Whether the rest of the machine recovers once the named slot is left out. */
  function RecoversWithout(sha: Sha256, h: Helper, merged: seq<Point>, name: string): Result<bool> {
    var found :- FindOf(sha, Others(h.slots, merged, name, true), Others(h.slots, merged, name, false),
                        h.threshold, h.checkWord);
    Ok(found.Some?)
  }

  /** The first hard-locked slot, in stored order from i, whose removal lets the rest recover. */
  function Culprit(sha: Sha256, h: Helper, merged: seq<Point>, i: nat): Result<string>
    requires i <= |h.slots|
    decreases |h.slots| - i
  {
    if i == |h.slots| then Ok("")
    else if !h.slots[i].mandatory then Culprit(sha, h, merged, i + 1)
    else
      var recovers :- RecoversWithout(sha, h, merged, h.slots[i].name);
      if recovers then Ok(h.slots[i].name) else Culprit(sha, h, merged, i + 1)
  }

  // ---------------------------------------------------------------- live and dead slots

  /** The point (x, share) lies on all four polynomials through the points. */
  predicate OnCurve(points: seq<Point>, x: Elem, share: Key) {
    forall l :: 0 <= l < 4 ==> Interpolated(Xs(points), Ys(points, l), x) == share[l]
  }

  predicate HasName(points: seq<Point>, name: string) {
    exists i :: 0 <= i < |points| && points[i].name == name
  }

  predicate IsLive(sha: Sha256, factors: Raw, salt: byte, mandatory: seq<Point>, subset: Subset, s: HelperSlot)
    requires IsSlotName(s.name)
  {
    || s.name in subset.names
    || HasName(mandatory, s.name)
    || (IsPresent(factors, s)
        && OnCurve(subset.points, DeriveX(sha, s.name, Get(factors, s.name), salt), s.share))
  }

  /** The names of the slots whose liveness is as asked, in stored (sorted) order. */
  function Classified(sha: Sha256, factors: Raw, salt: byte, mandatory: seq<Point>, subset: Subset,
                      slots: seq<HelperSlot>, live: bool): seq<string>
    requires SlotNames(slots)
  {
    if slots == [] then [] else
      var last := slots[|slots| - 1];
      Classified(sha, factors, salt, mandatory, subset, slots[..|slots| - 1], live)
      + if IsLive(sha, factors, salt, mandatory, subset, last) == live then [last.name] else []
  }

  // ---------------------------------------------------------------- the result

  datatype Reason = Corrupt | Locked | Drifted

  datatype RecoverResult =
    | Recovered(key: Key, hwid: bytes, live: seq<string>, dead: seq<string>)
    | Refused(reason: Reason, present: nat, needed: nat, missing: seq<string>)
  {
    predicate Pending() {
      Recovered? && dead != []
    }
  }

  lemma FoundKey(sha: Sha256, mandatory: seq<Point>, optional: seq<Point>, t: nat, cw: bytes)
    requires FindOf(sha, mandatory, optional, t, cw).Ok? && FindOf(sha, mandatory, optional, t, cw).value.Some?
    ensures var r := KeyOf(FindOf(sha, mandatory, optional, t, cw).value.value.points);
      r.Ok? && CheckWord(sha, r.value) == cw
  {
    SweepIsExact(sha, mandatory, optional, t, cw);
    hide KeyOf, CheckWord, Pick;
    var c := SweepOf(sha, mandatory, optional, t, cw).combo;
    assert IsFirst(sha, mandatory, optional, t, cw, c, Passes);
  }

  function RecoverHelper(sha: Sha256, h: Helper, factors: Raw): Result<RecoverResult>
    requires SlotNames(h.slots)
  {
    var mandatory := Points(sha, factors, h.salt, h.slots, true);
    var optional := Points(sha, factors, h.salt, h.slots, false);
    var found :- FindOf(sha, mandatory, optional, h.threshold, h.checkWord);
    var missing, present := MissingMandatory(factors, h.slots), PresentCount(factors, h.slots);
    if missing != [] then Ok(Refused(Locked, present, h.threshold, missing))
    else if found.None? then
      var culprit :- Culprit(sha, h, mandatory + optional, 0);
      if culprit != "" then Ok(Refused(Locked, present, h.threshold, [culprit]))
      else Ok(Refused(Drifted, present, h.threshold, []))
    else
      FoundKey(sha, mandatory, optional, h.threshold, h.checkWord);
      var k := KeyOf(found.value.points).value;
      Ok(Recovered(k, HwidOf(sha, k),
                   Classified(sha, factors, h.salt, mandatory, found.value, h.slots, true),
                   Classified(sha, factors, h.salt, mandatory, found.value, h.slots, false)))
  }

  lemma ParsedNames(sha: Sha256, blob: bytes)
    requires Parse(sha, blob).Ok?
    ensures SlotNames(Parse(sha, blob).value.slots)
  {
    EncodeOfParse(sha, blob);
  }

  /** The value of recover_core. */
  function Recover(sha: Sha256, blob: bytes, factors: Raw): Result<RecoverResult> {
    var parsed := Parse(sha, blob);
    if parsed == Err(CorruptHelperError) then Ok(Refused(Corrupt, 0, 0, []))
    else
      var h :- parsed;
      ParsedNames(sha, blob);
      RecoverHelper(sha, h, factors)
  }

  // ---------------------------------------------------------------- the loops of recover_core

  method CollectPoints(sha: Sha256, h: Helper, factors: Raw)
    returns (mandatory: seq<Point>, optional: seq<Point>, missing: seq<string>, present: nat)
    requires SlotNames(h.slots)
    ensures mandatory == Points(sha, factors, h.salt, h.slots, true)
    ensures optional == Points(sha, factors, h.salt, h.slots, false)
    ensures missing == MissingMandatory(factors, h.slots) && present == PresentCount(factors, h.slots)
  {
    hide PointOf, IsSlotName, IsPresent;
    mandatory, optional, missing, present := [], [], [], 0;
    for i := 0 to |h.slots|
      invariant mandatory == Points(sha, factors, h.salt, h.slots[..i], true)
      invariant optional == Points(sha, factors, h.salt, h.slots[..i], false)
      invariant missing == MissingMandatory(factors, h.slots[..i]) && present == PresentCount(factors, h.slots[..i])
    {
      var slot := h.slots[i];
      assert h.slots[..i + 1][..i] == h.slots[..i];
      if !IsPresent(factors, slot) {
        if slot.mandatory { missing := missing + [slot.name]; }
      } else {
        present := present + 1;
        var point := PointOf(sha, factors, h.salt, slot);
        if slot.mandatory { mandatory := mandatory + [point]; } else { optional := optional + [point]; }
      }
    }
    assert h.slots[..|h.slots|] == h.slots;
  }

  /** The two comprehensions that leave one slot out of the merged points. */
  method LeaveOut(slots: seq<HelperSlot>, merged: seq<Point>, name: string)
    returns (mandatory: seq<Point>, optional: seq<Point>)
    ensures mandatory == Others(slots, merged, name, true) && optional == Others(slots, merged, name, false)
  {
    mandatory, optional := [], [];
    for i := 0 to |merged|
      invariant mandatory == Others(slots, merged[..i], name, true)
      invariant optional == Others(slots, merged[..i], name, false)
    {
      assert merged[..i + 1][..i] == merged[..i];
      if merged[i].name != name {
        if IsMandatory(slots, merged[i].name) { mandatory := mandatory + [merged[i]]; }
        else { optional := optional + [merged[i]]; }
      }
    }
    assert merged[..|merged|] == merged;
  }

  /** The diagnostic loop: every hard-locked slot is visited, the first culprit is kept. */
  method Diagnose(sha: Sha256, h: Helper, merged: seq<Point>) returns (r: Result<string>)
    requires forall i :: 0 <= i < |h.slots| ==> h.slots[i].name != ""
    ensures r == Culprit(sha, h, merged, 0)
  {
    hide FindOf, Others;
    var culprit := "";
    for i := 0 to |h.slots|
      invariant culprit == "" ==> Culprit(sha, h, merged, 0) == Culprit(sha, h, merged, i)
      invariant culprit != "" ==> Culprit(sha, h, merged, 0) == Ok(culprit)
    {
      if h.slots[i].mandatory {
        var mand2, opt2 := LeaveOut(h.slots, merged, h.slots[i].name);
        if culprit == "" {
          var found := FindRecoveringSubset(sha, mand2, opt2, h.threshold, h.checkWord);
          if found.Err? { return Err(found.error); }
          if found.value.Some? { culprit := h.slots[i].name; }
        }
      }
    }
    return Ok(culprit);
  }

  /** all(_evaluate_at(...) == slot.share[limb] for limb in range(4)) */
  method CheckOnCurve(points: seq<Point>, x: Elem, share: Key) returns (onCurve: bool)
    requires Distinct(Xs(points))
    ensures onCurve == OnCurve(points, x, share)
  {
    hide Interpolated;
    for limb := 0 to 4
      invariant forall l :: 0 <= l < limb ==> Interpolated(Xs(points), Ys(points, l), x) == share[l]
    {
      var y := EvaluateAt(Xs(points), Ys(points, limb), x);
      if y.value != share[limb] { return false; }
    }
    return true;
  }

  method Classify(sha: Sha256, h: Helper, factors: Raw, mandatory: seq<Point>, subset: Subset)
    returns (live: seq<string>, dead: seq<string>)
    requires SlotNames(h.slots) && Distinct(Xs(subset.points))
    ensures live == Classified(sha, factors, h.salt, mandatory, subset, h.slots, true)
    ensures dead == Classified(sha, factors, h.salt, mandatory, subset, h.slots, false)
  {
    hide OnCurve, DeriveX, IsSlotName, IsPresent, HasName;
    live, dead := [], [];
    for i := 0 to |h.slots|
      invariant live == Classified(sha, factors, h.salt, mandatory, subset, h.slots[..i], true)
      invariant dead == Classified(sha, factors, h.salt, mandatory, subset, h.slots[..i], false)
    {
      var slot := h.slots[i];
      assert h.slots[..i + 1][..i] == h.slots[..i];
      SlotNameIsAscii(slot);
      if slot.name in subset.names || HasName(mandatory, slot.name) {
        live := live + [slot.name];
      } else if !IsPresent(factors, slot) {
        dead := dead + [slot.name];
      } else {
        var xq := DeriveX(sha, slot.name, Get(factors, slot.name), h.salt);
        var onCurve := CheckOnCurve(subset.points, xq, slot.share);
        if onCurve { live := live + [slot.name]; } else { dead := dead + [slot.name]; }
      }
    }
    assert h.slots[..|h.slots|] == h.slots;
  }

  lemma SlotNameIsAscii(s: HelperSlot)
    requires IsSlotName(s.name)
    ensures IsAscii(s.name) && s.name != ""
  {
  }

  /** recover_core */
  method RecoverCore(sha: Sha256, blob: bytes, factors: Raw) returns (r: Result<RecoverResult>)
    ensures r == Recover(sha, blob, factors)
  {
    hide Parse, FindOf, Culprit, KeyOf, CheckWord, HwidOf, Points, MissingMandatory, PresentCount, Classified;
    var parsed := ParseHelper(sha, blob);
    if parsed == Err(CorruptHelperError) { return Ok(Refused(Corrupt, 0, 0, [])); }
    if parsed.Err? { return Err(parsed.error); }
    var h := parsed.value;
    ParsedNames(sha, blob);
    var mandatory, optional, missing, present := CollectPoints(sha, h, factors);
    var found := FindRecoveringSubset(sha, mandatory, optional, h.threshold, h.checkWord);
    if found.Err? { return Err(found.error); }
    if missing != [] { return Ok(Refused(Locked, present, h.threshold, missing)); }
    if found.value.None? {
      forall i | 0 <= i < |h.slots| ensures h.slots[i].name != "" { SlotNameIsAscii(h.slots[i]); }
      var culprit := Diagnose(sha, h, mandatory + optional);
      if culprit.Err? { return Err(culprit.error); }
      if culprit.value != "" { return Ok(Refused(Locked, present, h.threshold, [culprit.value])); }
      return Ok(Refused(Drifted, present, h.threshold, []));
    }
    FoundKey(sha, mandatory, optional, h.threshold, h.checkWord);
    var subset := found.value.value;
    var k := KeyFromPoints(subset.points);
    var live, dead := Classify(sha, h, factors, mandatory, subset);
    return Ok(Recovered(k.value, HwidOf(sha, k.value), live, dead));
  }
}
