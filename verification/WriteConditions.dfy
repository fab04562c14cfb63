/**
 Exactly when a helper can be written over current factors, at enrolment and at refresh
 (core.py:152-161, 305-332, 618-633).
 */
module WriteConditions {
  import opened Wrappers
  import opened Bytes
  import opened Sharing
  import opened Factors
  import opened HelperBlob
  import opened Refresh
  import opened Lifecycle

  /** Under the salt no two factors have the same x-coordinate. */
  ghost predicate TellsApart(sha: Sha256, factors: Raw, salt: byte) {
    forall a, b :: a in factors && b in factors && a != b ==>
      IsAscii(a) && IsAscii(b) && DeriveX(sha, a, factors[a], salt) != DeriveX(sha, b, factors[b], salt)
  }

  /** The policy accepts the factors, and every hard lock is among them. */
  predicate Admissible(factors: Raw, mandatory: set<string>) {
    mandatory <= factors.Keys && |factors| >= 8 && |mandatory| < |factors|
  }

  /** How many of n slots must be present, m of them hard-locked. */
  function Needed(n: nat, m: nat): int {
    n - Min(n - m - 1, 3 * n / 10)
  }

  /** The policy accepts the factors, some salt tells them apart, and the byte source holds the coefficients. */
  ghost predicate CanShare(sha: Sha256, factors: Raw, mandatory: set<string>, room: int) {
    && Admissible(factors, mandatory)
    && (exists salt: byte :: salt < 255 && TellsApart(sha, factors, salt))
    && room >= 32 * (Needed(|factors|, |mandatory|) - 1)
  }

  lemma TellsApartIsSalt(sha: Sha256, factors: Raw, mandatory: set<string>, salt: byte)
    requires IsProjected(factors)
    ensures TellsApart(sha, factors, salt) <==> SaltWorks(sha, factors, mandatory, salt)
  {
    hide IsProjected, DeriveX, IsAscii, SaltWorks;
    if SaltWorks(sha, factors, mandatory, salt) {
      forall a, b | a in factors && b in factors && a != b
        ensures IsAscii(a) && IsAscii(b) && DeriveX(sha, a, factors[a], salt) != DeriveX(sha, b, factors[b], salt)
      {
        SaltSeparatesNames(sha, factors, mandatory, salt, a, b);
      }
    }
    if TellsApart(sha, factors, salt) { ApartIsSeparating(sha, factors, mandatory, salt); }
  }

  lemma SlotIsFactor(factors: Raw, mandatory: set<string>, i: nat)
    requires i < |factors|
    ensures var s := SlotList(factors, mandatory)[i]; s.name in factors && s.value == factors[s.name]
  {
    assert Sorted(factors.Keys)[i] in factors.Keys;
  }

  lemma ApartIsSeparating(sha: Sha256, factors: Raw, mandatory: set<string>, salt: byte)
    requires IsProjected(factors) && TellsApart(sha, factors, salt)
    ensures SaltWorks(sha, factors, mandatory, salt)
  {
    hide IsProjected, DeriveX, IsAscii, SlotList;
    SlotListNames(factors, mandatory);
    var slots := SlotList(factors, mandatory);
    var xs := XsOf(sha, slots, salt);
    forall i, j | 0 <= i < j < |xs| ensures xs[i] != xs[j] {
      SlotIsFactor(factors, mandatory, i);
      SlotIsFactor(factors, mandatory, j);
      assert slots[i].name != slots[j].name;
    }
  }

  /** Sharing over the factors succeeds exactly when some salt tells them apart and the source is long enough. */
  lemma SharedHelperIsExact(sha: Sha256, k: Key, factors: Raw, mandatory: set<string>, t: byte, data: bytes, pos: nat)
    requires IsProjected(factors) && t >= 2
    ensures var r := SharedHelper(sha, k, factors, mandatory, t, data, pos);
      && (r.Ok? <==>
            (exists salt: byte :: salt < 255 && TellsApart(sha, factors, salt)) && |data| - pos >= 32 * (t - 1))
      && (r.Err? ==> r.error == SsError)
  {
    hide IsProjected, SlotList, SaltSeparates, TellsApart, ShareMap, HelperOf, CheckWord, CurvesOf, Draws, FirstSalt;
    SlotListNames(factors, mandatory);
    var slots := SlotList(factors, mandatory);
    FirstSaltIsFirst(sha, slots, 0);
    forall salt: byte ensures TellsApart(sha, factors, salt) <==> SaltSeparates(sha, slots, salt) {
      TellsApartIsSalt(sha, factors, mandatory, salt);
    }
  }

  /** The salt that is stored is the first one that tells the factors apart. */
  lemma StoredSaltIsFirst(sha: Sha256, k: Key, factors: Raw, mandatory: set<string>, t: byte, data: bytes, pos: nat)
    requires IsProjected(factors) && t >= 1 && SharedHelper(sha, k, factors, mandatory, t, data, pos).Ok?
    ensures var salt := SharedHelper(sha, k, factors, mandatory, t, data, pos).value.salt;
      TellsApart(sha, factors, salt) && forall s: byte :: s < salt ==> !TellsApart(sha, factors, s)
  {
    hide IsProjected, SlotList, SaltSeparates, TellsApart, ShareMap, CheckWord, CurvesOf, Draws, FirstSalt;
    SlotListNames(factors, mandatory);
    FirstSaltIsFirst(sha, SlotList(factors, mandatory), 0);
    forall s: byte ensures TellsApart(sha, factors, s) <==> SaltSeparates(sha, SlotList(factors, mandatory), s) {
      TellsApartIsSalt(sha, factors, mandatory, s);
    }
  }

  lemma AdmissibleIsAccepted(factors: Raw, mandatory: set<string>)
    requires IsProjected(factors)
    ensures LocksPresent(factors, mandatory) <==> mandatory <= factors.Keys
    ensures Admissible(factors, mandatory) <==>
      LocksPresent(factors, mandatory) && Threshold(|factors|, |mandatory|).Ok?
    ensures Admissible(factors, mandatory) ==>
      && 2 <= Threshold(|factors|, |mandatory|).value == Needed(|factors|, |mandatory|) <= 14
      && factors.Keys * mandatory == mandatory
  {
    if Threshold(|factors|, |mandatory|).Ok? { DriftBudget(|factors|, |mandatory|); }
    hide Allowed, Threshold;
    if mandatory <= factors.Keys {
      assert LocksPresent(factors, mandatory);
    }
    if Admissible(factors, mandatory) {
      LocksAreFactors(factors, mandatory);
      ThresholdFits(factors, mandatory);
    }
  }

  /**
   Refresh is exact: it writes if and only if every hard lock has a value, the policy accepts the
   factors, some salt below 255 tells them apart and the source holds 32 bytes for each coefficient; it
   declines exactly when a lock is missing or the policy refuses, and otherwise raises SsError.
   */
  lemma RefreshIsExact(sha: Sha256, k: Key, factors: Raw, mandatory: set<string>, data: bytes, pos: nat)
    requires IsProjected(factors)
    ensures var r := RefreshOf(sha, k, factors, mandatory, data, pos);
      && (r.Ok? && r.value.Some? <==> CanShare(sha, factors, mandatory, |data| - pos))
      && (r == Ok(None) <==> !Admissible(factors, mandatory))
      && (r.Err? ==> r.error == SsError)
  {
    hide IsProjected, Threshold, LocksPresent, SharedHelper, Encode, Encodable, TellsApart, Needed;
    AdmissibleIsAccepted(factors, mandatory);
    if LocksPresent(factors, mandatory) { LocksAreFactors(factors, mandatory); }
    if Admissible(factors, mandatory) {
      SharedHelperIsExact(sha, k, factors, mandatory, Threshold(|factors|, |mandatory|).value, data, pos);
    }
  }

  /** Enrolment is exact: it succeeds under the same conditions, with 32 more bytes for the key. */
  lemma EnrolmentIsExact(sha: Sha256, factors: Projected, mandatory: set<string>, data: bytes, pos: nat)
    ensures var r := EnrolmentOf(sha, factors, mandatory, data, pos);
      && (r.Ok? <==> CanShare(sha, factors, mandatory, |data| - pos - 32))
      && (r.Err? ==> r.error == SsError)
  {
    hide IsProjected, Threshold, LocksPresent, SharedHelper, TellsApart, Needed, Draws;
    AdmissibleIsAccepted(factors, mandatory);
    if Admissible(factors, mandatory) && Enough(data, pos, 4) {
      var t := Threshold(|factors|, |mandatory|).value;
      SharedHelperIsExact(sha, Draws(data, pos, 4), factors, mandatory, t, data, pos + 32);
    }
    assert Admissible(factors, mandatory) ==> Needed(|factors|, |mandatory|) >= 2;
  }
}
