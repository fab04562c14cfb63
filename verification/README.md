# SL-HWID and heartbeat verification

A Dafny model of the threshold device identifier (`slhwid/`) and of the heartbeat session
(`session.py`), with proofs of what they promise. `dafny verify dfyconfig.toml` checks it.

## What is modelled

A random key of four elements of the field with 2^61 - 1 elements is shared over the hardware
factors of a machine; the identifier is a hash of the key. A helper blob holds one share per
factor slot. Any threshold many unchanged slots, among them every hard-locked one, bring the key back.

* `Primality`, `Field`, `Polynomials`, `Interpolation`: the field is a field, polynomials have few
  roots, both interpolators compute the unique interpolant, and the exact effect of wrong points.
* `Bytes`, `Sharing`, `Search`, `Normalization`, `Factors`, `HelperBlob`: byte order and text, the sharing
  loops over a stateful byte source, the exhaustive sweep, cleaning of collected text, the two factor
  schemas, and the blob format.
* `Recovery`, `RecoveryLaws`, `Diagnosis`, `Classification`: recovery as loops proved against a
  specification, and its laws: fault tolerance, exact diagnosis of a changed hard lock, live and dead slots.
* `Collisions`, `CollisionExample`: the one way in which a machine within its drift budget fails, exactly and on
  the concrete machine of `ExampleMachine`.
* `Refresh`, `Store`, `Lifecycle`: writing helpers, the shared store, and sessions as objects. `AtomicWrite` takes
  one write of the store apart into system calls, any of which may fail, be the process's last, or be hit by a loss
  of power, and shows that the store's three faults are all that can come of it.
* `WriteConditions`, `Enrolments`, `Commits`: exactly when enrolment, refresh and commit write, which hard locks and
  secrets they leave, and how a device of the legacy schema moves to the current one. `Secrecy` says what the stored
  helper tells about the key and the identifier.
* `Runs`, `Tolerance`: any number of sessions over one store, as a state machine whose actions carry
  every choice of the environment: collected signals, random bytes, faults and crashes inside a write,
  a busy lock, edits of the files by others. `PersistedSecret` adds what follows when the secret file is
  deleted or changed. `EnrolmentExample` shows that the hypotheses of the run
  theorems can be met.
* `MarkerLock`: the interprocess lock as a state machine whose steps are single system calls of any
  number of processes that may crash and whose pids may be used again.
* `Heartbeat`: the session object, a server that answers a repeated request from its cache, and a
  network that may lose or damage either direction.

SHA-256 is an arbitrary function to 32 bytes. Where equality of keys is claimed, the hypothesis
`CheckWordIdentifies` says that no other key has the enrolled key's check word. Values of factors are
their UTF-8 bytes. The exceptions that can leave a call are values of `Wrappers.Error`.

## Where the code differs from its documentation

The model follows the code.

* The repository's README.md (lines 127-131) says any two factors may change. This needs at most n - 3 hard locks
  (`Tolerance.BudgetIsTwo`) and pairwise different x-coordinates: a changed slot that derives another
  present slot's x-coordinate can make `pow(0, -1, P)` raise ValueError out of `recover_core`
  (`Collisions.MovedSlotIsExact` decides by positions exactly when one moved slot does,
  `Collisions.OnlyCollisionsSpoil` says it for any number, `CollisionExample` gives a machine).
* The marker lock does not exclude by itself. Comparing and unlinking are two system calls, as are
  creating and writing. It excludes exactly while no step unlinks another live holder's marker
  (`MarkerLock.RunIsExact`), and such a step lets a second holder in (`MarkerLock.HarmfulUnlinkLetsTwoIn`).
  `MarkerLock.Timely` is a pair of timing conditions that rules it out, and two reachable states, each by a run
  that meets one of the two, show that neither can be dropped.
* `parse_helper` lets UnicodeDecodeError through for a slot name that is not ASCII
  (`HelperBlob.ParseErrors` says exactly when, `HelperBlob.UndecodableBlobEscapes` gives a blob).
* The docstring of `_find_recovering_subset` says no failure truncates the sweep; the ValueError does.
* The failure hook is documented to be called exactly once; a session that is stopped first never calls
  it (`Heartbeat.StoppedIsNeverReported`). `Heartbeat.HookIsExact` says exactly which ends are reported.
* The blob's integrity is a plain digest, so the model lets others replace the helper file
  (`EditHelper`); the stability results are about runs without that and without forced re-enrolment.

## Model

| member | source | states |
|---|---|---|
| Primality.PIsPrime | src/systemlocker_bedrock/slhwid/core.py:17 | the modulus 2^61 - 1 is prime, by the Lucas-Lehmer argument, so every non-zero element is invertible |
| Field.AddMod | src/systemlocker_bedrock/slhwid/core.py:62-64 | the reduced result is congruent to the integer sum |
| Field.SubMod | src/systemlocker_bedrock/slhwid/core.py:67-68 | the reduced result is congruent to the integer difference |
| Field.MulMod | src/systemlocker_bedrock/slhwid/core.py:71-72 | the reduced result is congruent to the integer product |
| Field.InvMod | src/systemlocker_bedrock/slhwid/core.py:75-76 | an inverse is returned exactly for the non-zero elements, and it is one; 0 raises ValueError |
| Polynomials.TooManyRoots | src/systemlocker_bedrock/slhwid/core.py:321-331 | a polynomial with n coefficients and n distinct roots is zero |
| Polynomials.Unique | src/systemlocker_bedrock/slhwid/core.py:450-461 | at most one polynomial with n coefficients passes through n points at distinct positions |
| Interpolation.InterpolantExists | src/systemlocker_bedrock/slhwid/core.py:450-475 | through n points at distinct positions there is a polynomial with n coefficients, and both interpolators evaluate it |
| Interpolation.NodeValue | src/systemlocker_bedrock/slhwid/core.py:464-475 | the interpolated value at a node is the value given there |
| Interpolation.Recovers | src/systemlocker_bedrock/slhwid/core.py:450-475 | interpolating points of a polynomial recovers its value at every position |
| Interpolation.LagrangeAtZero | src/systemlocker_bedrock/slhwid/core.py:450-461 | the loop returns the value at 0 of the interpolating polynomial, and raises ValueError exactly when two nodes coincide |
| Interpolation.EvaluateAt | src/systemlocker_bedrock/slhwid/core.py:464-475 | the loop with the opposite sign convention returns the same polynomial's value at any position, with the same error case |
| Interpolation.ErrorFormula | src/systemlocker_bedrock/slhwid/core.py:450-461 | over any points, the interpolated value at 0 is f(0) plus the sum of the deviations weighted by the basis polynomials at 0 |
| Interpolation.BasisNonZero | src/systemlocker_bedrock/slhwid/core.py:119-127 | with distinct non-zero nodes no weight of the error formula is zero |
| Interpolation.OneErrorIsVisible | src/systemlocker_bedrock/slhwid/core.py:450-461 | exactly one point off the curve always changes the value at 0 |
| Sharing.DeriveX | src/systemlocker_bedrock/slhwid/core.py:119-127 | the x-coordinate of a slot is never 0 |
| Sharing.PositionInputInjective | src/systemlocker_bedrock/slhwid/core.py:119-125 | the bytes hashed into an x-coordinate determine the salt, the slot and its value |
| Sharing.KeyInputsAreSeparated | src/systemlocker_bedrock/slhwid/core.py:130-142 | check words and identifiers are hashed over different inputs, and each input determines the key |
| Sharing.PositionsAreFree | src/systemlocker_bedrock/slhwid/core.py:119-127 | for two slots that differ in name, value or salt, any two non-zero elements are their x-coordinates under some hash, so an x-coordinate depends on all three |
| Sharing.Threshold | src/systemlocker_bedrock/slhwid/core.py:153-156 | enrolment is refused exactly below eight slots or when every slot is mandatory, with SsError |
| Sharing.DriftBudget | src/systemlocker_bedrock/slhwid/core.py:152-161 | the threshold t lies above m and at most n, and n - t is min(n - m - 1, 3n/10), so at least two when m is at most n - 3 |
| Sharing.Draw.Elem | src/systemlocker_bedrock/slhwid/core.py:91-95 | one draw takes eight bytes and reduces them; a short source raises SsError |
| Sharing.FirstSaltIsFirst | src/systemlocker_bedrock/slhwid/core.py:310-318 | the salt found is the first below 255 under which all x-coordinates differ, and none is found only if there is none |
| Sharing.DrawRows | src/systemlocker_bedrock/slhwid/core.py:319-322 | the coefficient rows are the consecutive draws, limb by limb, and a short source is the only failure |
| Sharing.Horner | src/systemlocker_bedrock/slhwid/core.py:326-330 | the Horner loop evaluates the polynomial with the limb as its constant term |
| Sharing.ShareOfSlot | src/systemlocker_bedrock/slhwid/core.py:323-331 | every slot's share is the point of the four polynomials at that slot's x-coordinate |
| Sharing.BuildShares | src/systemlocker_bedrock/slhwid/core.py:309-332 | the method computes the shares and the salt of the specification, or fails as it does |
| Sharing.PerfectHiding | src/systemlocker_bedrock/slhwid/core.py:319-332 | any t - 1 shares at distinct non-zero positions are consistent with every key: for each key some source makes the loop hand them out, and its draws are unique |
| Secrecy.SharesHideKey | src/systemlocker_bedrock/slhwid/core.py:309-332 | for every key, any t - 1 slots and any shares wanted for them, some source makes the shares that are returned exactly those |
| Secrecy.SharesFixCoefficients | src/systemlocker_bedrock/slhwid/core.py:319-332 | under one key, two sources that hand out the same t - 1 shares draw the same coefficients |
| Secrecy.EnrolmentHidesKey | src/systemlocker_bedrock/slhwid/__init__.py:193-202 | every admissible machine can be enrolled with every key, and for every key some source makes the stored helper hold any t - 1 shares one wants |
| Secrecy.IdentifierIsSeparate | src/systemlocker_bedrock/slhwid/core.py:130-142 | under a hash without collisions on these inputs, the identifier and the check word each determine the key, and no identifier is a check word |
| Secrecy.SessionsTellKeysApart | src/systemlocker_bedrock/slhwid/__init__.py:193-234 | a session's identifier is never a stored check word, and two sessions have the same identifier exactly if they have the same key |
| Secrecy.SampleSeparates | src/systemlocker_bedrock/slhwid/core.py:130-142 | a hash without collisions on these inputs exists |
| Search.EveryCombinationIsChoice | src/systemlocker_bedrock/slhwid/core.py:496 | every enumerated combination is an increasing choice of the right size |
| Search.EveryChoiceIsListed | src/systemlocker_bedrock/slhwid/core.py:496 | every increasing choice is enumerated |
| Search.CombinationsAscend | src/systemlocker_bedrock/slhwid/core.py:496 | the enumeration is strictly lexicographic, so nothing is repeated |
| Search.KeyFromPoints | src/systemlocker_bedrock/slhwid/core.py:478-480 | the key is the interpolation of the four limbs at 0, or ValueError on coinciding positions |
| Search.SweepIsExact | src/systemlocker_bedrock/slhwid/core.py:483-503 | the sweep matches exactly the lexicographically first passing choice, raises exactly when a colliding choice comes first, and finds nothing exactly when all choices fail |
| Search.FindRecoveringSubset | src/systemlocker_bedrock/slhwid/core.py:483-503 | the loop returns the points and names of that choice |
| Normalization.NormalizeFactors | src/systemlocker_bedrock/slhwid/core.py:224-230 | the loop keeps exactly the collected signals whose normalized text is sane, as UTF-8 |
| Normalization.NormalizedIsClean | src/systemlocker_bedrock/slhwid/core.py:178-230 | no value let through holds a NUL or is empty, which the group encoding relies on |
| Normalization.SaneIsFixed | src/systemlocker_bedrock/slhwid/core.py:178-221 | a value let through is its own normal form, so what is stored as a factor normalizes to itself |
| Normalization.FactorsForget | src/systemlocker_bedrock/slhwid/core.py:178-184 | collections that differ only in case, surrounding space and NULs give the same factors |
| Normalization.NormalizeKeepsAlnum | src/systemlocker_bedrock/slhwid/core.py:178-184 | normalizing keeps the letters and digits of a text, in lower case |
| Normalization.PlaceholderIsRefused | src/systemlocker_bedrock/slhwid/core.py:187-207 | placeholder text never becomes a factor, in whatever case, padding or with NULs in it |
| Normalization.DegenerateIsRefused | src/systemlocker_bedrock/slhwid/core.py:195-221 | an identifier of one field that is all zeros or all ones never becomes a factor, whatever its punctuation |
| Normalization.ZeroEndorsementIsKept | src/systemlocker_bedrock/slhwid/core.py:213-214 | the exception: a TPM key of 64 zeros is let through |
| Normalization.EveryFieldIsChecked | src/systemlocker_bedrock/slhwid/core.py:215-220 | in a list of identifiers one bad field spoils the value, wherever it stands |
| Normalization.MemoryIsExact | src/systemlocker_bedrock/slhwid/core.py:209-210 | reported memory is let through exactly if it is decimal digits and at least 128 MiB |
| Normalization.FactorShapes | src/systemlocker_bedrock/slhwid/core.py:207-216 | no factor is longer than 4096 characters, and a stored secret or TPM key is 64 lower-case hexadecimal digits |
| Normalization.Utf8Injective | src/systemlocker_bedrock/slhwid/core.py:125 | different texts have different bytes, so a change that normalization keeps changes the factor |
| Normalization.UuidFormsAgree | src/systemlocker_bedrock/slhwid/core.py:200-203 | a UUID is accepted with its dashes exactly if it is without them: 32 hexadecimal digits, not degenerate and not the example |
| Factors.SortedAscends | src/systemlocker_bedrock/slhwid/core.py:306 | sorted names ascend strictly in code-point order |
| Factors.GroupEncodingInjective | src/systemlocker_bedrock/slhwid/core.py:250-265 | for NUL-free values the bytes hashed for a group determine every member's value, absent members included |
| Factors.OneVote | src/systemlocker_bedrock/slhwid/core.py:243-283 | raw signals that differ inside one group project to factors that differ in at most that group's slot |
| Factors.ProjectedValue | src/systemlocker_bedrock/slhwid/core.py:268-283 | each current slot's value is its raw signal or its group's value, and no other name is projected |
| Factors.LegacyProjectedValue | src/systemlocker_bedrock/slhwid/core.py:268-275 | in the legacy schema each of the fourteen slots has its raw signal as value, and no other name is projected |
| Factors.GroupChangeIsSeen | src/systemlocker_bedrock/slhwid/core.py:250-283 | a change of any member changes the group's slot unless the hash collides, and the slot has a value exactly while some member has one |
| Factors.EverySignalVotes | src/systemlocker_bedrock/slhwid/core.py:238-247 | every signal of the current schema votes in its own slot or in that of its group, where its hard lock goes too |
| Factors.LockFollowsSignal | src/systemlocker_bedrock/slhwid/core.py:243-295 | a hard lock on a raw signal becomes a lock on the one group the signal votes in |
| Factors.LegacyLockTargets | src/systemlocker_bedrock/slhwid/core.py:286-295 | the current slot of every legacy hard lock |
| Factors.CurrentNameIsFixed | src/systemlocker_bedrock/slhwid/core.py:286-295 | mapping a name twice is mapping it once, current slot names are fixed, legacy ones become current ones |
| Factors.MapMandatoryIdempotent | src/systemlocker_bedrock/slhwid/core.py:298-299 | mapping hard locks is idempotent, fixes every current set, and keeps the persisted secret locked |
| HelperBlob.ParseOfEncode | src/systemlocker_bedrock/slhwid/core.py:338-355 | parsing the encoding of a well-formed helper gives it back |
| HelperBlob.EncodeOfParse | src/systemlocker_bedrock/slhwid/core.py:378-444 | every accepted blob is the encoding of a well-formed helper, the one it parses to |
| HelperBlob.AcceptedBlobs | src/systemlocker_bedrock/slhwid/core.py:378-444 | a blob is accepted if and only if it encodes some well-formed helper |
| HelperBlob.BlobLayout | src/systemlocker_bedrock/slhwid/core.py:378-413 | where an accepted blob keeps version, schema, salt, counts, threshold, slots, check word and digest |
| HelperBlob.SlotLayout | src/systemlocker_bedrock/slhwid/core.py:349-352 | where a slot's bytes keep its name, flag and limbs |
| HelperBlob.TamperingIsDetected | src/systemlocker_bedrock/slhwid/core.py:381-392 | whatever differs from an accepted blob without a collision of the digest is rejected as corrupt |
| HelperBlob.ParseErrors | src/systemlocker_bedrock/slhwid/core.py:378-444 | every rejection is CorruptHelperError, except that UnicodeDecodeError escapes if and only if the envelope and header are sound and some slots in order are followed by a slot with sound lengths whose name is not ASCII |
| HelperBlob.UndecodableBlobEscapes | src/systemlocker_bedrock/slhwid/core.py:416-424 | for any hash, a concrete blob with a sound digest whose rejection is UnicodeDecodeError |
| HelperBlob.ParseHelper | src/systemlocker_bedrock/slhwid/core.py:378-444 | the method with its slot loop decides and returns what the specification does |
| HelperBlob.SerializeHelper | src/systemlocker_bedrock/slhwid/core.py:338-355 | for any ASCII names of at most 255 bytes the method writes the encoding of the helper with sorted slots |
| HelperBlob.CountsNames | src/systemlocker_bedrock/slhwid/core.py:428-443 | in an ordered helper the header's mandatory count is the number of hard-locked names |
| Recovery.CollectPoints | src/systemlocker_bedrock/slhwid/core.py:538-553 | one pass collects the points of present hard-locked and optional slots, the missing hard locks and the number present |
| Recovery.Diagnose | src/systemlocker_bedrock/slhwid/core.py:570-578 | the diagnostic loop keeps the first hard-locked slot, in stored order, whose removal lets the rest recover |
| Recovery.Classify | src/systemlocker_bedrock/slhwid/core.py:590-608 | the loop lists as live the slots of the subset, the hard locks, and the present slots on all four curves, and the others as dead |
| Recovery.RecoverCore | src/systemlocker_bedrock/slhwid/core.py:529-615 | the method returns the specified result, and lets ValueError and UnicodeDecodeError through as the code does |
| Recovery.FoundKey | src/systemlocker_bedrock/slhwid/core.py:483-503 | the key of the subset found has the stored check word |
| RecoveryLaws.SharesReconstruct | src/systemlocker_bedrock/slhwid/core.py:319-332 | any t shares at distinct positions interpolate back to the key in all four limbs |
| RecoveryLaws.OnCurveIsGood | src/systemlocker_bedrock/slhwid/core.py:602-608 | through t shares, a point is on the interpolated curves exactly when it is the share at its position |
| RecoveryLaws.OneBadPoint | src/systemlocker_bedrock/slhwid/core.py:478-480 | t points of which exactly one is off the curves give a different key |
| RecoveryLaws.SweepSucceeds | src/systemlocker_bedrock/slhwid/core.py:483-503 | with enough shares at distinct positions the sweep finds a subset |
| RecoveryLaws.SweepFails | src/systemlocker_bedrock/slhwid/core.py:557-568 | one hard-locked point off the curves can never be recovered around |
| RecoveryLaws.FaultTolerance | src/systemlocker_bedrock/slhwid/core.py:529-615 | with the hard locks and t - m other slots unchanged, recovery returns exactly the enrolled key and identifier, whatever the other slots became |
| Diagnosis.DiagnosisIsExact | src/systemlocker_bedrock/slhwid/core.py:564-588 | with one hard-locked slot off the curves and the rest unchanged, recovery names exactly that slot if and only if the other present slots reach the threshold, and reports drift otherwise |
| Diagnosis.TooFewPresentIsDrift | src/systemlocker_bedrock/slhwid/core.py:538-588 | with all hard locks but fewer present slots than the threshold, recovery reports drift with both numbers |
| Diagnosis.CorruptIsRefused | src/systemlocker_bedrock/slhwid/core.py:531-536 | a corrupt blob is refused as corrupt, and the exception of an undecodable one goes through |
| Classification.MissingAreAbsent | src/systemlocker_bedrock/slhwid/core.py:542-547 | the hard locks reported as missing are exactly the absent ones |
| Classification.MissingAscend | src/systemlocker_bedrock/slhwid/core.py:542-547 | they are reported once each, in stored order |
| Classification.PresentIsCounted | src/systemlocker_bedrock/slhwid/core.py:541-548 | the number reported as present is that of the slots with a value |
| Classification.LiveAndDead | src/systemlocker_bedrock/slhwid/core.py:590-614 | live and dead are sorted and partition the enrolled slots, all hard locks are live, and at least t slots are |
| Classification.LiveIffOnCurves | src/systemlocker_bedrock/slhwid/core.py:592-608 | if the subset found lies on the enrolled curves, a slot is live exactly when it is present with its point on all four, so every unchanged slot is live |
| Classification.FoundSubsetSize | src/systemlocker_bedrock/slhwid/core.py:490-503 | for a parsed helper the subset found always has exactly t points |
| Classification.SingleDriftIsReported | src/systemlocker_bedrock/slhwid/core.py:592-614 | when one optional slot drifts off the curves, the live slots are exactly the other present ones |
| Collisions.OnlyCollisionsSpoil | src/systemlocker_bedrock/slhwid/core.py:75-76 | with hard locks and enough other slots unchanged, recovery returns the enrolled key unless the sweep meets two equal x-coordinates before a passing subset, and then it raises ValueError |
| Collisions.MovedSlotIsExact | src/systemlocker_bedrock/slhwid/core.py:450-503 | with one optional slot off the curves, the rest unchanged and enough of it, recovery raises ValueError if and only if the moved slot is among the first t - m optional points and has the x-coordinate of a point that is hard-locked, earlier, or still reached after it; otherwise it returns the enrolled key |
| Collisions.OneSlotCollides | src/systemlocker_bedrock/slhwid/core.py:450-503 | if the first optional slot derives a hard-locked slot's x-coordinate, recovery raises ValueError however much is unchanged |
| CollisionExample.OneDriftedSlotCanRaise | src/systemlocker_bedrock/slhwid/core.py:483-503 | a concrete machine, whose values normalization lets through before and after, enrolled with budget two, on which one changed optional slot makes recovery raise |
| Refresh.WrittenIsWellFormed | src/systemlocker_bedrock/slhwid/core.py:338-355 | every helper written over projected factors is well formed, so it has an encoding |
| Refresh.SchemaIsWellFormed | src/systemlocker_bedrock/slhwid/core.py:378-444 | any names of one schema with the persisted secret among the hard locks and a threshold above them make a helper that is accepted, the legacy schema included |
| Refresh.SharedHelperIsShared | src/systemlocker_bedrock/slhwid/core.py:309-355 | what enrolment and refresh write is a genuine sharing of the key over the current factors, with its hard locks and separated x-coordinates |
| Refresh.WrittenRecovers | src/systemlocker_bedrock/slhwid/core.py:529-633 | the blob just written recovers, on the same factors, the same key with every slot live and nothing pending |
| Refresh.RefreshWrites | src/systemlocker_bedrock/slhwid/core.py:618-633 | a blob that refresh writes parses to a sharing of the same key under the same hard locks, with the policy's threshold |
| Refresh.RefreshCore | src/systemlocker_bedrock/slhwid/core.py:618-633 | the method writes, declines or fails exactly as specified |
| WriteConditions.RefreshIsExact | src/systemlocker_bedrock/slhwid/core.py:618-633 | refresh writes if and only if every hard lock has a value, the policy accepts the factors, some salt below 255 tells them apart and the source holds the coefficients; it declines exactly when a lock is missing or the policy refuses, and otherwise raises SsError |
| WriteConditions.EnrolmentIsExact | src/systemlocker_bedrock/slhwid/__init__.py:193-202 | enrolment succeeds under the same conditions with 32 more bytes for the key, and otherwise raises SsError |
| WriteConditions.StoredSaltIsFirst | src/systemlocker_bedrock/slhwid/core.py:310-318 | the salt stored in a helper is the first one that tells the factors apart |
| Store.UnwrapIsExact | src/systemlocker_bedrock/slhwid/_store.py:139-144 | the secret file is accepted exactly if it is the prefix followed by a 32-byte value, which is returned |
| Store.DirStore.ReadHelper | src/systemlocker_bedrock/slhwid/_store.py:179-184 | the stored contents, or not found |
| AtomicWrite.TargetIsWhole | src/systemlocker_bedrock/slhwid/_store.py:189-205 | at every point of a write, whatever fails, dies or loses power, the target is the old file or holds all of the new bytes, and nothing but the temporary file changes beside it |
| AtomicWrite.ReturnedIsWritten | src/systemlocker_bedrock/slhwid/_store.py:189-205 | a write that returns has put a private file with the new bytes in place and left no temporary file |
| AtomicWrite.LeftBehindIsExact | src/systemlocker_bedrock/slhwid/_store.py:189-205 | the temporary file stays behind exactly when process or power fail while it exists, the unlink after an error fails too, or the loss of power takes back the replace |
| AtomicWrite.OutcomeIsFault | src/systemlocker_bedrock/slhwid/_store.py:189-205 | however a write ends, the store sees it done, not begun, or done but reported as failed, and done exactly when it returns |
| AtomicWrite.FaultIsReached | src/systemlocker_bedrock/slhwid/_store.py:189-205 | each of these three outcomes is how some write ends |
| Lifecycle.EnsureSlstore | src/systemlocker_bedrock/slhwid/__init__.py:246-256 | an existing secret is reused, a fresh one is drawn and written, and each failure leaves the store as specified |
| Bytes.HexReadsBack | src/systemlocker_bedrock/slhwid/__init__.py:186 | the secret read back from its hexadecimal form is the secret |
| Lifecycle.Enrol | src/systemlocker_bedrock/slhwid/__init__.py:193-202 | a new key is drawn and shared over the current factors when every hard lock is available and the policy allows it |
| Lifecycle.CheckRequested | src/systemlocker_bedrock/slhwid/__init__.py:156-160 | the requested hard locks are the valid extra names and the persisted secret, or SsError for an invalid name |
| Lifecycle.PrepareLocked | src/systemlocker_bedrock/slhwid/__init__.py:169-234 | under the lock the method leaves the store, and yields a session or an error, exactly as specified |
| Lifecycle.PrepareWith | src/systemlocker_bedrock/slhwid/__init__.py:155-170 | an invalid name leaves the store alone; otherwise what was collected is normalized and the locked preparation runs on it with the requested hard locks |
| Lifecycle.Session.Commit | src/systemlocker_bedrock/slhwid/__init__.py:108-133 | the method changes session and store exactly as specified: it swallows every failure and forgets the key |
| Enrolments.EnrolmentStepIsExact | src/systemlocker_bedrock/slhwid/__init__.py:155-211 | a prepare that enrols succeeds if and only if it gets the lock, all names are valid, a secret is given, stored or can be drawn and written, the helper can be shared, and its write succeeds |
| Enrolments.EnrolledLocks | src/systemlocker_bedrock/slhwid/__init__.py:156-202 | the helper an enrolment writes locks exactly the persisted secret and the slots that the requested signals vote in |
| Enrolments.RequestedLockHolds | src/systemlocker_bedrock/slhwid/__init__.py:156-222 | in every run without forced re-enrolment after an enrolment, a machine without a value for the slot of a requested signal never gets a session |
| Enrolments.AbsentLockNeverRecovers | src/systemlocker_bedrock/slhwid/__init__.py:213-222 | over a helper that locks a slot, a machine without a value for it never gets a session |
| Enrolments.PreparedSession | src/systemlocker_bedrock/slhwid/__init__.py:203-234 | a session is new exactly when the prepare enrolled, and holds the factors and hard locks that its commit needs |
| Enrolments.MalformedSecretIsReported | src/systemlocker_bedrock/slhwid/__init__.py:181-190 | a malformed secret file makes every prepare that needs it fail with CorruptHelperError and changes nothing |
| Enrolments.ExistingSecretIsKept | src/systemlocker_bedrock/slhwid/__init__.py:246-252 | no prepare, forced or not, changes a secret file that is there |
| Enrolments.DrawnSecretIsWritten | src/systemlocker_bedrock/slhwid/__init__.py:252-256 | a first enrolment writes the secret it draws and goes on with it |
| Enrolments.GivenSecretIsUsed | src/systemlocker_bedrock/slhwid/__init__.py:181-186 | a secret among the collected signals is used whatever the secret file holds |
| Enrolments.CorruptHelperIsReported | src/systemlocker_bedrock/slhwid/__init__.py:213-216 | a stored helper that does not parse makes every prepare that does not replace it fail, and is left as it is |
| Enrolments.RefusedPrepareIsHarmless | src/systemlocker_bedrock/slhwid/__init__.py:155-170 | a prepare with an invalid name or without the lock changes nothing and raises SsError or OSError |
| Enrolments.RequestableIsExact | src/systemlocker_bedrock/slhwid/__init__.py:158-159 | a requestable name is a lower-case letter and at most 31 letters, digits and underscores, and one newline may follow |
| Runs.EnrolOutcome | src/systemlocker_bedrock/slhwid/__init__.py:188-211 | an enrolment leaves the helper alone or writes a readable one with the requested hard locks, also when it is interrupted |
| Runs.PrepareOutcome | src/systemlocker_bedrock/slhwid/__init__.py:173-234 | only a first or forced enrolment writes the helper, and every session yielded holds a key of the stored helper |
| Runs.CommitOutcome | src/systemlocker_bedrock/slhwid/__init__.py:108-133 | a commit leaves the store alone, or replaces exactly the blob it recovered by a sharing of the same key in the current schema under the mapped hard locks |
| Runs.CommitRecentres | src/systemlocker_bedrock/slhwid/core.py:618-633 | once a commit has written, the same machine recovers the same key and identifier with no slot drifted and nothing pending, also from a legacy helper |
| Commits.CommitIsExact | src/systemlocker_bedrock/slhwid/__init__.py:108-133 | a commit replaces the helper exactly if the session is live and over its own blob, the lock is free, the factors can be shared and the write is not lost; it clears pending and drifted exactly if the write succeeds, and spends the session either way |
| Commits.UnchangedSignalsRecover | src/systemlocker_bedrock/slhwid/core.py:268-283 | for a helper of either schema, unchanged raw signals behind its slots recover the enrolled key and identifier with nothing drifted |
| Commits.DeviceMigrates | src/systemlocker_bedrock/slhwid/__init__.py:213-234 | prepare and commit on the unchanged machine move a helper of either schema to the current one with the same identity and the mapped hard locks, and the next prepare agrees |
| Runs.RunKeepsSessions | src/systemlocker_bedrock/slhwid/__init__.py:108-234 | in every run, forced re-enrolments and foreign edits included, each session that holds a key holds that of the blob it expects to replace, and a refresh is pending exactly while drifted slots are reported |
| Runs.IdentityIsStable | src/systemlocker_bedrock/slhwid/__init__.py:108-234 | in every interleaving of prepares, commits, faults, crashes and secret tampering without forced re-enrolment, the stored check word never changes and the hard locks are the original ones or their current names |
| Runs.HelperStaysReadable | src/systemlocker_bedrock/slhwid/_store.py:189-205 | from an empty store on, no fault or crash leaves an unreadable helper |
| Runs.EveryPrepareAgrees | src/systemlocker_bedrock/slhwid/__init__.py:213-234 | any prepare anywhere in such a run writes nothing, and if it succeeds yields the enrolled key and identifier |
| Runs.RequestHasNoEffect | src/systemlocker_bedrock/slhwid/__init__.py:229-231 | over an existing helper the hard locks an application requests make no difference |
| Runs.WritesAtMostOnce | src/systemlocker_bedrock/slhwid/__init__.py:114-117 | after its first commit no later commit of a session touches the store |
| Runs.StaleSessionIsHarmless | src/systemlocker_bedrock/slhwid/__init__.py:120-124 | a session whose blob was replaced by another commits nothing |
| Runs.RunKeepsKey | src/systemlocker_bedrock/slhwid/__init__.py:108-234 | in every such run the stored helper stays a genuine sharing of the same key, over the factors last committed |
| Runs.IdentifierSurvivesDrift | src/systemlocker_bedrock/slhwid/__init__.py:173-234 | after any such run, a prepare within the hard locks and drift budget of the last commit yields exactly the enrolled key and identifier |
| Runs.SessionReportsDrift | src/systemlocker_bedrock/slhwid/__init__.py:217-223 | when at most one present slot has moved off the curves, the drifted slots a session lists are exactly that one and the absent ones |
| PersistedSecret.AbsentLockIsRefused | src/systemlocker_bedrock/slhwid/core.py:554-562 | a missing hard lock is reported with all that are missing, unless the sweep meets a collision first, and then ValueError is raised |
| PersistedSecret.DeletedSecretIsRefused | src/systemlocker_bedrock/slhwid/__init__.py:177-186 | while the helper is there, a prepare without the persisted secret fails with the exact drift report naming it, except exactly when the sweep collides first (ValueError), which needs two equal x-coordinates |
| PersistedSecret.ChangedSecretIsRefused | src/systemlocker_bedrock/slhwid/__init__.py:177-223 | after any run without forced re-enrolment, writing another secret that moves off the curves, the rest unchanged, makes prepare fail with a report that names exactly the secret if and only if the other present slots reach the threshold, and with plain drift otherwise |
| Tolerance.BudgetMayChange | src/systemlocker_bedrock/slhwid/core.py:152-161 | any set of optional slots no larger than min(n - m - 1, 3n/10) may change or vanish without changing the key or identifier |
| Tolerance.BudgetIsTwo | src/systemlocker_bedrock/slhwid/core.py:152-161 | two slots may change exactly when at most n - 3 are hard-locked |
| Tolerance.GroupIsOneVote | src/systemlocker_bedrock/slhwid/core.py:250-283 | signals changed inside one group count as one changed slot |
| Tolerance.SecretComesBack | src/systemlocker_bedrock/slhwid/__init__.py:181-190 | the persisted secret used or created at enrolment is injected as the same factor value at recovery |
| Tolerance.SameMachineRecovers | src/systemlocker_bedrock/slhwid/__init__.py:173-234 | on every machine, a prepare right after a successful enrolment writes nothing and yields the same key, identifier and hard locks with no slot drifted |
| Tolerance.RunKeepsSound | src/systemlocker_bedrock/slhwid/__init__.py:108-234 | in every run without forced re-enrolment the helper stays a sharing of the enrolled key with the policy's threshold |
| Tolerance.EnrolledIdentifierIsKept | src/systemlocker_bedrock/slhwid/__init__.py:173-234 | from a successful enrolment on, any application whose machine changed within the drift budget since the last commit prepares the enrolled identifier |
| EnrolmentExample.HypothesesAreMet | src/systemlocker_bedrock/slhwid/__init__.py:188-211 | a concrete machine, from its normalized signals, enrols into an empty store, draws its secret, and right afterwards meets every hypothesis of the run theorems |
| MarkerLock.MarkerNamesOwner | src/systemlocker_bedrock/slhwid/_store.py:44-47 | the marker a process writes parses back to its pid, different nonces give different texts, and an empty marker names nobody |
| MarkerLock.StepKeepsInv | src/systemlocker_bedrock/slhwid/_store.py:77-122 | every timely system call, crash, pid reuse and clock tick keeps each live holder's own marker in place |
| MarkerLock.StepIsExact | src/systemlocker_bedrock/slhwid/_store.py:77-122 | whatever the timing, a step keeps every live holder's marker in place if and only if it does not unlink another live holder's |
| MarkerLock.UnlinkIsExact | src/systemlocker_bedrock/slhwid/_store.py:85-87 | the same for the unlink alone, from any well-formed state in which the live holders own the marker |
| MarkerLock.RunIsExact | src/systemlocker_bedrock/slhwid/_store.py:77-122 | all along a run every live holder's marker stays in place, so that at most one holds the lock, if and only if no step of it unlinks another live holder's marker |
| MarkerLock.HarmfulUnlinkLetsTwoIn | src/systemlocker_bedrock/slhwid/_store.py:85-102 | once such an unlink happens, three more steps of a new caller put two live holders inside |
| MarkerLock.MutualExclusion | src/systemlocker_bedrock/slhwid/_store.py:93-122 | in every timely run of any number of processes and threads at most one live attempt holds the lock |
| MarkerLock.OnlyOwnerReleases | src/systemlocker_bedrock/slhwid/_store.py:77-90 | a live holder's marker is removed or changed only by the holder |
| MarkerLock.AbandonedIsRecovered | src/systemlocker_bedrock/slhwid/_store.py:105-117 | an undisturbed attempt takes over a marker within seven system calls exactly when its pid is not in use, or it is malformed and 120 seconds old |
| MarkerLock.LiveOwnerIsSafe | src/systemlocker_bedrock/slhwid/_store.py:107-116 | a live owner's marker is never judged stale |
| MarkerLock.AbandonedIsExact | src/systemlocker_bedrock/slhwid/_store.py:105-117 | a written marker is stale exactly if no process with its owner's pid is alive, an unwritten one exactly from 120 seconds on |
| MarkerLock.FreeLockIsTaken | src/systemlocker_bedrock/slhwid/_store.py:98-104 | an undisturbed attempt takes a free lock in two system calls |
| MarkerLock.GivesUpOnlyLate | src/systemlocker_bedrock/slhwid/_store.py:98-122 | an attempt ends without the lock only past its deadline |
| MarkerLock.ReleaseFreesLock | src/systemlocker_bedrock/slhwid/_store.py:77-87 | an undisturbed release removes its own marker and leaves any other alone |
| MarkerLock.MistimedUnlinkBreaksExclusion | src/systemlocker_bedrock/slhwid/_store.py:79-87 | two live holders are reachable by a run in which every marker is written in time, because comparing and unlinking are separate calls |
| MarkerLock.StalledWriterBreaksExclusion | src/systemlocker_bedrock/slhwid/_store.py:100-102 | two live holders are reachable by a run in which every unlink removes what was compared, because a writer may stall for 120 seconds between creating and writing its marker |
| Heartbeat.BedrockSession.Fail | src/systemlocker_bedrock/session.py:71-82 | the session ends, and the hook is called only by the call that ended it |
| Heartbeat.BedrockSession.HeartbeatOnce | src/systemlocker_bedrock/session.py:90-149 | the method changes the session and returns or raises exactly as specified, for every transport result, verification verdict and interruption |
| Heartbeat.BedrockSession.Loop | src/systemlocker_bedrock/session.py:153-173 | the background loop leaves the session as the specified fold over its wakes does |
| Heartbeat.BeatOutcome | src/systemlocker_bedrock/session.py:103-149 | one beat makes the server rotate at most once, and a session that stays alive has taken over the new token |
| Heartbeat.TokensAgree | src/systemlocker_bedrock/session.py:86-149 | in every run from a fresh session, a live session holds the server's current token and counts its rotations, a dead one is at most one behind, and the hook is called at most once |
| Heartbeat.BeatIsExact | src/systemlocker_bedrock/session.py:103-149 | a beat keeps the session alive if and only if the server grants it and the answer arrives undisturbed on the first try or on the identical repeat |
| Heartbeat.LostTwiceIsDead | src/systemlocker_bedrock/session.py:105-119 | a beat lost twice ends the session and reports a transport failure at the old count |
| Heartbeat.EndTellsWhy | src/systemlocker_bedrock/session.py:105-144 | a beat that ends the session returns the denial and records it with the hook, or raises and records the kind of error, at the old token and count |
| Heartbeat.JumpInFlightIsReported | src/systemlocker_bedrock/session.py:71-82 | a clock jump while a beat is in flight is what the hook is told |
| Heartbeat.UnrotatedTokenIsRefused | src/systemlocker_bedrock/session.py:141-144 | a grant whose token has the wrong form ends the session and is not taken over |
| Heartbeat.HookIsExact | src/systemlocker_bedrock/session.py:18-19 | the hook is called exactly once if and only if the action that ends the session is neither a stop nor a beat stopped in flight and a hook is set when it comes, and otherwise never |
| Heartbeat.StoppedIsNeverReported | src/systemlocker_bedrock/session.py:71-82 | a session that is stopped first never calls its hook, whatever follows |
| Heartbeat.EndIsReportedOnce | src/systemlocker_bedrock/session.py:18-19 | a session with a hook that nobody stops reports its end exactly once, whatever ends it |
| Heartbeat.DeadStaysDead | src/systemlocker_bedrock/session.py:90-92 | a dead session sends nothing, keeps its token and calls no hook again |
| Heartbeat.LoopCounts | src/systemlocker_bedrock/session.py:157-173 | the session survives the loop if and only if it can go on at every wake; otherwise it is over at the first where it cannot, with one heartbeat counted for each wake before and one more exactly when the last beat still renewed the token |
| Heartbeat.LoopEndsAs | src/systemlocker_bedrock/session.py:157-173 | the loop ends as its last wake says: silently on a stop, as a local failure on a clock jump, and otherwise as the beat of that wake leaves the session |
| Heartbeat.JumpIsExact | src/systemlocker_bedrock/session.py:158-164 | the clocks jumped exactly if the difference between them moved by more than two seconds |

## Left out

- Hardware collectors (`_collect_*.py`, `hwid/`): the collected signals are an arbitrary map.
- Lone surrogates in collected text, for which `value.encode("utf-8")` raises: characters are Unicode scalar values.
- The base64url form of the identifier (core.py:138-142): `HwidOf` is the digest it encodes.
- Properties of SHA-256 and of the random source: nothing probabilistic is claimed, and claims about wrong keys stop at one point off the curves or use the exact error formula.
- The amount of work of the sweep: the key computation is skipped after a match (core.py:498), so only its result is modelled.
- The Windows registry store, whose hive selection depends on permissions: one store with atomic writes stands for both.
- Reads of the store that fail with OSError: in `Runs` they are covered by a lock that cannot be taken, which has the same effect on the store and the caller.
- Size checks on a secret read back through the store (__init__.py:184-185 and 249-250): the store has already made them.
- Creating the store's directory and tightening its permissions (_store.py:150-156), and permission bits of the temporary file on systems without fchmod.
- That os.replace puts the new file in place of the old one in one step is an assumption of `AtomicWrite`, as is that an fsync'ed file survives a loss of power.
- Exceptions other than OSError inside a write, such as an interrupt from the keyboard: they take the same way through the finally clause.
- MarkerLock.AbandonedIsRecovered: speaks of an attempt that nobody interrupts; fairness between competing attempts is not modelled.
- MarkerLock.MarkerNamesOwner: lines[1].isdigit() is modelled for ASCII digits only, and unreadable marker files (OSError) as absent ones.
- Processes of other users on Windows, whose liveness the code cannot see: a process is alive or not.
- Parsing and verification of responses (`verify.py`, `response.py`): an oracle that yields a response or an error kind; bodies that are not UTF-8 raise another exception there and are not part of this model.
- Heartbeat.BedrockSession.Fail: is one step, although two threads could both find the session alive before either clears it.
- `transport.py`, `client.py`, `sso.py`, `invisible_folder.py`, `config.py`: input and output, thin wrappers and field validation.
- The legacy composition in `hwid/`: not part of this model.
