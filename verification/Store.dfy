/** The directory store that all applications of one device share (slhwid/_store.py:139-205). */
module Store {
  import opened Wrappers
  import opened Bytes

  const SLSTORE_PREFIX := "SLSTOR1"

  /** The contents of the two files, when they exist. */
  datatype Disk = Disk(helper: Option<bytes>, slstore: Option<bytes>)

  /**
   What befalls one write: it succeeds, or an OSError or crash hits it before or after the replace.
   AtomicWrite shows that nothing else can.
   */
  datatype Fault = Clean | BeforeReplace | AfterReplace

  /** What the operating system does to one operation under the lock, which may be too busy to take. */
  datatype Weather = Weather(busy: bool, slstore: Fault, helper: Fault)

  function Replaced(file: Option<bytes>, data: bytes, fault: Fault): Option<bytes> {
    if fault == BeforeReplace then file else Some(data)
  }

  /** _unwrap_slstore */
  function Unwrap(data: bytes): (r: Result<bytes>)
    ensures r.Ok? ==> |r.value| == 32
  {
    if |data| != |SLSTORE_PREFIX| + 32 then Err(CorruptHelperError)
    else if data[..|SLSTORE_PREFIX|] != Ascii(SLSTORE_PREFIX) then Err(CorruptHelperError)
    else Ok(data[|SLSTORE_PREFIX|..])
  }

  function Wrap(value: bytes): bytes {
    Ascii(SLSTORE_PREFIX) + value
  }

  /** The secret file holds exactly the wrapped 32-byte values. */
  lemma UnwrapIsExact(data: bytes, value: bytes)
    ensures Unwrap(data) == Ok(value) <==> data == Wrap(value) && |value| == 32
  {
    if data == Wrap(value) {
      assert data[..|SLSTORE_PREFIX|] == Ascii(SLSTORE_PREFIX) && data[|SLSTORE_PREFIX|..] == value;
    }
    if Unwrap(data) == Ok(value) {
      assert data == data[..|SLSTORE_PREFIX|] + data[|SLSTORE_PREFIX|..];
    }
  }

  function SlstoreOf(disk: Disk): Result<Option<bytes>> {
    match disk.slstore
    case None => Ok(None)
    case Some(data) =>
      var value :- Unwrap(data);
      Ok(Some(value))
  }

  class DirStore {
    var helper: Option<bytes>
    var slstore: Option<bytes>
    var weather: Weather

    constructor (helper: Option<bytes>, slstore: Option<bytes>, weather: Weather)
      ensures Files() == Disk(helper, slstore) && this.weather == weather
    {
      this.helper, this.slstore, this.weather := helper, slstore, weather;
    }

    function Files(): Disk
      reads this`helper, this`slstore
    {
      Disk(helper, slstore)
    }

    /** Taking the interprocess lock fails with OSError when the store stays busy. */
    method Lock() returns (taken: bool)
      ensures taken == !weather.busy
    {
      taken := !weather.busy;
    }

    method ReadSlstore() returns (r: Result<Option<bytes>>)
      ensures r == SlstoreOf(Files())
    {
      if slstore.None? { return Ok(None); }
      var value := Unwrap(slstore.value);
      return if value.Err? then Err(value.error) else Ok(Some(value.value));
    }

    method WriteSlstore(value: bytes) returns (written: bool)
      modifies this`slstore
      ensures slstore == Replaced(old(slstore), Wrap(value), weather.slstore)
      ensures written == (weather.slstore == Clean)
    {
      slstore := Replaced(slstore, Wrap(value), weather.slstore);
      written := weather.slstore == Clean;
    }

    method ReadHelper() returns (blob: bytes, found: bool)
      ensures helper == if found then Some(blob) else None
      ensures !found ==> blob == []
    {
      if helper.None? { return [], false; }
      return helper.value, true;
    }

    method WriteHelper(blob: bytes) returns (written: bool)
      modifies this`helper
      ensures helper == Replaced(old(helper), blob, weather.helper)
      ensures written == (weather.helper == Clean)
    {
      helper := Replaced(helper, blob, weather.helper);
      written := weather.helper == Clean;
    }
  }
}
