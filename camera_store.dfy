/** The camera store backed by the embedded CSV resource, with a time-boxed
    cache in front of the loader. The clock is a parameter: `now` is the
    current UTC time in ticks, and `DateTime.MinValue` is tick 0. */
module CameraStore {
  import opened Wrappers
  import opened Errors
  import opened Models
  import opened StoreSettings
  import opened ResourceReader
  import CsvParser

  /** The two mutable fields of the store: the cached list (`null` is
      `None`) and the time it was cached. */
  datatype CacheState = CacheState(cached: Option<seq<Camera>>, lastCacheTime: int)

  /** A new store has no cached list and `DateTime.MinValue` as its cache
      time. */
  const InitialState: CacheState := CacheState(None, 0)

  /** What one `GetAllAsync` call leaves behind and hands back. */
  datatype Step = Step(state: CacheState, result: Result<seq<Camera>, Exception>)

  /** `ShouldUseCache`: caching is on, a list is cached, and it is younger
      than the expiration window (strictly). */
  predicate ShouldUseCache(settings: CameraStoreSettings, st: CacheState, now: int) {
    settings.enableCaching && st.cached.Some? && now - st.lastCacheTime < settings.cacheExpiration
  }

  /** Reading the configured resource and parsing it: the list the loader
      produces, or the exception it raises. */
  function Load(asm: Assembly, path: string): Result<seq<Camera>, Exception> {
    match ReadResource(asm, path)
    case Failure(e) => Failure(e)
    case Success(rows) => Success(CsvParser.ParsedCameras(rows))
  }

  /** One `GetAllAsync` call against the loader outcome `load`: serve the
      cache when it is fresh; otherwise take the loader's list, caching it
      with the current time when caching is on, or rethrow its exception. */
  function CacheStep(settings: CameraStoreSettings, st: CacheState, now: int,
                     load: Result<seq<Camera>, Exception>): Step
  {
    if ShouldUseCache(settings, st, now) then Step(st, Success(st.cached.value))
    else match load
      case Failure(e) => Step(st, Failure(e))
      case Success(cameras) =>
        Step(if settings.enableCaching then CacheState(Some(cameras), now) else st, Success(cameras))
  }

  // ------------------------------------------------------------ properties

  /** A fresh cache is served as it is, and the loader's outcome plays no
      part: the reader and the parser are not consulted. */
  lemma HitIgnoresLoader(settings: CameraStoreSettings, st: CacheState, now: int,
                         load1: Result<seq<Camera>, Exception>, load2: Result<seq<Camera>, Exception>)
    requires ShouldUseCache(settings, st, now)
    ensures CacheStep(settings, st, now, load1) == CacheStep(settings, st, now, load2)
    ensures CacheStep(settings, st, now, load1) == Step(st, Success(st.cached.value))
  {
  }

  /** Without a fresh cache the call hands back exactly what the loader
      produced. */
  lemma MissReturnsLoad(settings: CameraStoreSettings, st: CacheState, now: int,
                        load: Result<seq<Camera>, Exception>)
    requires !ShouldUseCache(settings, st, now)
    ensures CacheStep(settings, st, now, load).result == load
  {
  }

  /** The cache is served exactly when `ShouldUseCache` holds: otherwise
      some loader outcome changes the answer. */
  lemma HitIff(settings: CameraStoreSettings, st: CacheState, now: int)
    ensures ShouldUseCache(settings, st, now) <==>
      forall e: Exception :: CacheStep(settings, st, now, Failure(e)).result.Success?
  {
    if !ShouldUseCache(settings, st, now) {
      var e := Exception(FileNotFound, "");
      assert CacheStep(settings, st, now, Failure(e)).result.Failure?;
    }
  }

  /** The first call on a new store always loads. */
  lemma FirstCallLoads(settings: CameraStoreSettings, now: int, load: Result<seq<Camera>, Exception>)
    ensures !ShouldUseCache(settings, InitialState, now)
    ensures CacheStep(settings, InitialState, now, load).result == load
  {
  }

  /** A successful load with caching on replaces the cached list and stamps
      the current time. */
  lemma SuccessReplacesCache(settings: CameraStoreSettings, st: CacheState, now: int, cameras: seq<Camera>)
    requires settings.enableCaching && !ShouldUseCache(settings, st, now)
    ensures CacheStep(settings, st, now, Success(cameras)) == Step(CacheState(Some(cameras), now), Success(cameras))
  {
  }

  /** A failed load rethrows and leaves both cache fields as they were. */
  lemma FailureKeepsCache(settings: CameraStoreSettings, st: CacheState, now: int, e: Exception)
    requires !ShouldUseCache(settings, st, now)
    ensures CacheStep(settings, st, now, Failure(e)) == Step(st, Failure(e))
  {
  }

  /** With caching off every call loads and the cache fields are never
      written. */
  lemma DisabledNeverCaches(settings: CameraStoreSettings, st: CacheState, now: int,
                            load: Result<seq<Camera>, Exception>)
    requires !settings.enableCaching
    ensures CacheStep(settings, st, now, load) == Step(st, load)
  {
  }

  /** Once the window has passed, the next call loads again. */
  lemma ExpiredLoads(settings: CameraStoreSettings, st: CacheState, now: int,
                     load: Result<seq<Camera>, Exception>)
    requires now - st.lastCacheTime >= settings.cacheExpiration
    ensures CacheStep(settings, st, now, load).result == load
  {
  }

  /** Two calls inside the window: the first loads and caches, the second
      returns the same list whatever its loader would have produced. */
  lemma TwoCallsInWindow(settings: CameraStoreSettings, st: CacheState, t1: int, t2: int,
                         cameras: seq<Camera>, load2: Result<seq<Camera>, Exception>)
    requires settings.enableCaching && !ShouldUseCache(settings, st, t1)
    requires t2 - t1 < settings.cacheExpiration
    ensures var first := CacheStep(settings, st, t1, Success(cameras));
      first.result == Success(cameras) &&
      ShouldUseCache(settings, first.state, t2) &&
      CacheStep(settings, first.state, t2, load2).result == Success(cameras)
  {
  }

  /** With the default settings a cached list is served for 30 minutes
      after it was cached, and not a tick longer. */
  lemma DefaultWindow(cameras: seq<Camera>, cachedAt: int, now: int)
    ensures ShouldUseCache(DefaultSettings, CacheState(Some(cameras), cachedAt), now) <==>
      now < cachedAt + 18_000_000_000
  {
  }

  // ------------------------------------------------------- runs of calls

  /** One call of a run: the clock reading and what the loader would
      produce at that moment. */
  datatype Call = Call(now: int, load: Result<seq<Camera>, Exception>)

  /** The state after a run of calls, and how many of them reached the
      loader. */
  function Run(settings: CameraStoreSettings, st: CacheState, calls: seq<Call>): (CacheState, nat)
    decreases |calls|
  {
    if calls == [] then (st, 0)
    else
      var loads := if ShouldUseCache(settings, st, calls[0].now) then 0 else 1;
      var next := CacheStep(settings, st, calls[0].now, calls[0].load).state;
      var (final, rest) := Run(settings, next, calls[1..]);
      (final, loads + rest)
  }

  /** With caching on, a run of calls that starts on a new store with a
      successful load and stays inside the window of that first call
      reaches the loader exactly once. */
  lemma RunInWindowLoadsOnce(settings: CameraStoreSettings, calls: seq<Call>)
    requires settings.enableCaching && |calls| > 0 && calls[0].load.Success?
    requires forall i :: 0 <= i < |calls| ==> calls[i].now - calls[0].now < settings.cacheExpiration
    ensures Run(settings, InitialState, calls).1 == 1
  {
    var st := CacheState(Some(calls[0].load.value), calls[0].now);
    CachedRunNeverLoads(settings, st, calls[1..]);
  }

  /** Every call of a run that stays inside the window of a cached list is
      served from the cache and leaves the state alone. */
  lemma {:induction false} CachedRunNeverLoads(settings: CameraStoreSettings, st: CacheState, calls: seq<Call>)
    requires settings.enableCaching && st.cached.Some?
    requires forall i :: 0 <= i < |calls| ==> calls[i].now - st.lastCacheTime < settings.cacheExpiration
    ensures Run(settings, st, calls) == (st, 0)
    decreases |calls|
  {
    if calls != [] {
      CachedRunNeverLoads(settings, st, calls[1..]);
    }
  }

  // ------------------------------------------------------------ the class

  /** `EmbeddedCsvCameraStore`: the reader's assembly and the settings are
      fixed at construction; the cached list and its time change. */
  class EmbeddedCsvCameraStore {
    const asm: Assembly
    const settings: CameraStoreSettings
    var cachedCameras: Option<seq<Camera>>
    var lastCacheTime: int

    /** A new store: nothing cached, cache time `DateTime.MinValue`. */
    constructor(asm: Assembly, settings: CameraStoreSettings)
      ensures this.asm == asm && this.settings == settings
      ensures State() == InitialState
    {
      this.asm := asm;
      this.settings := settings;
      cachedCameras := None;
      lastCacheTime := 0;
    }

    /** The cache fields as a value. */
    function State(): CacheState
      reads this
    {
      CacheState(cachedCameras, lastCacheTime)
    }

    /** `ShouldUseCache` on the current fields. */
    predicate UseCache(now: int)
      reads this
    {
      ShouldUseCache(settings, State(), now)
    }

    /** `GetAllAsync` at time `now`: serve the cache, or read and parse the
        resource, caching the list when caching is on; the new state and
        the answer are those of `CacheStep`. */
    method GetAll(now: int) returns (result: Result<seq<Camera>, Exception>)
      modifies this
      ensures Step(State(), result) == CacheStep(settings, old(State()), now, Load(asm, settings.resourcePath))
    {
      if UseCache(now) {
        return Success(cachedCameras.value);
      }
      var stream := ReadResource(asm, settings.resourcePath);
      if stream.Failure? {
        return Failure(stream.error);
      }
      var cameras := CsvParser.Parse(stream.value);
      if settings.enableCaching {
        cachedCameras := Some(cameras);
        lastCacheTime := now;
      }
      return Success(cameras);
    }
  }
}
