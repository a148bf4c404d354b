/** lib/startup.go: filling in a cluster's startup defaults and stripping them again. */
module StartupDefaults {
  import opened Ordering
  import opened Types

  function Fill<T(==)>(zero: T, value: T, default: T): T {
    if value == zero then default else value
  }

  function Strip<T(==)>(zero: T, default: T, value: T, was: T): T {
    if value == default && was == zero then zero else value
  }

  function FillStatuses(value: seq<int>, default: seq<int>): seq<int> {
    if |value| == 0 then default else value
  }

  /** The comparison sorts the value in place, so a value that is kept is kept sorted. */
  function StripStatuses(default: seq<int>, value: seq<int>, was: seq<int>): seq<int> {
    if |value| == |default| && |was| == 0 then
      if Sort(IntLe, value) == Sort(IntLe, default) then [] else Sort(IntLe, value)
    else value
  }

  /** `MergeDefaults`, with the cluster's defaults as receiver. */
  function MergeDefaults(s: Startup, base: Startup): Startup {
    Startup(
      Fill(false, base.skipCheck, s.skipCheck),
      Fill(0, base.connectDelay, s.connectDelay),
      Fill(0, base.timeout, s.timeout),
      Fill(0, base.connectInterval, s.connectInterval),
      Fill("", base.protocol, s.protocol),
      Fill("", base.uriPath, s.uriPath),
      Fill(0, base.portIndex, s.portIndex),
      FillStatuses(base.failureStatuses, s.failureStatuses),
      Fill(0, base.uriTimeout, s.uriTimeout),
      Fill(0, base.interval, s.interval),
      Fill(0, base.retries, s.retries))
  }

  /** `UnmergeDefaults`, with the cluster's defaults as receiver. */
  function UnmergeDefaults(s: Startup, base: Startup, was: Startup): Startup {
    Startup(
      Strip(false, s.skipCheck, base.skipCheck, was.skipCheck),
      Strip(0, s.connectDelay, base.connectDelay, was.connectDelay),
      Strip(0, s.timeout, base.timeout, was.timeout),
      Strip(0, s.connectInterval, base.connectInterval, was.connectInterval),
      Strip("", s.protocol, base.protocol, was.protocol),
      Strip("", s.uriPath, base.uriPath, was.uriPath),
      Strip(0, s.portIndex, base.portIndex, was.portIndex),
      StripStatuses(s.failureStatuses, base.failureStatuses, was.failureStatuses),
      Strip(0, s.uriTimeout, base.uriTimeout, was.uriTimeout),
      Strip(0, s.interval, base.interval, was.interval),
      Strip(0, s.retries, base.retries, was.retries))
  }

  /** Equality that reads the failure statuses as a multiset. */
  ghost predicate SameStartup(a: Startup, b: Startup) {
    && a.(failureStatuses := []) == b.(failureStatuses := [])
    && multiset(a.failureStatuses) == multiset(b.failureStatuses)
  }

  predicate FieldCarries<T(==)>(zero: T, value: T, default: T) { value != zero || default == zero }

  /** `v` sets every field that the defaults `s` set. */
  predicate CarriesStartup(s: Startup, v: Startup) {
    && FieldCarries(false, v.skipCheck, s.skipCheck)
    && FieldCarries(0, v.connectDelay, s.connectDelay)
    && FieldCarries(0, v.timeout, s.timeout)
    && FieldCarries(0, v.connectInterval, s.connectInterval)
    && FieldCarries("", v.protocol, s.protocol)
    && FieldCarries("", v.uriPath, s.uriPath)
    && FieldCarries(0, v.portIndex, s.portIndex)
    && FieldCarries([], v.failureStatuses, s.failureStatuses)
    && FieldCarries(0, v.uriTimeout, s.uriTimeout)
    && FieldCarries(0, v.interval, s.interval)
    && FieldCarries(0, v.retries, s.retries)
  }

  /** get-put: stripping what was just filled in gives back exactly what was written,
      including a value that redundantly repeats a default. */
  lemma StartupGetPut(s: Startup, base: Startup)
    ensures UnmergeDefaults(s, MergeDefaults(s, base), base) == base
  {
    // for the failure statuses, [] is filled with the defaults, whose sorted copies agree
    assert StripStatuses(s.failureStatuses, FillStatuses(base.failureStatuses, s.failureStatuses), base.failureStatuses)
        == base.failureStatuses;
  }

  /** A value that is stripped because it is one cluster's default is the other's default too. */
  predicate FieldStripsAlike<T(==)>(zero: T, own: T, default: T, value: T, was: T) {
    value != zero && value == own && was == zero ==> value == default
  }

  ghost predicate StatusesStripAlike(own: seq<int>, default: seq<int>, value: seq<int>, was: seq<int>) {
    value != [] && multiset(value) == multiset(own) && was == [] ==> multiset(value) == multiset(default)
  }

  /** Whatever `own` strips from `v`, given the old value, `s` fills in again. */
  ghost predicate StartupStripsAlike(own: Startup, s: Startup, v: Startup, was: Startup) {
    && FieldStripsAlike(false, own.skipCheck, s.skipCheck, v.skipCheck, was.skipCheck)
    && FieldStripsAlike(0, own.connectDelay, s.connectDelay, v.connectDelay, was.connectDelay)
    && FieldStripsAlike(0, own.timeout, s.timeout, v.timeout, was.timeout)
    && FieldStripsAlike(0, own.connectInterval, s.connectInterval, v.connectInterval, was.connectInterval)
    && FieldStripsAlike("", own.protocol, s.protocol, v.protocol, was.protocol)
    && FieldStripsAlike("", own.uriPath, s.uriPath, v.uriPath, was.uriPath)
    && FieldStripsAlike(0, own.portIndex, s.portIndex, v.portIndex, was.portIndex)
    && StatusesStripAlike(own.failureStatuses, s.failureStatuses, v.failureStatuses, was.failureStatuses)
    && FieldStripsAlike(0, own.uriTimeout, s.uriTimeout, v.uriTimeout, was.uriTimeout)
    && FieldStripsAlike(0, own.interval, s.interval, v.interval, was.interval)
    && FieldStripsAlike(0, own.retries, s.retries, v.retries, was.retries)
  }

  lemma StatusesPutGet(own: seq<int>, default: seq<int>, value: seq<int>, was: seq<int>)
    ensures multiset(FillStatuses(StripStatuses(own, value, was), default)) == multiset(value)
            <==> FieldCarries([], value, default) && StatusesStripAlike(own, default, value, was)
  {
    IntOrder();
    SortEqualIffSameElements(IntLe, value, own);
    assert |Sort(IntLe, value)| == |multiset(Sort(IntLe, value))| == |multiset(value)| == |value|;
    assert |multiset(own)| == |own| && |multiset(default)| == |default|;
    hide Sort;
  }

  /** put-get: filling in the defaults `s` after stripping `own` gives the value back exactly when
      the value carries every default of `s`, and `s` fills in again what `own` stripped. */
  lemma StartupPutGet(own: Startup, s: Startup, v: Startup, was: Startup)
    ensures SameStartup(MergeDefaults(s, UnmergeDefaults(own, v, was)), v)
            <==> CarriesStartup(s, v) && StartupStripsAlike(own, s, v, was)
  {
    StatusesPutGet(own.failureStatuses, s.failureStatuses, v.failureStatuses, was.failureStatuses);
    hide StripStatuses, FillStatuses, StatusesStripAlike;
  }

  /** Equal defaults strip alike, whatever the values. */
  lemma EqualDefaultsStripAlike(own: Startup, s: Startup, v: Startup, was: Startup)
    requires SameStartup(own, s)
    ensures StartupStripsAlike(own, s, v, was)
  {}

  /** What MergeDefaults yields always carries the defaults. */
  lemma MergedCarries(s: Startup, base: Startup)
    ensures CarriesStartup(s, MergeDefaults(s, base))
  {}
}
