/** Native invocation: the handler table, the manager's second cache, and the invoker that must
    pick the same handler through either. */
module NativeInvoker {
  import opened Wrappers
  import opened Machine
  import opened Crossmap
  import CrossmapText

  datatype Registration = Registration(hash: u64, handler: u64, validated: bool, callCount: u64)

  type Registry = map<u64, Registration>

  datatype InvokeStats = InvokeStats(calls: nat, failures: nat, cacheHits: nat, tableHits: nat, indexedHits: nat)

  /** Every call ends in an error: handlers are found, but no call adapter is installed. */
  datatype InvokeError =
    | NotReady
    | NoIndexedTable
    | IndexedUnresolved(index: nat)
    | NotInCrossmap(canonical: u64)
    | HandlerUnresolved(canonical: u64, runtime: u64)
    | NoAdapter(handler: u64, hash: u64)

  /** One slot of the three parallel handler vectors. */
  datatype Slot = Slot(hash: u64, handler: u64, validated: bool)

  function GetIndexed(slots: seq<Slot>, i: nat): Option<u64> {
    if i >= |slots| || !slots[i].validated || slots[i].handler == 0 then None else Some(slots[i].handler)
  }

  function IndexedHash(slots: seq<Slot>, i: nat): Option<u64> {
    if i >= |slots| then None else Some(slots[i].hash)
  }

  datatype NativeState = NativeState(ready: bool, build: u64, crossmap: MapState, cache: Registry, table: Registry,
                                     indexed: Option<seq<Slot>>, stats: InvokeStats)

  // ---------- the table ----------

  datatype TableError = InvalidRegistration | HashCollision(hash: u64)

  function Registered(t: Registry, r: Registration): (Registry, Option<TableError>) {
    if r.hash == 0 || r.handler == 0 then (t, Some(InvalidRegistration))
    else if r.hash in t && t[r.hash].handler != r.handler then (t, Some(HashCollision(r.hash)))
    else (t[r.hash := r], None)
  }

  function RegisteredAll(t: Registry, rs: seq<Registration>): (Registry, Option<TableError>)
    decreases |rs|
  {
    if rs == [] then (t, None)
    else
      var (t', failure) := Registered(t, rs[0]);
      if failure.Some? then (t', failure) else RegisteredAll(t', rs[1..])
  }

  /** The handler the table vouches for. */
  function ValidHandler(t: Registry, hash: u64): Option<u64> {
    if hash in t && t[hash].validated && t[hash].handler != 0 then Some(t[hash].handler) else None
  }

  // ---------- the manager ----------

  function Translated(s: NativeState, canonical: u64): (NativeState, Option<u64>) {
    if !s.ready then (s, None)
    else
      var r := RuntimeOf(s.crossmap, canonical, s.build);
      (s.(crossmap := Counted(s.crossmap, r.Some?)), r)
  }

  function FoundCached(s: NativeState, canonical: u64): (NativeState, Option<Registration>) {
    var (s', runtime) := Translated(s, canonical);
    (s', if runtime.Some? && runtime.value in s'.cache then Some(s'.cache[runtime.value]) else None)
  }

  function CachedResolved(s: NativeState, canonical: u64, handler: u64, validated: bool): NativeState {
    var (s', runtime) := Translated(s, canonical);
    if runtime.None? then s'
    else s'.(cache := s'.cache[runtime.value := Registration(runtime.value, handler, validated, 0)])
  }

  datatype InitError = NoFingerprint | LoadFailed(cause: CrossmapText.LoadError) | NoEntries

  /** The crossmap a manager starts with, and why it does not get ready, if it does not. */
  function Initialized(build: u64, file: Option<string>): (MapState, Option<InitError>) {
    if build == 0 then (EMPTY, Some(NoFingerprint))
    else match CrossmapText.Loading(file, build)
      case Unreadable => (EMPTY, Some(LoadFailed(CrossmapText.ReadFailed)))
      case BadFormat => (EMPTY, Some(LoadFailed(CrossmapText.UnsupportedFormat)))
      case Body(entries) =>
        var (m, failure) := AddedAll(EMPTY, entries);
        if failure.Some? then (m, Some(LoadFailed(CrossmapText.Rejected(failure.value))))
        else if m.byCanonical == map[] then (m, Some(NoEntries))
        else (m, None)
  }

  // ---------- the invoker ----------

  function Failing(s: NativeState): NativeState {
    s.(stats := s.stats.(failures := s.stats.failures + 1))
  }

  function Calling(s: NativeState): NativeState {
    s.(stats := s.stats.(calls := s.stats.calls + 1))
  }

  function InvokedHash(s0: NativeState, canonical: u64): (NativeState, InvokeError) {
    var s := Calling(s0);
    if !s.ready then (Failing(s), NotReady)
    else
      var (s1, cached) := FoundCached(s, canonical);
      if cached.Some? && cached.value.validated then
        (Failing(s1.(stats := s1.stats.(cacheHits := s1.stats.cacheHits + 1))),
         NoAdapter(cached.value.handler, canonical))
      else InvokedThroughTable(s1, canonical)
  }

  /** The slow path: crossmap, then table, then a cache write. */
  function InvokedThroughTable(s: NativeState, canonical: u64): (NativeState, InvokeError) {
    var (s1, runtime) := Translated(s, canonical);
    if runtime.None? then (Failing(s1), NotInCrossmap(canonical))
    else match ValidHandler(s1.table, runtime.value)
      case None => (Failing(s1), HandlerUnresolved(canonical, runtime.value))
      case Some(handler) =>
        var s2 := CachedResolved(s1, canonical, handler, true);
        (Failing(s2.(stats := s2.stats.(tableHits := s2.stats.tableHits + 1))), NoAdapter(handler, canonical))
  }

  function InvokedIndex(s0: NativeState, index: nat): (NativeState, InvokeError)
  {
    var s := Calling(s0);
    if !s.ready then (Failing(s), NotReady)
    else if s.indexed.None? then (Failing(s), NoIndexedTable)
    else
      var handler := GetIndexed(s.indexed.value, index);
      if handler.None? then (Failing(s), IndexedUnresolved(index))
      else
        var hash := match IndexedHash(s.indexed.value, index) case None => 0 case Some(h) => h;
        (Failing(s.(stats := s.stats.(indexedHits := s.stats.indexedHits + 1))), NoAdapter(handler.value, hash))
  }

  // ---------- the cache agrees with the table ----------

  ghost predicate TableOk(t: Registry) {
    forall h :: h in t ==> t[h].hash == h && h != 0 && t[h].handler != 0
  }

  /** Every cached handler is validated and is the table's handler for that runtime hash. */
  ghost predicate CacheSound(s: NativeState) {
    TableOk(s.table) && forall h :: h in s.cache ==>
      s.cache[h].hash == h && s.cache[h].validated && h in s.table && s.table[h].handler == s.cache[h].handler
  }

  /** Everything clients do that changes the table, the crossmap, the cache, the manager or the
      counters, except storing into the cache other than by a call. */
  datatype Op =
    | Register(r: Registration)
    | RegisterBatch(rs: seq<Registration>)
    | ClearTable
    | InvokeHash(canonical: u64)
    | InvokeIndex(index: nat)
    | SetIndexed(slots: Option<seq<Slot>>)
    | Forget(hash: u64)
    | ClearCache
    | Translate(canonical: u64)
    | FindCached(canonical: u64)
    | ToRuntime(canonical: u64, build: u64)
    | ToCanonical(runtime: u64, build: u64)
    | AddNative(e: Entry)
    | AddNatives(es: seq<Entry>)
    | LoadNatives(file: Option<string>, expected: u64)
    | InvalidateBuild(build: u64)
    | ClearCrossmap
    | Restart(newBuild: u64, file: Option<string>)
    | Shutdown

  function Step(s: NativeState, op: Op): NativeState {
    match op
    case Register(r) => s.(table := Registered(s.table, r).0)
    case RegisterBatch(rs) => s.(table := RegisteredAll(s.table, rs).0)
    case ClearTable => s.(table := map[])
    case InvokeHash(c) => InvokedHash(s, c).0
    case InvokeIndex(i) => InvokedIndex(s, i).0
    case SetIndexed(slots) => s.(indexed := slots)
    case Forget(hash) => s.(cache := s.cache - {hash})
    case ClearCache => s.(cache := map[])
    case Translate(c) => Translated(s, c).0
    case FindCached(c) => FoundCached(s, c).0
    case ToRuntime(c, build) => s.(crossmap := Counted(s.crossmap, RuntimeOf(s.crossmap, c, build).Some?))
    case ToCanonical(r, build) => s.(crossmap := Counted(s.crossmap, CanonicalOf(s.crossmap, r, build).Some?))
    case AddNative(e) => s.(crossmap := Added(s.crossmap, e).0)
    case AddNatives(es) => s.(crossmap := AddedAll(s.crossmap, es).0)
    case LoadNatives(file, expected) =>
      (match CrossmapText.Loading(file, expected)
       case Body(entries) => s.(crossmap := AddedAll(s.crossmap, entries).0)
       case _ => s)
    case InvalidateBuild(build) => s.(crossmap := Invalidated(s.crossmap, build))
    case ClearCrossmap => s.(crossmap := EMPTY)
    case Restart(build, file) =>
      var (m, failure) := Initialized(build, file);
      s.(ready := failure.None?, build := build, crossmap := m, cache := map[])
    case Shutdown => s.(ready := false, crossmap := EMPTY, cache := map[])
  }

  function After(s: NativeState, ops: seq<Op>): NativeState {
    if ops == [] then s else Step(After(s, ops[..|ops| - 1]), ops[|ops| - 1])
  }

  lemma {:induction false} RegisteringAllKeepsHandlers(t: Registry, rs: seq<Registration>)
    requires TableOk(t)
    ensures TableOk(RegisteredAll(t, rs).0)
    ensures forall h :: h in t ==> h in RegisteredAll(t, rs).0 && RegisteredAll(t, rs).0[h].handler == t[h].handler
    decreases |rs|
  {
    if rs != [] {
      RegisteringAllKeepsHandlers(Registered(t, rs[0]).0, rs[1..]);
    }
  }

  /** What a call by hash does, case by case. */
  lemma InvokedHashCases(s: NativeState, canonical: u64)
    ensures var s' := InvokedHash(s, canonical).0;
            var runtime := RuntimeOf(s.crossmap, canonical, s.build);
            && s' == s.(stats := s'.stats, crossmap := s.crossmap.(stats := s'.crossmap.stats), cache := s'.cache)
            && (s'.cache == s.cache ||
                (runtime.Some? && ValidHandler(s.table, runtime.value).Some? &&
                 s'.cache == s.cache[runtime.value :=
                               Registration(runtime.value, ValidHandler(s.table, runtime.value).value, true, 0)]))
  {
  }

  /** The state after a call: counters, crossmap lookups and one cache entry are all that changes. */
  function Called(s: NativeState, failures: nat, cacheHits: nat, tableHits: nat, translated: nat, misses: nat,
                  cache: Registry): NativeState {
    var (c, m) := (s.stats, s.crossmap.stats);
    NativeState(s.ready, s.build,
                MapState(s.crossmap.byCanonical, s.crossmap.byRuntime,
                         Stats(m.entries, m.translated + translated, m.misses + misses, m.collisions)),
                cache, s.table, s.indexed,
                InvokeStats(c.calls + 1, c.failures + failures, c.cacheHits + cacheHits, c.tableHits + tableHits,
                            c.indexedHits))
  }

  /** The handler the table holds and vouches for. */
  predicate Vouches(t: Registry, hash: u64) {
    hash in t && t[hash].validated && t[hash].handler != 0
  }

  /** Every outcome of a call by hash: the manager is not ready, the build has no such native, the cache
      holds a validated handler, the table holds one, which is then cached, or neither does. */
  lemma InvokedHashMeaning(s: NativeState, canonical: u64)
    ensures var (k, c, cached) := (Key(canonical, s.build), s.crossmap.byCanonical, s.cache);
            InvokedHash(s, canonical) ==
            if !s.ready then (Called(s, 1, 0, 0, 0, 0, cached), NotReady)
            else if k !in c then (Called(s, 1, 0, 0, 0, 2, cached), NotInCrossmap(canonical))
            else
              var h := c[k].runtime;
              if h in cached && cached[h].validated
              then (Called(s, 1, 1, 0, 1, 0, cached), NoAdapter(cached[h].handler, canonical))
              else if Vouches(s.table, h)
              then (Called(s, 1, 0, 1, 3, 0, cached[h := Registration(h, s.table[h].handler, true, 0)]),
                    NoAdapter(s.table[h].handler, canonical))
              else (Called(s, 1, 0, 0, 2, 0, cached), HandlerUnresolved(canonical, h))
  {
  }

  function CalledByIndex(s: NativeState, indexedHits: nat): NativeState {
    var c := s.stats;
    s.(stats := InvokeStats(c.calls + 1, c.failures + 1, c.cacheHits, c.tableHits, c.indexedHits + indexedHits))
  }

  /** Every outcome of a call by index, which touches nothing but the counters. */
  lemma InvokedIndexMeaning(s: NativeState, index: nat)
    ensures InvokedIndex(s, index) ==
            if !s.ready then (CalledByIndex(s, 0), NotReady)
            else if s.indexed.None? then (CalledByIndex(s, 0), NoIndexedTable)
            else if index < |s.indexed.value| && s.indexed.value[index].validated && s.indexed.value[index].handler != 0
            then (CalledByIndex(s, 1), NoAdapter(s.indexed.value[index].handler, s.indexed.value[index].hash))
            else (CalledByIndex(s, 0), IndexedUnresolved(index))
  {
  }

  /** A batch of registrations that succeeds so far takes one more as a single one; a failed one takes none. */
  lemma {:induction false} BatchInTurn(t: Registry, rs: seq<Registration>, r: Registration)
    ensures RegisteredAll(t, rs + [r]) ==
            if RegisteredAll(t, rs).1.Some? then RegisteredAll(t, rs) else Registered(RegisteredAll(t, rs).0, r)
    ensures RegisteredAll(t, []) == (t, None)
    decreases |rs|
  {
    if rs == [] {
      assert rs + [r] == [r] && [r][1..] == [];
    } else {
      assert (rs + [r])[1..] == rs[1..] + [r];
      BatchInTurn(Registered(t, rs[0]).0, rs[1..], r);
    }
  }

  predicate IsRegistration(op: Op) {
    op.Register? || op.RegisterBatch?
  }

  predicate IsCall(op: Op) {
    op.InvokeHash? || op.InvokeIndex?
  }

  /** What is neither a registration, a table clear nor a call only takes entries out of the cache. */
  lemma OthersOnlyForget(s: NativeState, op: Op)
    requires !IsRegistration(op) && !op.ClearTable? && !IsCall(op)
    ensures Step(s, op).table == s.table && Step(s, op).stats == s.stats
    ensures forall h :: h in Step(s, op).cache ==> h in s.cache && Step(s, op).cache[h] == s.cache[h]
  {
  }

  lemma CallKeepsCacheSound(s: NativeState, canonical: u64)
    requires CacheSound(s)
    ensures CacheSound(InvokedHash(s, canonical).0)
  {
    InvokedHashCases(s, canonical);
  }

  lemma RegistrationsKeepCacheSound(s: NativeState, rs: seq<Registration>)
    requires CacheSound(s)
    ensures CacheSound(s.(table := RegisteredAll(s.table, rs).0))
  {
    RegisteringAllKeepsHandlers(s.table, rs);
  }

  lemma OneRegistration(t: Registry, r: Registration)
    ensures RegisteredAll(t, [r]).0 == Registered(t, r).0
  {
    assert [r][1..] == [];
  }

  lemma StepKeepsCacheSound(s: NativeState, op: Op)
    requires CacheSound(s) && !op.ClearTable?
    ensures CacheSound(Step(s, op))
  {
    if op.Register? {
      OneRegistration(s.table, op.r);
      RegistrationsKeepCacheSound(s, [op.r]);
    } else if op.RegisterBatch? {
      RegistrationsKeepCacheSound(s, op.rs);
    } else if op.InvokeHash? {
      CallKeepsCacheSound(s, op.canonical);
    } else if !op.InvokeIndex? {
      OthersOnlyForget(s, op);
    }
  }

  /** One step: only clearing the table under a filled cache breaks it. */
  lemma StepKeepsCacheSoundIff(s: NativeState, op: Op)
    requires CacheSound(s)
    ensures CacheSound(Step(s, op)) <==> !(op.ClearTable? && s.cache != map[])
  {
    if !op.ClearTable? {
      StepKeepsCacheSound(s, op);
    } else if s.cache != map[] {
      var h :| h in s.cache;
      assert h !in Step(s, op).table;
    }
  }

  /** The table is only ever cleared while nothing is cached. */
  ghost predicate ClearsInTime(s: NativeState, ops: seq<Op>) {
    forall i :: 0 <= i < |ops| && ops[i].ClearTable? ==> After(s, ops[..i]).cache == map[]
  }

  lemma OneMoreOp(s: NativeState, ops: seq<Op>, k: nat)
    requires k < |ops|
    ensures After(s, ops[..k + 1]) == Step(After(s, ops[..k]), ops[k])
  {
    assert ops[..k + 1][..k] == ops[..k];
  }

  lemma {:induction false} ClearsInTimeKeepSound(s: NativeState, ops: seq<Op>, k: nat)
    requires CacheSound(s) && ClearsInTime(s, ops) && k <= |ops|
    ensures CacheSound(After(s, ops[..k]))
  {
    if k > 0 {
      ClearsInTimeKeepSound(s, ops, k - 1);
      OneMoreOp(s, ops, k - 1);
      StepKeepsCacheSoundIff(After(s, ops[..k - 1]), ops[k - 1]);
    }
  }

  lemma EveryRunKeepsCacheSound(s: NativeState, ops: seq<Op>)
    requires CacheSound(s) && ClearsInTime(s, ops)
    ensures CacheSound(After(s, ops))
  {
    ClearsInTimeKeepSound(s, ops, |ops|);
    assert ops[..|ops|] == ops;
  }

  /** Over a whole run, every cached handler is the table's throughout exactly when each clearing of
      the table found the cache empty. */
  lemma CacheSoundThroughoutIff(s: NativeState, ops: seq<Op>)
    requires CacheSound(s)
    ensures (forall k :: 0 <= k <= |ops| ==> CacheSound(After(s, ops[..k]))) <==> ClearsInTime(s, ops)
  {
    if ClearsInTime(s, ops) {
      forall k | 0 <= k <= |ops| ensures CacheSound(After(s, ops[..k])) {
        ClearsInTimeKeepSound(s, ops, k);
      }
    } else {
      var i :| 0 <= i < |ops| && ops[i].ClearTable? && After(s, ops[..i]).cache != map[];
      OneMoreOp(s, ops, i);
      if CacheSound(After(s, ops[..i])) {
        StepKeepsCacheSoundIff(After(s, ops[..i]), ops[i]);
      }
      assert !CacheSound(After(s, ops[..i])) || !CacheSound(After(s, ops[..i + 1]));
    }
  }

  /** The handler a call by hash reaches, if any. */
  function Picked(s: NativeState, canonical: u64): Option<u64> {
    match InvokedHash(s, canonical).1
    case NoAdapter(handler, _) => Some(handler)
    case _ => None
  }

  /** The handler the crossmap and the table alone lead to. */
  function TablePick(s: NativeState, canonical: u64): Option<u64> {
    if !s.ready then None
    else match RuntimeOf(s.crossmap, canonical, s.build)
      case None => None
      case Some(h) => ValidHandler(s.table, h)
  }

  /** A cache hit that outlives the table's validation of its handler. */
  predicate Revoked(s: NativeState, canonical: u64) {
    s.ready &&
    match RuntimeOf(s.crossmap, canonical, s.build)
    case None => false
    case Some(h) => h in s.cache && h in s.table && !s.table[h].validated
  }

  /** After a run from an empty cache that clears the table only while nothing is cached, the cached
      path and the table path never pick different handlers, and they pick alike exactly when the
      table has not withdrawn its validation of a cached handler. */
  lemma PathsAgreeIff(s: NativeState, ops: seq<Op>, canonical: u64)
    requires s.cache == map[] && TableOk(s.table) && ClearsInTime(s, ops)
    ensures var now := After(s, ops);
            && (Picked(now, canonical) == TablePick(now, canonical) <==> !Revoked(now, canonical))
            && (TablePick(now, canonical).Some? ==> Picked(now, canonical) == TablePick(now, canonical))
  {
    EveryRunKeepsCacheSound(s, ops);
  }

  /** A cache hit the table no longer vouches for: revoked, cleared away, or since registered with
      another handler. */
  predicate Outlived(s: NativeState, canonical: u64) {
    s.ready &&
    match RuntimeOf(s.crossmap, canonical, s.build)
    case None => false
    case Some(h) => h in s.cache && ValidHandler(s.table, h) != Some(s.cache[h].handler)
  }

  lemma {:induction false} CachedAreValidated(s: NativeState, ops: seq<Op>)
    requires s.cache == map[]
    ensures forall h :: h in After(s, ops).cache ==> After(s, ops).cache[h].validated
  {
    if ops != [] {
      var front, op := ops[..|ops| - 1], ops[|ops| - 1];
      CachedAreValidated(s, front);
      if op.InvokeHash? {
        InvokedHashCases(After(s, front), op.canonical);
      }
    }
  }

  /** After any run at all from an empty cache, whatever the table went through, the two paths pick
      alike exactly when the table still vouches for the cached handler. */
  lemma PathsAgreeIffVouched(s: NativeState, ops: seq<Op>, canonical: u64)
    requires s.cache == map[]
    ensures var now := After(s, ops);
            Picked(now, canonical) == TablePick(now, canonical) <==> !Outlived(now, canonical)
  {
    CachedAreValidated(s, ops);
  }

  /** A first registration and the first call through it, from an empty cache and table. */
  lemma FirstCallCaches(s: NativeState, canonical: u64, runtime: u64, handler: u64, ops: seq<Op>)
    requires s.ready && s.cache == map[] && s.table == map[]
    requires RuntimeOf(s.crossmap, canonical, s.build) == Some(runtime) && runtime != 0 && handler != 0
    requires |ops| >= 2
    requires ops[0] == Register(Registration(runtime, handler, true, 0)) && ops[1] == InvokeHash(canonical)
    ensures var now := After(s, ops[..2]);
            && now.ready && RuntimeOf(now.crossmap, canonical, now.build) == Some(runtime)
            && now.cache == map[runtime := Registration(runtime, handler, true, 0)]
            && now.table == map[runtime := Registration(runtime, handler, true, 0)]
  {
    assert ops[..0] == [];
    OneMoreOp(s, ops, 0);
    OneMoreOp(s, ops, 1);
    InvokedHashCases(After(s, ops[..1]), canonical);
  }

  /** The withdrawal really happens: registering the same handler again as unvalidated leaves the
      cached one in use. */
  lemma RevocationIsIgnored(s: NativeState, canonical: u64, runtime: u64, handler: u64)
    requires s.ready && s.cache == map[] && s.table == map[]
    requires RuntimeOf(s.crossmap, canonical, s.build) == Some(runtime) && runtime != 0 && handler != 0
    ensures var ops := [Register(Registration(runtime, handler, true, 0)), InvokeHash(canonical),
                        Register(Registration(runtime, handler, false, 0))];
            && Picked(After(s, ops), canonical) == Some(handler)
            && TablePick(After(s, ops), canonical) == None
  {
    var ops := [Register(Registration(runtime, handler, true, 0)), InvokeHash(canonical),
                Register(Registration(runtime, handler, false, 0))];
    FirstCallCaches(s, canonical, runtime, handler, ops);
    OneMoreOp(s, ops, 2);
    assert ops[..3] == ops;
  }

  /** A table cleared under a cached handler and filled again. */
  lemma RefilledTable(s: NativeState, canonical: u64, runtime: u64, handler: u64, handler': u64)
    requires s.ready && RuntimeOf(s.crossmap, canonical, s.build) == Some(runtime)
    requires s.cache == map[runtime := Registration(runtime, handler, true, 0)]
    requires runtime != 0 && handler' != 0
    ensures var now := Step(Step(s, ClearTable), Register(Registration(runtime, handler', true, 0)));
            Picked(now, canonical) == Some(handler) && TablePick(now, canonical) == Some(handler')
  {
  }

  /** Nor does the cache notice that the table was cleared and now holds another handler: a call
      reaches the old one. */
  lemma TableClearIsIgnored(s: NativeState, canonical: u64, runtime: u64, handler: u64, handler': u64)
    requires s.ready && s.cache == map[] && s.table == map[]
    requires RuntimeOf(s.crossmap, canonical, s.build) == Some(runtime) && runtime != 0 && handler != 0
    requires handler' != 0 && handler' != handler
    ensures var ops := [Register(Registration(runtime, handler, true, 0)), InvokeHash(canonical), ClearTable,
                        Register(Registration(runtime, handler', true, 0))];
            && !ClearsInTime(s, ops)
            && Picked(After(s, ops), canonical) == Some(handler)
            && TablePick(After(s, ops), canonical) == Some(handler')
  {
    var ops := [Register(Registration(runtime, handler, true, 0)), InvokeHash(canonical), ClearTable,
                Register(Registration(runtime, handler', true, 0))];
    FirstCallCaches(s, canonical, runtime, handler, ops);
    var called := After(s, ops[..2]);
    OneMoreOp(s, ops, 2);
    OneMoreOp(s, ops, 3);
    assert ops[..4] == ops;
    assert After(s, ops) == Step(Step(called, ClearTable), ops[3]);
    RefilledTable(called, canonical, runtime, handler, handler');
    assert ops[2].ClearTable? && runtime in called.cache;
  }

  /** A call by index reaches a handler exactly when its slot holds a validated one. */
  lemma IndexedPick(s: NativeState, index: nat, handler: u64, hash: u64)
    ensures InvokedIndex(s, index).1 == NoAdapter(handler, hash) <==>
            s.ready && s.indexed.Some? && index < |s.indexed.value| &&
            s.indexed.value[index] == Slot(hash, handler, true) && handler != 0
  {
  }

  // ---------- statistics ----------

  /** How often an operation looks the crossmap up, cache and table hits aside. */
  function LookupsOf(op: Op): nat {
    match op
    case InvokeHash(_) => 2
    case Translate(_) => 1
    case FindCached(_) => 1
    case ToRuntime(_, _) => 1
    case ToCanonical(_, _) => 1
    case _ => 0
  }

  function LookupsOfAll(ops: seq<Op>): nat {
    if ops == [] then 0 else LookupsOfAll(ops[..|ops| - 1]) + LookupsOf(ops[|ops| - 1])
  }

  const NO_CALLS := InvokeStats(0, 0, 0, 0, 0)

  function Hits(s: NativeState): nat {
    s.stats.cacheHits + s.stats.tableHits + s.stats.indexedHits
  }

  function Lookups(s: NativeState): nat {
    s.crossmap.stats.translated + s.crossmap.stats.misses
  }

  ghost predicate CallsBalanced(s: NativeState, s': NativeState) {
    && s'.stats.calls - s.stats.calls == s'.stats.failures - s.stats.failures
    && Hits(s') - Hits(s) <= s'.stats.calls - s.stats.calls
  }

  /** The counters of two states balance over operations with this many lookups: a cache hit saves
      one, a table hit costs one more. */
  ghost predicate Balanced(s: NativeState, s': NativeState, lookups: nat) {
    && s'.ready == s.ready && CallsBalanced(s, s')
    && (s.ready ==> Lookups(s') + s'.stats.cacheHits + s.stats.tableHits ==
                    Lookups(s) + s.stats.cacheHits + s'.stats.tableHits + lookups)
  }

  /** The operations that start the crossmap's own counters over. */
  predicate Resets(op: Op) {
    op.ClearCrossmap? || op.Restart? || op.Shutdown?
  }

  lemma HashCallBalance(s: NativeState, canonical: u64)
    ensures Balanced(s, InvokedHash(s, canonical).0, 2)
  {
  }

  lemma {:induction false} AddingCountsNoLookup(m: MapState, es: seq<Entry>)
    ensures AddedAll(m, es).0.stats.translated == m.stats.translated && AddedAll(m, es).0.stats.misses == m.stats.misses
    decreases |es|
  {
    if es != [] && Added(m, es[0]).1.None? {
      AddingCountsNoLookup(Added(m, es[0]).0, es[1..]);
    }
  }

  lemma OthersBalance(s: NativeState, op: Op)
    requires !IsCall(op) && !Resets(op)
    ensures Step(s, op).ready == s.ready && (s.ready ==> Lookups(Step(s, op)) == Lookups(s) + LookupsOf(op))
  {
    match op {
      case AddNatives(es) => AddingCountsNoLookup(s.crossmap, es);
      case LoadNatives(file, expected) =>
        if CrossmapText.Loading(file, expected).Body? {
          AddingCountsNoLookup(s.crossmap, CrossmapText.Loading(file, expected).entries);
        }
      case _ =>
    }
  }

  lemma StepBalance(s: NativeState, op: Op)
    ensures CallsBalanced(s, Step(s, op))
    ensures !Resets(op) ==> Balanced(s, Step(s, op), LookupsOf(op))
  {
    if op.InvokeHash? {
      HashCallBalance(s, op.canonical);
    } else if !IsCall(op) {
      assert Step(s, op).stats == s.stats;
      if !Resets(op) {
        OthersBalance(s, op);
      }
    }
  }

  /** Over every run, each call adds exactly one failure and at most one hit. */
  lemma {:induction false} CallsBalance(s: NativeState, ops: seq<Op>)
    ensures CallsBalanced(s, After(s, ops))
  {
    if ops != [] {
      CallsBalance(s, ops[..|ops| - 1]);
      StepBalance(After(s, ops[..|ops| - 1]), ops[|ops| - 1]);
    }
  }

  /** And while the crossmap's counters are not started over, its lookups are accounted for: one for
      every translation and cached lookup a client asks for, and for every call by hash one on a cache
      hit, three on a table hit and two otherwise. */
  lemma {:induction false} StatisticsBalance(s: NativeState, ops: seq<Op>)
    requires forall i :: 0 <= i < |ops| ==> !Resets(ops[i])
    ensures Balanced(s, After(s, ops), LookupsOfAll(ops))
  {
    if ops != [] {
      StatisticsBalance(s, ops[..|ops| - 1]);
      StepBalance(After(s, ops[..|ops| - 1]), ops[|ops| - 1]);
    }
  }

  // ---------- the classes ----------

  class NativeTable {
    var entries: Registry

    method Register(r: Registration) returns (failure: Option<TableError>)
      modifies this
      ensures (entries, failure) == Registered(old(entries), r)
      ensures failure == (if r.hash == 0 || r.handler == 0 then Some(InvalidRegistration)
                          else if r.hash in old(entries) && old(entries)[r.hash].handler != r.handler
                          then Some(HashCollision(r.hash)) else None)
      ensures entries == if failure.None? then old(entries)[r.hash := r] else old(entries)
    {
      if r.hash == 0 || r.handler == 0 {
        return Some(InvalidRegistration);
      }
      if r.hash in entries && entries[r.hash].handler != r.handler {
        return Some(HashCollision(r.hash));
      }
      entries := entries[r.hash := r];
      return None;
    }

    method RegisterBatch(rs: seq<Registration>) returns (failure: Option<TableError>)
      modifies this
      ensures (entries, failure) == RegisteredAll(old(entries), rs)
    {
      assert rs[0..] == rs;
      for i := 0 to |rs|
        invariant RegisteredAll(old(entries), rs) == RegisteredAll(entries, rs[i..])
      {
        assert rs[i..][1..] == rs[i + 1..];
        failure := Register(rs[i]);
        if failure.Some? {
          return;
        }
      }
      return None;
    }

    method Find(hash: u64) returns (r: Option<Registration>)
      ensures r == if hash in entries then Some(entries[hash]) else None
    {
      return if hash in entries then Some(entries[hash]) else None;
    }

    method Clear()
      modifies this
      ensures entries == map[]
    {
      entries := map[];
    }
  }

  class NativeCache {
    var entries: Registry

    method Store(r: Registration)
      modifies this
      ensures entries == old(entries)[r.hash := r]
    {
      entries := entries[r.hash := r];
    }

    method Find(hash: u64) returns (r: Option<Registration>)
      ensures r == if hash in entries then Some(entries[hash]) else None
    {
      return if hash in entries then Some(entries[hash]) else None;
    }

    method Invalidate(hash: u64)
      modifies this
      ensures entries == old(entries) - {hash}
    {
      entries := entries - {hash};
    }

    method Clear()
      modifies this
      ensures entries == map[]
    {
      entries := map[];
    }
  }

  class NativeManager {
    var build: u64
    var ready: bool
    const crossmap: NativeCrossmap
    const cache: NativeCache

    constructor ()
      ensures !ready && crossmap.View() == EMPTY && fresh(crossmap) && fresh(cache)
    {
      build, ready := 0, false;
      crossmap := new NativeCrossmap();
      cache := new NativeCache;
    }

    /** Ready exactly when the build is known and the file holds, without a collision, at least
        one entry; then the crossmap holds entries of that build only. */
    method Initialize(newBuild: u64, file: Option<string>) returns (failure: Option<InitError>)
      modifies this, crossmap, cache
      ensures ready <==> failure.None?
      ensures (crossmap.View(), failure) == Initialized(newBuild, file)
      ensures build == newBuild && cache.entries == map[] && Inv(crossmap.View())
      ensures failure == Some(NoFingerprint) <==> newBuild == 0
      ensures newBuild != 0 ==>
                match CrossmapText.Loading(file, newBuild)
                case Unreadable => failure == Some(LoadFailed(CrossmapText.ReadFailed))
                case BadFormat => failure == Some(LoadFailed(CrossmapText.UnsupportedFormat))
                case Body(entries) =>
                  && (failure == Some(NoEntries) <==> entries == [])
                  && (AddedAll(EMPTY, entries).1.Some? ==>
                        failure == Some(LoadFailed(CrossmapText.Rejected(AddedAll(EMPTY, entries).1.value))))
      ensures ready <==> var content := CrossmapText.Loading(file, newBuild);
                         && newBuild != 0 && content.Body? && content.entries != []
                         && AddedAll(EMPTY, content.entries).1.None?
      ensures ready ==> crossmap.byCanonical != map[] && forall k :: k in crossmap.byCanonical ==> k.build == build
    {
      ready := false;
      cache.Clear();
      crossmap.Clear();
      build := newBuild;
      if newBuild == 0 {
        return Some(NoFingerprint);
      }
      ghost var content := CrossmapText.Loading(file, newBuild);
      if content.Body? {
        AddAllKeepsInv(EMPTY, content.entries);
        CrossmapText.LoadedEntriesAreOfBuild(file, newBuild);
      }
      var loaded := CrossmapText.LoadText(crossmap, file, newBuild);
      if loaded.Some? {
        return Some(LoadFailed(loaded.value));
      }
      if |crossmap.byCanonical| == 0 {
        return Some(NoEntries);
      }
      ready := true;
      return None;
    }

    method Shutdown()
      modifies this, crossmap, cache
      ensures !ready && crossmap.View() == EMPTY && cache.entries == map[] && build == old(build)
    {
      ready := false;
      cache.Clear();
      crossmap.Clear();
    }

    method Translate(canonical: u64) returns (r: Option<u64>)
      modifies crossmap`stats
      ensures r == if ready then RuntimeOf(crossmap.View(), canonical, build) else None
      ensures crossmap.View() == if ready then Counted(old(crossmap.View()), r.Some?) else old(crossmap.View())
    {
      if !ready {
        return None;
      }
      r := crossmap.ToRuntime(canonical, build);
    }

    method FindCached(canonical: u64) returns (r: Option<Registration>)
      modifies crossmap`stats
      ensures ready ==>
                crossmap.View() ==
                  Counted(old(crossmap.View()), RuntimeOf(old(crossmap.View()), canonical, build).Some?)
      ensures ready ==> r == match RuntimeOf(old(crossmap.View()), canonical, build)
                             case None => None
                             case Some(h) => if h in cache.entries then Some(cache.entries[h]) else None
      ensures !ready ==> r == None && crossmap.View() == old(crossmap.View())
    {
      var runtime := Translate(canonical);
      if runtime.None? {
        return None;
      }
      r := cache.Find(runtime.value);
    }

    method CacheResolved(canonical: u64, handler: u64, validated: bool)
      modifies crossmap`stats, cache
      ensures var runtime := if ready then RuntimeOf(old(crossmap.View()), canonical, build) else None;
              && crossmap.View() ==
                   (if ready then Counted(old(crossmap.View()), runtime.Some?) else old(crossmap.View()))
              && cache.entries ==
                   (if runtime.Some?
                    then old(cache.entries)[runtime.value := Registration(runtime.value, handler, validated, 0)]
                    else old(cache.entries))
    {
      var runtime := Translate(canonical);
      if runtime.None? {
        return;
      }
      cache.Store(Registration(runtime.value, handler, validated, 0));
    }
  }

  class NativeInvoker {
    const manager: NativeManager
    const table: NativeTable
    var indexed: Option<seq<Slot>>
    var stats: InvokeStats

    constructor (manager: NativeManager, table: NativeTable, indexed: Option<seq<Slot>>)
      ensures this.manager == manager && this.table == table && this.indexed == indexed && stats == NO_CALLS
    {
      this.manager, this.table, this.indexed, this.stats := manager, table, indexed, NO_CALLS;
    }

    ghost function View(): NativeState
      reads this, manager, manager.crossmap, manager.cache, table
    {
      NativeState(manager.ready, manager.build, manager.crossmap.View(), manager.cache.entries, table.entries, indexed,
                  stats)
    }

    method InvokeResolved(handler: u64, hash: u64) returns (error: InvokeError)
      modifies this`stats
      ensures stats == old(stats).(failures := old(stats).failures + 1) && error == NoAdapter(handler, hash)
    {
      stats := stats.(failures := stats.failures + 1);
      return NoAdapter(handler, hash);
    }

    method Invoke(canonical: u64) returns (error: InvokeError)
      modifies this`stats, manager.crossmap`stats, manager.cache
      ensures (View(), error) == InvokedHash(old(View()), canonical)
    {
      stats := stats.(calls := stats.calls + 1);
      if !manager.ready {
        stats := stats.(failures := stats.failures + 1);
        return NotReady;
      }
      var cached := manager.FindCached(canonical);
      if cached.Some? && cached.value.validated {
        stats := stats.(cacheHits := stats.cacheHits + 1);
        error := InvokeResolved(cached.value.handler, canonical);
      } else {
        error := InvokeThroughTable(canonical);
      }
    }

    method InvokeThroughTable(canonical: u64) returns (error: InvokeError)
      modifies this`stats, manager.crossmap`stats, manager.cache
      ensures (View(), error) == InvokedThroughTable(old(View()), canonical)
    {
      var translated := manager.Translate(canonical);
      if translated.None? {
        stats := stats.(failures := stats.failures + 1);
        return NotInCrossmap(canonical);
      }
      var registration := table.Find(translated.value);
      if registration.None? || !registration.value.validated || registration.value.handler == 0 {
        stats := stats.(failures := stats.failures + 1);
        return HandlerUnresolved(canonical, translated.value);
      }
      manager.CacheResolved(canonical, registration.value.handler, true);
      stats := stats.(tableHits := stats.tableHits + 1);
      error := InvokeResolved(registration.value.handler, canonical);
    }

    method InvokeIndexed(index: nat) returns (error: InvokeError)
      modifies this`stats
      ensures (View(), error) == InvokedIndex(old(View()), index)
    {
      stats := stats.(calls := stats.calls + 1);
      if !manager.ready {
        stats := stats.(failures := stats.failures + 1);
        return NotReady;
      }
      if indexed.None? {
        stats := stats.(failures := stats.failures + 1);
        return NoIndexedTable;
      }
      var handler := GetIndexed(indexed.value, index);
      if handler.None? {
        stats := stats.(failures := stats.failures + 1);
        return IndexedUnresolved(index);
      }
      stats := stats.(indexedHits := stats.indexedHits + 1);
      var hash := IndexedHash(indexed.value, index);
      error := InvokeResolved(handler.value, if hash.Some? then hash.value else 0);
    }
  }
}
