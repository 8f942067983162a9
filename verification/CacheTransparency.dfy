/** When the cache never changes an answer: exactly when each entry it could hand out is the scan's,
    which every cache that resolves have filled satisfies. */
module CacheTransparency {
  import opened Wrappers
  import opened Machine
  import opened PatternCache
  import opened PatternSearch
  import opened BatchScanner
  import Scanner

  /** What stays fixed over a run: which modules exist, one image per module name and
      fingerprint, one request per pattern name, and the deterministic scan. */
  datatype World = World(modules: set<string>, images: (string, u64) -> Image, requests: string -> Request,
                         scan: Scan)

  ghost predicate Known(w: World, image: Image, req: Request) {
    && image.info.name in w.modules
    && image == w.images(image.info.name, image.info.fingerprint)
    && req == w.requests(req.name)
  }

  /** The scan behind a cache key gives this address. */
  ghost predicate ScanGives(w: World, key: CacheKey, address: u64) {
    var r := w.scan(w.images(key.moduleName, key.fingerprint), w.requests(key.name));
    r.Success? && r.value.address == address
  }

  /** Every entry sits under its own key and holds the scanned address and its module's base. */
  ghost predicate Agrees(m: Entries, w: World) {
    WellKeyed(m) && forall k :: k in m ==> EntryAgrees(m[k], w)
  }

  ghost predicate EntryAgrees(e: CacheEntry, w: World) {
    && e.key.moduleName in w.modules
    && e.moduleBase == w.images(e.key.moduleName, e.key.fingerprint).info.base
    && ScanGives(w, e.key, e.address)
  }

  ghost predicate SameAnswer(r: Result<Resolution, ResolveError>, expected: Result<Resolution, ResolveError>) {
    match (r, expected)
    case (Success(a), Success(b)) => a.name == b.name && a.address == b.address
    case (Failure(e), Failure(f)) => e == f
    case _ => false
  }

  ghost predicate SameAnswers(r: Result<seq<Resolution>, ResolveError>,
                              expected: Result<seq<Resolution>, ResolveError>) {
    match (r, expected)
    case (Success(xs), Success(ys)) =>
      |xs| == |ys| && forall i :: 0 <= i < |xs| ==> xs[i].name == ys[i].name && xs[i].address == ys[i].address
    case (Failure(e), Failure(f)) => e == f
    case _ => false
  }

  /** No entry misleads: one that its own request would use is the scanned address. An entry that
      the validator or the image range rejects is scanned again, so it may hold anything. */
  ghost predicate Harmless(m: Entries, w: World) {
    WellKeyed(m) && forall k :: k in m ==> EntryHarmless(m[k], w)
  }

  ghost predicate EntryHarmless(e: CacheEntry, w: World) {
    var image, req := w.images(e.key.moduleName, e.key.fingerprint), w.requests(e.key.name);
    e.key.moduleName in w.modules && (Usable(image, req, e.address) ==> ScanGives(w, e.key, e.address))
  }

  /** Every entry sits under its own key, which names a module of this world. */
  ghost predicate Housed(m: Entries, w: World) {
    WellKeyed(m) && forall k :: k in m ==> m[k].key.moduleName in w.modules
  }

  lemma AgreeingIsHarmless(m: Entries, w: World)
    requires Agrees(m, w)
    ensures Harmless(m, w)
  {
  }

  /** A usable hit can only be the address the scan of the same request gives. */
  lemma UsableHitIsScanned(m: Entries, w: World, image: Image, req: Request)
    requires Unambiguous(w.modules) && Harmless(m, w) && Known(w, image, req)
    requires var hit := Lookup(m, KeyOf(image, req)); hit.Some? && Usable(image, req, hit.value)
    ensures w.scan(image, req).Success?
    ensures w.scan(image, req).value.address == Lookup(m, KeyOf(image, req)).value
  {
    var key := KeyOf(image, req);
    StableKeyInjective(w.modules, m[key.StableKey()].key, key);
  }

  /** What an entry of a cache after a resolve is: an old one, whatever its hit count, or the
      scanned address of the request. */
  ghost predicate ComesFrom(e: CacheEntry, k: string, m: Entries, scan: Scan, image: Image, req: Request) {
    || (k in m && e == m[k].(hits := e.hits))
    || (k == KeyOf(image, req).StableKey() && scan(image, req).Success?
        && e == NewEntry(KeyOf(image, req), scan(image, req).value.address, image.info.base))
  }

  lemma ResolveKeepsEntries(scan: Scan, m: Entries, image: Image, req: Request)
    ensures var after := Cached(scan, m, image, req).1;
            forall k :: k in after ==> ComesFrom(after[k], k, m, scan, image, req)
  {
  }

  lemma CachedKeepsHarmless(m: Entries, w: World, image: Image, req: Request)
    requires Harmless(m, w) && Known(w, image, req)
    ensures Harmless(Cached(w.scan, m, image, req).1, w)
  {
    ResolveKeepsEntries(w.scan, m, image, req);
  }

  /** A resolve answers as it would with no cache, hit, rejected hit and miss alike, and leaves a
      harmless cache. */
  lemma CachedIsTransparent(m: Entries, w: World, image: Image, req: Request)
    requires Unambiguous(w.modules) && Harmless(m, w) && Known(w, image, req)
    ensures SameAnswer(Cached(w.scan, m, image, req).0, Uncached(w.scan, image, req))
    ensures Harmless(Cached(w.scan, m, image, req).1, w)
  {
    CachedKeepsHarmless(m, w, image, req);
    var swept := WithoutStale(m, image.info.name, image.info.fingerprint);
    assert Harmless(swept, w);
    var hit := Lookup(swept, KeyOf(image, req));
    if hit.Some? && Usable(image, req, hit.value) {
      UsableHitIsScanned(swept, w, image, req);
    }
  }

  /** What a resolve through a cache answers is what it answers through none, exactly when an address
      the cache serves is the one the search answers. */
  lemma ServedAsSearched(m: Entries, m': Option<Entries>, image: Image, req: Request,
                         r: Result<Resolution, ResolveError>, uncached: Result<Resolution, ResolveError>)
    ensures Answered(Some(m), m', image, req, r) && Answered(None, None, image, req, uncached) ==>
              (SameAnswer(r, uncached) <==>
                 (Serves(m, image, req) ==>
                    exists s :: SearchAnswers(image, req,
                                              Success(Found(m[image.info.name + "::" + req.name].address, s)))))
  {
    if Serves(m, image, req) {
      var a := m[image.info.name + "::" + req.name].address;
      if s :| SearchAnswers(image, req, Success(Found(a, s))) {
        AnswerIsUnique(image, req, Success(Found(a, s)), Searched(uncached));
      }
    } else {
      AnswerIsUnique(image, req, Searched(r), Searched(uncached));
    }
  }

  function Searched(r: Result<Resolution, ResolveError>): Result<Found, ResolveError> {
    match r
    case Success(res) => Success(Found(res.address, res.statistics))
    case Failure(e) => Failure(e)
  }

  lemma PrependSame(a: Resolution, b: Resolution, rest: Result<seq<Resolution>, ResolveError>,
                    rest': Result<seq<Resolution>, ResolveError>)
    requires SameAnswer(Success(a), Success(b)) && SameAnswers(rest, rest')
    ensures SameAnswers(Prepend([a], rest), Prepend([b], rest'))
  {
  }

  /** All requests in turn through a harmless cache, as through none. */
  lemma {:induction false} AllAreTransparent(m: Entries, w: World, image: Image, requests: seq<Request>)
    requires Unambiguous(w.modules) && Harmless(m, w)
    requires forall i :: 0 <= i < |requests| ==> Known(w, image, requests[i])
    ensures SameAnswers(ResolveAll(w.scan, Some(m), image, requests).0, ResolveAll(w.scan, None, image, requests).0)
    decreases |requests|
  {
    if requests != [] {
      CachedIsTransparent(m, w, image, requests[0]);
      var (first, after) := Cached(w.scan, m, image, requests[0]);
      AllAreTransparent(after, w, image, requests[1..]);
      if first.Success? {
        PrependSame(first.value, Uncached(w.scan, image, requests[0]).value,
                    ResolveAll(w.scan, Some(after), image, requests[1..]).0,
                    ResolveAll(w.scan, None, image, requests[1..]).0);
      }
    }
  }

  /** A resolve keeps a cache of scanned addresses one. */
  lemma CachedKeepsAgreement(m: Entries, w: World, image: Image, req: Request)
    requires Agrees(m, w) && Known(w, image, req)
    ensures Agrees(Cached(w.scan, m, image, req).1, w)
  {
    ResolveKeepsEntries(w.scan, m, image, req);
  }

  // ---------- exactly when a cache is transparent ----------

  /** A resolve through this cache answers as with none, for whichever module and request. */
  ghost predicate Transparent(m: Entries, w: World) {
    forall image, req :: Known(w, image, req) ==> AnswersAlike(m, w, image, req)
  }

  ghost predicate AnswersAlike(m: Entries, w: World, image: Image, req: Request) {
    SameAnswer(Cached(w.scan, m, image, req).0, Uncached(w.scan, image, req))
  }

  /** The key names a module image and a request of this world. */
  ghost predicate Names(w: World, key: CacheKey) {
    var image, req := w.images(key.moduleName, key.fingerprint), w.requests(key.name);
    Known(w, image, req) && KeyOf(image, req) == key
  }

  lemma EntryAnswers(m: Entries, w: World, k: string)
    requires WellKeyed(m) && k in m && Names(w, m[k].key)
    ensures var image, req := w.images(m[k].key.moduleName, m[k].key.fingerprint), w.requests(m[k].key.name);
            Usable(image, req, m[k].address) ==>
              Cached(w.scan, m, image, req).0 == Success(Resolution(req.name, m[k].address, true, Scanner.NO_STATS))
  {
  }

  /** The cache changes no answer exactly when each entry that its own request would use is the
      scanned address. */
  lemma TransparentIff(m: Entries, w: World)
    requires Unambiguous(w.modules) && WellKeyed(m) && forall k :: k in m ==> Names(w, m[k].key)
    ensures Transparent(m, w) <==> Harmless(m, w)
  {
    if Transparent(m, w) {
      forall k | k in m ensures EntryHarmless(m[k], w) {
        var image, req := w.images(m[k].key.moduleName, m[k].key.fingerprint), w.requests(m[k].key.name);
        EntryAnswers(m, w, k);
        assert AnswersAlike(m, w, image, req);
      }
    }
    if Harmless(m, w) {
      forall image, req | Known(w, image, req) ensures AnswersAlike(m, w, image, req) {
        CachedIsTransparent(m, w, image, req);
      }
    }
  }

  // ---------- whole runs ----------

  /** The operations clients perform on one shared cache. */
  datatype CacheUse =
    | Resolving(image: Image, req: Request)
    | Invalidating(moduleName: string, name: string)
    | DroppingModule(moduleName: string)
    | DroppingStale(moduleName: string, fingerprint: u64)
    | Clearing

  function Apply(scan: Scan, m: Entries, use: CacheUse): Entries {
    match use
    case Resolving(image, req) => Cached(scan, m, image, req).1
    case Invalidating(moduleName, name) => Erased(m, moduleName, name)
    case DroppingModule(moduleName) => WithoutModule(m, moduleName)
    case DroppingStale(moduleName, fingerprint) => WithoutStale(m, moduleName, fingerprint)
    case Clearing => map[]
  }

  function After(scan: Scan, m: Entries, uses: seq<CacheUse>): Entries {
    if uses == [] then m else Apply(scan, After(scan, m, uses[..|uses| - 1]), uses[|uses| - 1])
  }

  ghost predicate AllKnown(w: World, uses: seq<CacheUse>) {
    forall i :: 0 <= i < |uses| && uses[i].Resolving? ==> Known(w, uses[i].image, uses[i].req)
  }

  lemma {:induction false} RunsAgree(m: Entries, w: World, uses: seq<CacheUse>)
    requires Agrees(m, w) && AllKnown(w, uses)
    ensures Agrees(After(w.scan, m, uses), w)
  {
    if uses != [] {
      var last := uses[|uses| - 1];
      RunsAgree(m, w, uses[..|uses| - 1]);
      if last.Resolving? {
        CachedKeepsAgreement(After(w.scan, m, uses[..|uses| - 1]), w, last.image, last.req);
      }
    }
  }

  /** Over any run from an empty cache, every resolve answers as it would with no cache. */
  lemma EveryResolveIsTransparent(w: World, uses: seq<CacheUse>, i: nat)
    requires Unambiguous(w.modules) && AllKnown(w, uses)
    requires i < |uses| && uses[i].Resolving?
    ensures AnswersAlike(After(w.scan, map[], uses[..i]), w, uses[i].image, uses[i].req)
  {
    RunsAgree(map[], w, uses[..i]);
    AgreeingIsHarmless(After(w.scan, map[], uses[..i]), w);
    CachedIsTransparent(After(w.scan, map[], uses[..i]), w, uses[i].image, uses[i].req);
  }
}
