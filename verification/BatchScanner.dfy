/** Resolving a pattern request in a module, with and without the cache. */
module BatchScanner {
  import opened Wrappers
  import opened Machine
  import opened Pattern
  import opened Scanner
  import opened PatternCache
  import opened PatternSearch

  // ---------- the resolve with a cache ----------

  function KeyOf(image: Image, req: Request): CacheKey {
    CacheKey(image.info.name, req.name, image.info.fingerprint)
  }

  predicate Usable(image: Image, req: Request, address: u64) {
    req.Accepts(address) && image.info.ImageRange().Contains(address, 1)
  }

  function Fresh(req: Request, f: Found): Resolution {
    Resolution(req.name, f.address, false, f.statistics)
  }

  /** A deterministic scan: `Search`, or anything standing for it. What follows about the cache
      holds whatever the scan does, so it is stated for every scan. */
  type Scan = (Image, Request) -> Result<Found, ResolveError>

  /** The answer with no cache attached. */
  function Uncached(scan: Scan, image: Image, req: Request): Result<Resolution, ResolveError> {
    match scan(image, req)
    case Failure(e) => Failure(e)
    case Success(f) => Success(Fresh(req, f))
  }

  function Rescan(scan: Scan, m: Entries, image: Image, req: Request): (Result<Resolution, ResolveError>, Entries) {
    match scan(image, req)
    case Failure(e) => (Failure(e), m)
    case Success(f) => (Success(Fresh(req, f)), Stored(m, KeyOf(image, req), f.address, image.info.base))
  }

  function Cached(scan: Scan, m: Entries, image: Image, req: Request): (Result<Resolution, ResolveError>, Entries) {
    var key := KeyOf(image, req);
    var swept := WithoutStale(m, image.info.name, image.info.fingerprint);
    match Lookup(swept, key)
    case None => Rescan(scan, swept, image, req)
    case Some(a) =>
      if Usable(image, req, a)
      then (Success(Resolution(req.name, a, true, NO_STATS)), Touched(swept, key))
      else Rescan(scan, Erased(Touched(swept, key), image.info.name, req.name), image, req)
  }

  // ---------- several requests in turn ----------

  function Prepend(first: seq<Resolution>, rest: Result<seq<Resolution>, ResolveError>)
      : Result<seq<Resolution>, ResolveError>
  {
    match rest
    case Failure(e) => Failure(e)
    case Success(rs) => Success(first + rs)
  }

  function Before(first: seq<Resolution>, rest: (Result<seq<Resolution>, ResolveError>, Option<Entries>))
      : (Result<seq<Resolution>, ResolveError>, Option<Entries>)
  {
    (Prepend(first, rest.0), rest.1)
  }

  lemma PrependNothing(rest: Result<seq<Resolution>, ResolveError>)
    ensures Prepend([], rest) == rest
  {
    if rest.Success? {
      assert [] + rest.value == rest.value;
    }
  }

  lemma PrependMore(first: seq<Resolution>, next: Resolution, rest: Result<seq<Resolution>, ResolveError>)
    ensures Prepend(first, Prepend([next], rest)) == Prepend(first + [next], rest)
  {
    if rest.Success? {
      assert first + ([next] + rest.value) == first + [next] + rest.value;
    }
  }

  /** One request against the cache that is attached, if any. */
  function ResolveWith(scan: Scan, m: Option<Entries>, image: Image, req: Request)
      : (Result<Resolution, ResolveError>, Option<Entries>)
  {
    match m
    case None => (Uncached(scan, image, req), None)
    case Some(entries) => var (r, after) := Cached(scan, entries, image, req); (r, Some(after))
  }

  function ResolveAll(scan: Scan, m: Option<Entries>, image: Image, requests: seq<Request>)
      : (Result<seq<Resolution>, ResolveError>, Option<Entries>)
    decreases |requests|
  {
    if requests == [] then (Success([]), m)
    else
      var (r, m') := ResolveWith(scan, m, image, requests[0]);
      match r
      case Failure(e) => (Failure(e), m')
      case Success(res) => Before([res], ResolveAll(scan, m', image, requests[1..]))
  }

  lemma ResolveAllStep(scan: Scan, m: Option<Entries>, image: Image, requests: seq<Request>, i: nat,
                       first: seq<Resolution>)
    requires i < |requests|
    ensures var (r, m') := ResolveWith(scan, m, image, requests[i]);
            Before(first, ResolveAll(scan, m, image, requests[i..])) ==
            match r
            case Failure(e) => (Failure(e), m')
            case Success(res) => Before(first + [res], ResolveAll(scan, m', image, requests[i + 1..]))
  {
    assert requests[i..][1..] == requests[i + 1..];
    var (r, m') := ResolveWith(scan, m, image, requests[i]);
    if r.Success? {
      PrependMore(first, r.value, ResolveAll(scan, m', image, requests[i + 1..]).0);
    }
  }

  // ---------- what a resolve promises ----------

  /** The cache holds an entry under the request's key, of this version of the module. */
  predicate Remembers(m: Entries, image: Image, req: Request) {
    var k := image.info.name + "::" + req.name;
    k in m && m[k].key.fingerprint == image.info.fingerprint
  }

  predicate Inside(info: ModuleInfo, a: u64) {
    info.base != 0 && info.base <= a < info.base + info.size <= TWO64
  }

  /** And the validator accepts its address, which lies inside the module. */
  predicate Serves(m: Entries, image: Image, req: Request) {
    Remembers(m, image, req) &&
    var a := m[image.info.name + "::" + req.name].address; !Rejects(req, a) && Inside(image.info, a)
  }

  predicate Stale(e: CacheEntry, info: ModuleInfo) {
    e.key.moduleName == info.name && e.key.fingerprint != info.fingerprint
  }

  /** The scan's own answer. */
  ghost predicate FreshAnswer(image: Image, req: Request, r: Result<Resolution, ResolveError>) {
    match r
    case Success(res) =>
      res.name == req.name && !res.cacheHit && SearchAnswers(image, req, Success(Found(res.address, res.statistics)))
    case Failure(e) => SearchAnswers(image, req, Failure(e))
  }

  /** Under every other key, the entries of older versions of the module are gone and nothing else is. */
  ghost predicate OthersSwept(before: Entries, after: Entries, info: ModuleInfo, k: string) {
    forall x :: x != k ==>
      (x in after <==> x in before && !Stale(before[x], info)) && (x in after ==> after[x] == before[x])
  }

  /** An address served from the cache is counted as a hit, one found by the scan is stored in place of
      whatever was there, and a failure leaves at most what belongs to another module. */
  ghost predicate KeyUpdated(before: Entries, after: Entries, image: Image, req: Request,
                             r: Result<Resolution, ResolveError>) {
    var k := image.info.name + "::" + req.name;
    if Serves(before, image, req) then
      k in after && after[k] == before[k].(hits := (before[k].hits + 1) % TWO64)
    else if r.Success? then
      var a, base := r.value.address, image.info.base;
      k in after && after[k] == CacheEntry(CacheKey(image.info.name, req.name, image.info.fingerprint), a, base,
                                           if a < base then 0 else a - base, 0)
    else
      && (k in after <==> k in before && !Remembers(before, image, req) && !Stale(before[k], image.info))
      && (k in after ==> after[k] == before[k])
  }

  /** The answer of a resolve with this cache: the remembered address if it serves, else the scan's. */
  ghost predicate AnsweredFrom(before: Entries, image: Image, req: Request, r: Result<Resolution, ResolveError>) {
    if Serves(before, image, req)
    then r == Success(Resolution(req.name, before[image.info.name + "::" + req.name].address, true, ScanStats(0, 0, 0)))
    else FreshAnswer(image, req, r)
  }

  /** What a resolve answers and leaves behind, with or without a cache. */
  ghost predicate Answered(m: Option<Entries>, m': Option<Entries>, image: Image, req: Request,
                           r: Result<Resolution, ResolveError>) {
    match (m, m')
    case (None, None) => FreshAnswer(image, req, r)
    case (Some(before), Some(after)) =>
      && AnsweredFrom(before, image, req, r) && KeyUpdated(before, after, image, req, r)
      && OthersSwept(before, after, image.info, image.info.name + "::" + req.name)
    case _ => false
  }

  lemma UsableMeaning(image: Image, req: Request, a: u64)
    ensures Usable(image, req, a) <==> !Rejects(req, a) && Inside(image.info, a)
  {
    ContainsIsInterval(image.info.ImageRange(), a, 1);
  }

  lemma RememberedIsFound(m: Entries, image: Image, req: Request)
    ensures var swept := WithoutStale(m, image.info.name, image.info.fingerprint);
            Lookup(swept, KeyOf(image, req)) ==
            if Remembers(m, image, req) then Some(m[image.info.name + "::" + req.name].address) else None
  {
    assert KeyOf(image, req).StableKey() == image.info.name + "::" + req.name;
  }

  /** Whatever the scan does, it is asked exactly when the cache does not serve. */
  lemma CachedMeaning(scan: Scan, m: Entries, image: Image, req: Request)
    ensures var (r, after) := Cached(scan, m, image, req);
            && KeyUpdated(m, after, image, req, r)
            && OthersSwept(m, after, image.info, image.info.name + "::" + req.name)
            && r == if Serves(m, image, req)
                    then Success(Resolution(req.name, m[image.info.name + "::" + req.name].address, true, NO_STATS))
                    else Uncached(scan, image, req)
  {
    assert KeyOf(image, req).StableKey() == image.info.name + "::" + req.name;
    RememberedIsFound(m, image, req);
    if Remembers(m, image, req) {
      UsableMeaning(image, req, m[image.info.name + "::" + req.name].address);
    }
  }

  lemma FreshMeaning(image: Image, req: Request, f: Result<Found, ResolveError>, r: Result<Resolution, ResolveError>)
    requires SearchAnswers(image, req, f)
    requires r == match f
                  case Failure(e) => Failure(e)
                  case Success(found) => Success(Resolution(req.name, found.address, false, found.statistics))
    ensures FreshAnswer(image, req, r)
  {
    if f.Success? {
      assert f == Success(Found(f.value.address, f.value.statistics));
    }
  }

  lemma UncachedIs(scan: Scan, image: Image, req: Request)
    ensures Uncached(scan, image, req) ==
            match scan(image, req)
            case Failure(e) => Failure(e)
            case Success(found) => Success(Resolution(req.name, found.address, false, found.statistics))
  {
  }

  /** The resolve answers as promised. */
  lemma ResolveMeaning(m: Option<Entries>, image: Image, req: Request)
    ensures var (r, m') := ResolveWith(Search, m, image, req); Answered(m, m', image, req, r)
  {
    SearchMeaning(image, req);
    UncachedIs(Search, image, req);
    FreshMeaning(image, req, Search(image, req), Uncached(Search, image, req));
    if m.Some? {
      CachedMeaning(Search, m.value, image, req);
    }
  }

  ghost predicate Chained<S, T>(states: seq<S>, items: seq<T>, link: (S, nat, T, S) -> bool) {
    |states| == |items| + 1 && forall i :: 0 <= i < |items| ==> link(states[i], i, items[i], states[i + 1])
  }

  lemma OneMoreLink<S, T>(states: seq<S>, items: seq<T>, link: (S, nat, T, S) -> bool, item: T, state: S)
    requires Chained(states, items, link) && link(states[|items|], |items|, item, state)
    ensures Chained(states + [state], items + [item], link)
  {
  }

  ghost function AnswerLink(image: Image, requests: seq<Request>)
      : (Option<Entries>, nat, Resolution, Option<Entries>) -> bool
  {
    (m: Option<Entries>, i: nat, res: Resolution, m': Option<Entries>) =>
      i < |requests| && Answered(m, m', image, requests[i], Success(res))
  }

  /** Requests answered in turn, each with the cache the one before it left. */
  ghost predicate InTurn(ms: seq<Option<Entries>>, image: Image, requests: seq<Request>, rs: seq<Resolution>) {
    |rs| <= |requests| && Chained(ms, rs, AnswerLink(image, requests))
  }

  /** Every request is answered in turn, or those before the first that fails. */
  ghost predicate AllAnswered(m: Option<Entries>, m': Option<Entries>, image: Image, requests: seq<Request>,
                              r: Result<seq<Resolution>, ResolveError>) {
    exists ms, rs :: InTurn(ms, image, requests, rs) && ms[0] == m && Ends(ms[|rs|], m', image, requests, rs, r)
  }

  ghost predicate Ends(last: Option<Entries>, m': Option<Entries>, image: Image, requests: seq<Request>,
                       rs: seq<Resolution>, r: Result<seq<Resolution>, ResolveError>) {
    match r
    case Success(all) => all == rs && |rs| == |requests| && m' == last
    case Failure(e) => |rs| < |requests| && Answered(last, m', image, requests[|rs|], Failure(e))
  }

  lemma OneMoreInTurn(ms: seq<Option<Entries>>, image: Image, requests: seq<Request>, rs: seq<Resolution>,
                      m: Option<Entries>, next: Resolution)
    ensures InTurn(ms, image, requests, rs) && |rs| < |requests| &&
            Answered(ms[|rs|], m, image, requests[|rs|], Success(next)) ==>
              InTurn(ms + [m], image, requests, rs + [next])
  {
    if InTurn(ms, image, requests, rs) && |rs| < |requests| &&
       Answered(ms[|rs|], m, image, requests[|rs|], Success(next)) {
      var link := AnswerLink(image, requests);
      assert link(ms[|rs|], |rs|, next, m);
      OneMoreLink(ms, rs, link, next, m);
    }
  }

  /** A cached answer is one the validator accepts, inside the module. */
  lemma HitIsAccepted(m: Option<Entries>, m': Option<Entries>, image: Image, req: Request, res: Resolution)
    requires Answered(m, m', image, req, Success(res)) && res.cacheHit
    ensures m.Some? && !Rejects(req, res.address) && Inside(image.info, res.address)
  {
  }

  lemma HitsAreAccepted(ms: seq<Option<Entries>>, image: Image, requests: seq<Request>, rs: seq<Resolution>)
    requires InTurn(ms, image, requests, rs)
    ensures forall i :: 0 <= i < |rs| && rs[i].cacheHit ==>
              !Rejects(requests[i], rs[i].address) && Inside(image.info, rs[i].address)
  {
    var link := AnswerLink(image, requests);
    forall i | 0 <= i < |rs| && rs[i].cacheHit
      ensures !Rejects(requests[i], rs[i].address) && Inside(image.info, rs[i].address)
    {
      assert link(ms[i], i, rs[i], ms[i + 1]);
      HitIsAccepted(ms[i], ms[i + 1], image, requests[i], rs[i]);
    }
  }

  // ---------- the class ----------

  class PatternBatchScanner {
    const cache: PatternCache?
    const scanner: PatternScanner

    constructor (cache: PatternCache?)
      ensures this.cache == cache && fresh(scanner)
    {
      this.cache := cache;
      this.scanner := new PatternScanner();
    }

    ghost function CacheView(): Option<Entries>
      reads this, cache
    {
      if cache == null then None else Some(cache.entries)
    }

    /** One range of the scan loop. */
    method JudgeRange(image: Image, range: MemoryRange, pattern: Pattern, req: Request) returns (v: Verdict)
      requires WellFormed(pattern)
      modifies scanner
      ensures v == VerdictOf(image.mem, range, pattern.tokens, req)
      ensures scanner.lastStats == ScanStatistics(range, range.Bytes(image.mem), pattern.tokens, 1)
    {
      var found := scanner.FindFirst(range, image.mem, pattern);
      if found.None? {
        return Skip;
      }
      var transformed := ApplyTransform(image.mem, range.At(found.value), req);
      if transformed.None? {
        return Broken;
      }
      if req.validator.Some? && !req.validator.value(transformed.value) {
        return Skip;
      }
      return Hit(transformed.value);
    }

    /** The scanning half of a resolve: the ranges in order until one decides. */
    method SearchImage(image: Image, req: Request) returns (r: Result<Found, ResolveError>)
      modifies scanner
      ensures r == Search(image, req)
      ensures SearchAnswers(image, req, r)
    {
      SearchMeaning(image, req);
      var compiled := Compile(req.signature);
      if compiled.Failure? {
        return Failure(BadSignature(req.name, compiled.error));
      }
      var tokens := compiled.value.tokens;
      var selected := RangesOf(image.info, req);
      if selected.Failure? {
        return Failure(selected.error);
      }
      var ranges := selected.value;
      var aggregate := NO_STATS;
      assert ranges[0..] == ranges;
      for i := 0 to |ranges|
        invariant Search(image, req) == SearchRanges(image.mem, ranges[i..], tokens, req, aggregate)
      {
        var verdict := JudgeRange(image, ranges[i], compiled.value, req);
        aggregate := aggregate.Plus(scanner.lastStats);
        assert ranges[i..][1..] == ranges[i + 1..];
        match verdict {
          case Skip =>
          case Broken => return Failure(RelativeUnresolved(req.name));
          case Hit(address) => return Success(Found(address, aggregate));
        }
      }
      return Failure(NotFound(req.name, aggregate.bytesScanned));
    }

    /** The cache's half of a resolve: a usable hit, or a cache made ready for the scan. */
    static method AskCache(cache: PatternCache, key: CacheKey, image: Image, req: Request) returns (hit: Option<u64>)
      requires cache.Valid() && key == KeyOf(image, req)
      modifies cache
      ensures cache.Valid()
      ensures forall scan: Scan :: Cached(scan, old(cache.entries), image, req) ==
                match hit
                case Some(a) => (Success(Resolution(req.name, a, true, NO_STATS)), cache.entries)
                case None => Rescan(scan, cache.entries, image, req)
    {
      cache.InvalidateFingerprint(image.info.name, image.info.fingerprint);
      hit := cache.Find(key);
      if hit.Some? {
        if (req.validator.None? || req.validator.value(hit.value)) && image.info.ImageRange().Contains(hit.value, 1) {
          return;
        }
        cache.Invalidate(image.info.name, req.name);
        hit := None;
      }
    }

    method ResolveOne(image: Image, req: Request) returns (r: Result<Resolution, ResolveError>)
      requires cache != null ==> cache.Valid()
      modifies cache, scanner
      ensures cache != null ==> cache.Valid()
      ensures (r, CacheView()) == ResolveWith(Search, old(CacheView()), image, req)
      ensures Answered(old(CacheView()), CacheView(), image, req, r)
      ensures r.Success? && r.value.cacheHit ==>
                cache != null && !Rejects(req, r.value.address) && Inside(image.info, r.value.address)
    {
      ResolveMeaning(CacheView(), image, req);
      var key := CacheKey(image.info.name, req.name, image.info.fingerprint);
      if cache != null {
        var cached := AskCache(cache, key, image, req);
        if cached.Some? {
          HitIsAccepted(old(CacheView()), CacheView(), image, req, Resolution(req.name, cached.value, true, NO_STATS));
          return Success(Resolution(req.name, cached.value, true, NO_STATS));
        }
      }
      var found := SearchImage(image, req);
      if found.Failure? {
        return Failure(found.error);
      }
      if cache != null {
        cache.Store(key, found.value.address, image.info.base);
      }
      return Success(Resolution(req.name, found.value.address, false, found.value.statistics));
    }

    /** The sequential form: stops at the first failing request. */
    method Resolve(image: Image, requests: seq<Request>) returns (r: Result<seq<Resolution>, ResolveError>)
      requires cache != null ==> cache.Valid()
      modifies cache, scanner
      ensures cache != null ==> cache.Valid()
      ensures (r, CacheView()) == ResolveAll(Search, old(CacheView()), image, requests)
      ensures AllAnswered(old(CacheView()), CacheView(), image, requests, r)
      ensures r.Success? ==> |r.value| == |requests| && forall i :: 0 <= i < |requests| && r.value[i].cacheHit ==>
                !Rejects(requests[i], r.value[i].address) && Inside(image.info, r.value[i].address)
    {
      var resolutions: seq<Resolution> := [];
      ghost var start := CacheView();
      assert requests[0..] == requests;
      PrependNothing(ResolveAll(Search, start, image, requests).0);
      ghost var ms := [start];
      for i := 0 to |requests|
        invariant cache != null ==> cache.Valid()
        invariant ResolveAll(Search, start, image, requests) ==
                  Before(resolutions, ResolveAll(Search, CacheView(), image, requests[i..]))
        invariant |resolutions| == i && InTurn(ms, image, requests, resolutions)
        invariant ms[0] == start && ms[i] == CacheView()
      {
        ResolveAllStep(Search, CacheView(), image, requests, i, resolutions);
        var result := ResolveOne(image, requests[i]);
        if result.Failure? {
          assert Ends(ms[i], CacheView(), image, requests, resolutions, Failure(result.error));
          return Failure(result.error);
        }
        OneMoreInTurn(ms, image, requests, resolutions, CacheView(), result.value);
        ms := ms + [CacheView()];
        resolutions := resolutions + [result.value];
      }
      assert resolutions + [] == resolutions;
      assert Ends(ms[|requests|], CacheView(), image, requests, resolutions, Success(resolutions));
      HitsAreAccepted(ms, image, requests, resolutions);
      return Success(resolutions);
    }
  }
}
