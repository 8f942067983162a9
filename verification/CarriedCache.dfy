/** A cache file carried over to another session, where its module may be mapped elsewhere: which
    loads leave every answer what the scans of that session give. */
module CarriedCache {
  import opened Wrappers
  import opened Machine
  import opened Scanner
  import opened PatternCache
  import opened PatternSearch
  import opened BatchScanner
  import opened CacheTransparency
  import opened CachePersistence
  import opened OneSectionImage
  import opened Relocation

  // ---------- loading into a cache in use ----------

  /** What storing a record puts into the cache. */
  function EntryOf(r: Record, info: ModuleInfo): CacheEntry {
    NewEntry(LoadedKey(info, r.name), Wrap64(info.base + r.offset), info.base)
  }

  ghost predicate RecordsAgree(records: seq<Option<Record>>, info: ModuleInfo, w: World) {
    forall i :: 0 <= i < |records| && records[i].Some? ==> EntryAgrees(EntryOf(records[i].value, info), w)
  }

  ghost predicate RecordsHarmless(records: seq<Option<Record>>, info: ModuleInfo, w: World) {
    forall i :: 0 <= i < |records| && records[i].Some? ==> EntryHarmless(EntryOf(records[i].value, info), w)
  }

  /** A file whose records name scanned addresses keeps any cache of scanned addresses one. */
  lemma {:induction false} LoadKeepsAgreement(m: Entries, w: World, info: ModuleInfo, records: seq<Option<Record>>)
    requires Agrees(m, w) && RecordsAgree(records, info, w)
    ensures Agrees(LoadRecords(m, info, records).0, w)
  {
    if records != [] {
      var last := |records| - 1;
      LoadKeepsAgreement(m, w, info, records[..last]);
      assert records[last].Some? ==> EntryAgrees(EntryOf(records[last].value, info), w);
    }
  }

  /** A file whose usable records name scanned addresses keeps any harmless cache harmless. */
  lemma {:induction false} LoadKeepsHarmless(m: Entries, w: World, info: ModuleInfo, records: seq<Option<Record>>)
    requires Harmless(m, w) && RecordsHarmless(records, info, w)
    ensures Harmless(LoadRecords(m, info, records).0, w)
  {
    if records != [] {
      var last := |records| - 1;
      LoadKeepsHarmless(m, w, info, records[..last]);
      assert records[last].Some? ==> EntryHarmless(EntryOf(records[last].value, info), w);
    }
  }

  lemma ReplacingKeepsOthers(m: Entries, k: string, e: CacheEntry)
    requires k in m ==> m[k].key.moduleName == e.key.moduleName
    ensures WithoutModule(m[k := e], e.key.moduleName) == WithoutModule(m, e.key.moduleName)
  {
  }

  lemma StoreKeepsHoused(m: Entries, w: World, key: CacheKey, address: u64, base: u64)
    requires Housed(m, w) && key.moduleName in w.modules
    ensures Housed(Stored(m, key, address, base), w)
  {
  }

  lemma StoreKeepsOthers(m: Entries, w: World, key: CacheKey, address: u64, base: u64)
    requires Unambiguous(w.modules) && Housed(m, w) && key.moduleName in w.modules
    ensures Housed(Stored(m, key, address, base), w)
    ensures WithoutModule(Stored(m, key, address, base), key.moduleName) == WithoutModule(m, key.moduleName)
  {
    StoreKeepsHoused(m, w, key, address, base);
    var k := key.StableKey();
    if k in m {
      StableKeyInjective(w.modules, m[k].key, key);
    }
    ReplacingKeepsOthers(m, k, NewEntry(key, address, base));
  }

  lemma RecordKeepsOthers(soFar: (Entries, nat), w: World, info: ModuleInfo, record: Option<Record>)
    requires Unambiguous(w.modules) && Housed(soFar.0, w) && info.name in w.modules
    ensures Housed(AfterRecord(soFar, info, record).0, w)
    ensures WithoutModule(AfterRecord(soFar, info, record).0, info.name) == WithoutModule(soFar.0, info.name)
  {
    if record.Some? {
      var r := record.value;
      StoreKeepsOthers(soFar.0, w, LoadedKey(info, r.name), Wrap64(info.base + r.offset), info.base);
    }
  }

  /** Whatever a file holds, loading it for one module leaves the other modules' entries alone. */
  lemma {:induction false} LoadKeepsOthers(m: Entries, w: World, info: ModuleInfo, records: seq<Option<Record>>)
    requires Unambiguous(w.modules) && Housed(m, w) && info.name in w.modules
    ensures Housed(LoadRecords(m, info, records).0, w)
    ensures WithoutModule(LoadRecords(m, info, records).0, info.name) == WithoutModule(m, info.name)
  {
    if records != [] {
      var last := |records| - 1;
      LoadKeepsOthers(m, w, info, records[..last]);
      RecordKeepsOthers(LoadRecords(m, info, records[..last]), w, info, records[last]);
    }
  }

  // ---------- a module that moved ----------

  /** In the new session the scan behind `key` gives the old address moved with the module. */
  ghost predicate Relocates(w1: World, w2: World, key: CacheKey, info: ModuleInfo) {
    var image1, image2 := w1.images(key.moduleName, key.fingerprint), w2.images(key.moduleName, key.fingerprint);
    var r1, r2 := w1.scan(image1, w1.requests(key.name)), w2.scan(image2, w2.requests(key.name));
    && image2.info == info
    && (r1.Success? ==> r2.Success? && r2.value.address == Wrap64(r1.value.address + info.base - image1.info.base))
  }

  /** The sections' bytes are carried over, and the request's validator judges moved addresses alike
      and its relative operand, if it has one, is placed. */
  ghost predicate Remapped(w1: World, w2: World, key: CacheKey, info: ModuleInfo) {
    var image1, image2 := w1.images(key.moduleName, key.fingerprint), w2.images(key.moduleName, key.fingerprint);
    var req1, req2 := w1.requests(key.name), w2.requests(key.name);
    var move := Move(image1.mem, req1, image2.mem, req2, info.base - image1.info.base);
    && image2.info == info
    && move.SameRequest() && move.SectionsMoved(image1.info.sections, info.sections) && move.MatchesPlaced(image1.info)
  }

  lemma MovedAddress(r1: Result<Found, ResolveError>, r2: Result<Found, ResolveError>, base1: u64, base2: u64)
    requires AnswerMoved(r1, r2, base2 - base1)
    ensures r1.Success? ==> r2.Success? && r2.value.address == Wrap64(r1.value.address + base2 - base1)
  {
  }

  /** A position independent scan relocates with the module. */
  lemma RemappedRelocates(w1: World, w2: World, key: CacheKey, info: ModuleInfo)
    requires w1.scan == w2.scan && PositionIndependent(w1.scan) && Remapped(w1, w2, key, info)
    ensures Relocates(w1, w2, key, info)
  {
    var image1, image2 := w1.images(key.moduleName, key.fingerprint), w2.images(key.moduleName, key.fingerprint);
    var req1, req2 := w1.requests(key.name), w2.requests(key.name);
    var move := Move(image1.mem, req1, image2.mem, req2, info.base - image1.info.base);
    assert MovesWith(w1.scan, move, image1.info, info);
    MovedAddress(w1.scan(image1, req1), w2.scan(image2, req2), image1.info.base, info.base);
  }

  ghost predicate SameModuleMoved(m: Entries, w1: World, w2: World, info: ModuleInfo) {
    info.name in w2.modules && forall k :: k in m && Qualifies(m[k], info) ==> Relocates(w1, w2, m[k].key, info)
  }

  ghost predicate ModuleRemapped(m: Entries, w1: World, w2: World, info: ModuleInfo) {
    info.name in w2.modules && forall k :: k in m && Qualifies(m[k], info) ==> Remapped(w1, w2, m[k].key, info)
  }

  lemma RemappedModuleMoved(m: Entries, w1: World, w2: World, info: ModuleInfo)
    requires w1.scan == w2.scan && PositionIndependent(w1.scan) && ModuleRemapped(m, w1, w2, info)
    ensures SameModuleMoved(m, w1, w2, info)
  {
    forall k | k in m && Qualifies(m[k], info) ensures Relocates(w1, w2, m[k].key, info) {
      RemappedRelocates(w1, w2, m[k].key, info);
    }
  }

  // ---------- agreement after a reload ----------

  lemma MovedAgreesIff(e: CacheEntry, w1: World, w2: World, info: ModuleInfo)
    requires EntryAgrees(e, w1) && e == NewEntry(e.key, e.address, e.moduleBase).(hits := e.hits)
    requires Qualifies(e, info) && info.name in w2.modules && Relocates(w1, w2, e.key, info)
    ensures EntryAgrees(Moved(e, info), w2) <==> e.address >= e.moduleBase
  {
  }

  /** A reloaded cache agrees with the new session's scans exactly when no saved entry of the
      module was resolved to an address below the module's base. */
  lemma ReloadAgreesIff(m: Entries, w1: World, w2: World, info: ModuleInfo)
    requires Agrees(m, w1) && SameModuleMoved(m, w1, w2, info)
    ensures Agrees(Rebased(m, info), w2) <==>
            forall k :: k in m && Qualifies(m[k], info) ==> m[k].address >= m[k].moduleBase
  {
    var loaded := Rebased(m, info);
    assert WellKeyed(loaded);
    forall k | k in m && Qualifies(m[k], info)
      ensures EntryAgrees(loaded[k], w2) <==> m[k].address >= m[k].moduleBase
    {
      MovedAgreesIff(m[k], w1, w2, info);
    }
    assert forall k :: k in loaded <==> k in m && Qualifies(m[k], info);
  }

  // ---------- answers after a reload ----------

  /** A module image that starts above null and does not wrap. */
  predicate Mapped(info: ModuleInfo) {
    info.base > 0 && info.base + info.size <= TWO64
  }

  /** An entry that a reload turns into an accepted wrong address. */
  predicate Misleading(e: CacheEntry, w2: World, info: ModuleInfo) {
    e.address < e.moduleBase && w2.requests(e.key.name).Accepts(info.base)
  }

  lemma MovedHarmlessIff(e: CacheEntry, w1: World, w2: World, info: ModuleInfo)
    requires EntryAgrees(e, w1) && e == NewEntry(e.key, e.address, e.moduleBase).(hits := e.hits)
    requires Qualifies(e, info) && info.name in w2.modules && Relocates(w1, w2, e.key, info) && Mapped(info)
    ensures EntryHarmless(Moved(e, info), w2) <==> !Misleading(e, w2, info)
  {
    MovedAgreesIff(e, w1, w2, info);
    MovedKeepsDistance(e, info);
  }

  /** After a reload every resolve answers as with no cache exactly when no saved entry of the
      module lay below its old base under a validator that accepts the new base. */
  lemma ReloadIsTransparentIff(m: Entries, w1: World, w2: World, info: ModuleInfo)
    requires Agrees(m, w1) && SameModuleMoved(m, w1, w2, info) && Mapped(info)
    requires Unambiguous(w2.modules) && forall k :: k in m && Qualifies(m[k], info) ==> Names(w2, m[k].key)
    ensures Transparent(Rebased(m, info), w2) <==>
            forall k :: k in m && Qualifies(m[k], info) ==> !Misleading(m[k], w2, info)
  {
    var loaded := Rebased(m, info);
    assert WellKeyed(loaded);
    forall k | k in m && Qualifies(m[k], info)
      ensures EntryHarmless(loaded[k], w2) <==> !Misleading(m[k], w2, info)
    {
      MovedHarmlessIff(m[k], w1, w2, info);
    }
    assert forall k :: k in loaded <==> k in m && Qualifies(m[k], info);
    TransparentIff(loaded, w2);
  }

  /** The same for the real scan, from the bytes of the remapped sections. */
  lemma RemappedReload(m: Entries, w1: World, w2: World, info: ModuleInfo)
    requires w1.scan == w2.scan == Search
    requires Agrees(m, w1) && ModuleRemapped(m, w1, w2, info) && Mapped(info)
    requires Unambiguous(w2.modules) && forall k :: k in m && Qualifies(m[k], info) ==> Names(w2, m[k].key)
    ensures Agrees(Rebased(m, info), w2) <==>
            forall k :: k in m && Qualifies(m[k], info) ==> m[k].address >= m[k].moduleBase
    ensures Transparent(Rebased(m, info), w2) <==>
            forall k :: k in m && Qualifies(m[k], info) ==> !Misleading(m[k], w2, info)
  {
    SearchIsPositionIndependent(w1.scan);
    RemappedModuleMoved(m, w1, w2, info);
    ReloadAgreesIff(m, w1, w2, info);
    ReloadIsTransparentIff(m, w1, w2, info);
  }

  /** A hit on a usable address answers with it. */
  lemma HitAnswers(scan: Scan, m: Entries, image: Image, req: Request)
    requires KeyOf(image, req).StableKey() in m && m[KeyOf(image, req).StableKey()].key == KeyOf(image, req)
    requires Usable(image, req, m[KeyOf(image, req).StableKey()].address)
    ensures Cached(scan, m, image, req).0 ==
            Success(Resolution(req.name, m[KeyOf(image, req).StableKey()].address, true, Scanner.NO_STATS))
  {
  }

  /** A hit that is not usable answers with the scan. */
  lemma RejectedHitAnswers(scan: Scan, m: Entries, image: Image, req: Request)
    requires KeyOf(image, req).StableKey() in m && m[KeyOf(image, req).StableKey()].key == KeyOf(image, req)
    requires !Usable(image, req, m[KeyOf(image, req).StableKey()].address)
    ensures Cached(scan, m, image, req).0 == Uncached(scan, image, req)
  {
  }

  /** What one entry from below the base does: the resolve after the reload answers with the module's
      base, so it differs from the scan exactly when the request's validator accepts that base. */
  lemma BelowBaseEntryMisleads(m: Entries, w1: World, w2: World, image: Image, req: Request)
    requires WellKeyed(m) && SameModuleMoved(m, w1, w2, image.info) && Known(w2, image, req) && Mapped(image.info)
    requires var k := KeyOf(image, req).StableKey();
             && k in m && m[k].key == KeyOf(image, req) && Qualifies(m[k], image.info)
             && EntryAgrees(m[k], w1) && m[k].address < m[k].moduleBase
    ensures AnswersAlike(Rebased(m, image.info), w2, image, req) <==> !req.Accepts(image.info.base)
  {
    var info := image.info;
    var k := KeyOf(image, req).StableKey();
    var e := m[k];
    var loaded := Rebased(m, info);
    assert loaded[k] == Moved(e, info) && Moved(e, info).address == info.base;
    ContainsIsInterval(info.ImageRange(), info.base, 1);
    if req.Accepts(info.base) {
      HitAnswers(w2.scan, loaded, image, req);
      MovedAgreesIff(e, w1, w2, info);
    } else {
      RejectedHitAnswers(w2.scan, loaded, image, req);
    }
  }

  // ---------- such an entry ----------

  /** One stored address, saved and loaded again: what is left of it. */
  lemma StoredThenReloaded(key: CacheKey, address: u64, base: u64, info: ModuleInfo)
    requires CleanKey(key)
    ensures var m := Stored(map[], key, address, base);
            Lists([m[key.StableKey()]], m) && RoundTrips(m, [m[key.StableKey()]], info)
  {
    var m := Stored(map[], key, address, base);
    CleanRoundTrips(m, [m[key.StableKey()]], info);
  }

  lemma BelowBaseRebases(key: CacheKey, address: u64, base: u64, info: ModuleInfo)
    requires key.moduleName == info.name && key.fingerprint == info.fingerprint
    requires address < base && info.size > 0
    ensures Rebased(Stored(map[], key, address, base), info) == Stored(map[], key, info.base, info.base)
  {
    var e := NewEntry(key, address, base);
    assert Qualifies(e, info) && Moved(e, info) == NewEntry(key, info.base, info.base);
  }

  lemma FirstResolveStores(scan: Scan, image: Image, req: Request)
    requires scan(image, req).Success?
    ensures Cached(scan, map[], image, req).1 ==
            Stored(map[], KeyOf(image, req), scan(image, req).value.address, image.info.base)
  {
    assert WithoutStale(map[], image.info.name, image.info.fingerprint) == map[];
  }

  /** The trip of one address below the base, for any scan: stored by the first session's resolve,
      saved, loaded into an empty cache, and found there by the second session's resolve. */
  lemma BelowBaseIsLost(scan: Scan, image1: Image, image2: Image, req: Request)
    requires KeyOf(image1, req) == KeyOf(image2, req) && CleanKey(KeyOf(image1, req))
    requires scan(image1, req).Success? && scan(image1, req).value.address < image1.info.base
    requires Mapped(image2.info) && image2.info.size > 0 && req.Accepts(image2.info.base)
    ensures var saved := Cached(scan, map[], image1, req).1;
            (exists es :: Lists(es, saved) && RoundTrips(saved, es, image2.info)) &&
            Cached(scan, Rebased(saved, image2.info), image2, req).0 ==
              Success(Resolution(req.name, image2.info.base, true, Scanner.NO_STATS))
  {
    var key := KeyOf(image1, req);
    var base := image2.info.base;
    FirstResolveStores(scan, image1, req);
    StoredThenReloaded(key, scan(image1, req).value.address, image1.info.base, image2.info);
    BelowBaseRebases(key, scan(image1, req).value.address, image1.info.base, image2.info);
    ContainsIsInterval(image2.info.ImageRange(), base, 1);
    HitAnswers(scan, Stored(map[], key, base, base), image2, req);
  }

  /** What the two sessions see: the first resolves and stores the byte before the base, the file it
      saves reloads, and the second answers with the base itself, one off what its own scan gives. */
  ghost predicate ByteBeforeLost(scan: Scan, image1: Image, image2: Image) {
    var before := ByteAt("before", -1);
    var saved := Cached(scan, map[], image1, before).1;
    && (exists es :: Lists(es, saved) && RoundTrips(saved, es, image2.info))
    && Cached(scan, Rebased(saved, image2.info), image2, before).0 ==
         Success(Resolution("before", image2.info.base, true, Scanner.NO_STATS))
    && Uncached(scan, image2, before).Success?
    && Uncached(scan, image2, before).value.address == image2.info.base - 1
  }

  lemma ByteBeforeIsLostFor(scan: Scan, image1: Image, image2: Image)
    requires FindsBytes(scan) && IsOneSection(image1.info) && IsOneSection(image2.info) && Mapped(image2.info)
    requires image1.info.name == image2.info.name && Clean(image1.info.name)
    requires image1.info.fingerprint == image2.info.fingerprint
    ensures ByteBeforeLost(scan, image1, image2)
  {
    assert FindsByte(scan, image1, "before", -1) && FindsByte(scan, image2, "before", -1);
    BelowBaseIsLost(scan, image1, image2, ByteAt("before", -1));
  }

  /** The finding on one request, for the real scan and any two mappings of a one-section module. */
  lemma ByteBeforeIsLost(scan: Scan, image1: Image, image2: Image)
    requires scan == Search && IsOneSection(image1.info) && IsOneSection(image2.info) && Mapped(image2.info)
    requires image1.info.name == image2.info.name && Clean(image1.info.name)
    requires image1.info.fingerprint == image2.info.fingerprint
    ensures ByteBeforeLost(scan, image1, image2)
  {
    SearchFindsBytes(scan);
    ByteBeforeIsLostFor(scan, image1, image2);
  }
}
