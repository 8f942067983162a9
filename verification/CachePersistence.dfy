/** Saving the pattern cache as text and loading it back for a module that may have moved. */
module CachePersistence {
  import opened Wrappers
  import opened Machine
  import opened Text
  import opened PatternCache
  import opened PatternSearch
  import opened BatchScanner

  const HEADER: string := "DDPC1"

  // ---------- saving ----------

  function FieldsOf(e: CacheEntry): Fields {
    Fields(e.key.moduleName, e.key.name, Print(e.key.fingerprint, 10), Print(e.relativeOffset, 10))
  }

  function LineOf(e: CacheEntry): string {
    JoinFields(FieldsOf(e))
  }

  function SavedText(es: seq<CacheEntry>): string {
    Document(HEADER, LinesOf(es, LineOf))
  }

  /** The text written, for whatever order the snapshot came in. */
  method Save(cache: PatternCache) returns (text: string)
    requires cache.Valid()
    ensures exists es :: Lists(es, cache.entries) && text == SavedText(es)
  {
    var snapshot := cache.Snapshot();
    text := WriteDocument(HEADER, snapshot, LineOf);
  }

  // ---------- loading ----------

  /** The cache file as the file system shows it. */
  datatype CacheFile = Missing | Unavailable(cause: FileFailure) | Contents(text: string)

  datatype FileFailure = NoFileSystem | QueryFailed | ReadFailed

  datatype LoadError = FileError(cause: FileFailure) | UnsupportedFormat

  datatype Record = Record(name: string, offset: u64)

  /** What a line contributes when loading for `info`, if anything. */
  function ReadLine(info: ModuleInfo, line: string): Option<Record> {
    ReadFrom(line, f => ReadFields(info, f))
  }

  function ReadFields(info: ModuleInfo, f: Fields): Option<Record> {
    if f.first != info.name then None
    else match (FromChars(f.third, 10, TWO64), FromChars(f.rest, 10, TWO64))
      case (Some(fp), Some(off)) =>
        if fp.value != info.fingerprint || off.value >= info.size then None
        else Some(Record(f.second, off.value))
      case _ => None
  }

  /** A line gives a record exactly when it reads module, name, fingerprint and offset with a tab
      after each of the first three, of this module and version and inside the image. */
  ghost predicate HoldsRecord(info: ModuleInfo, line: string, f: Fields, r: Record) {
    && line == f.first + "\t" + (f.second + "\t" + (f.third + "\t" + f.rest))
    && '\t' !in f.first && '\t' !in f.second && '\t' !in f.third
    && f.first == info.name && f.second == r.name && r.offset < info.size
    && Numeral(f.third, info.fingerprint) && Numeral(f.rest, r.offset)
  }

  /** A decimal number, with anything but a digit after it. */
  ghost predicate Numeral(s: string, n: nat) {
    FromChars(s, 10, TWO64).Some? && FromChars(s, 10, TWO64).value.value == n
  }

  lemma ReadLineMeaning(info: ModuleInfo, line: string, r: Record)
    ensures ReadLine(info, line) == Some(r) <==> exists f :: HoldsRecord(info, line, f, r)
  {
    forall f | HoldsRecord(info, line, f, r) ensures ReadLine(info, line) == Some(r) {
      SplitMeaning(line, f);
    }
    if SplitFields(line).Some? {
      SplitMeaning(line, SplitFields(line).value);
      assert ReadLine(info, line) == Some(r) ==> HoldsRecord(info, line, SplitFields(line).value, r);
    }
  }

  function LoadedKey(info: ModuleInfo, name: string): CacheKey {
    CacheKey(info.name, name, info.fingerprint)
  }

  type Reader = string -> Option<Record>

  function ReaderFor(info: ModuleInfo): Reader {
    line => ReadLine(info, line)
  }

  function ReadLines(read: Reader, lines: seq<string>): seq<Option<Record>> {
    seq(|lines|, i requires 0 <= i < |lines| => read(lines[i]))
  }

  /** Storing the records in turn, counting them. */
  function LoadRecords(m: Entries, info: ModuleInfo, records: seq<Option<Record>>): (Entries, nat) {
    if records == [] then (m, 0)
    else AfterRecord(LoadRecords(m, info, records[..|records| - 1]), info, records[|records| - 1])
  }

  function AfterRecord(soFar: (Entries, nat), info: ModuleInfo, record: Option<Record>): (Entries, nat) {
    match record
    case None => soFar
    case Some(r) => (Stored(soFar.0, LoadedKey(info, r.name), Wrap64(info.base + r.offset), info.base), soFar.1 + 1)
  }

  lemma OneMoreRecord(m: Entries, info: ModuleInfo, records: seq<Option<Record>>, i: nat)
    requires i < |records|
    ensures LoadRecords(m, info, records[..i + 1]) == AfterRecord(LoadRecords(m, info, records[..i]), info, records[i])
  {
    assert records[..i + 1][..i] == records[..i];
  }

  /** The last of the records that go under a key. */
  ghost predicate LastUnder(info: ModuleInfo, records: seq<Option<Record>>, k: string, i: nat) {
    && i < |records| && GoesUnder(info, records[i], k)
    && forall j :: i < j < |records| ==> !GoesUnder(info, records[j], k)
  }

  predicate GoesUnder(info: ModuleInfo, record: Option<Record>, k: string) {
    record.Some? && info.name + "::" + record.value.name == k
  }

  function EntryAt(info: ModuleInfo, r: Record): CacheEntry {
    var a := (info.base + r.offset) % TWO64;
    CacheEntry(CacheKey(info.name, r.name, info.fingerprint), a, info.base,
               if a < info.base then 0 else a - info.base, 0)
  }

  lemma AfterRecordAt(soFar: (Entries, nat), info: ModuleInfo, record: Option<Record>, k: string)
    ensures var after := AfterRecord(soFar, info, record).0;
            if GoesUnder(info, record, k) then k in after && after[k] == EntryAt(info, record.value)
            else (k in after <==> k in soFar.0) && (k in soFar.0 ==> after[k] == soFar.0[k])
  {
    if record.Some? {
      assert LoadedKey(info, record.value.name).StableKey() == info.name + "::" + record.value.name;
    }
  }

  /** Each record takes the place of whatever was under its key, so the last one under a key stays. */
  lemma {:induction false} LastRecordStays(m: Entries, info: ModuleInfo, records: seq<Option<Record>>, k: string,
                                           i: nat)
    requires LastUnder(info, records, k, i)
    ensures var after := LoadRecords(m, info, records).0; k in after && after[k] == EntryAt(info, records[i].value)
  {
    var n := |records| - 1;
    var front := records[..n];
    AfterRecordAt(LoadRecords(m, info, front), info, records[n], k);
    if i < n {
      assert forall j :: 0 <= j < n ==> front[j] == records[j];
      LastRecordStays(m, info, front, k, i);
    }
  }

  /** An entry no record goes under stays as it is. */
  lemma {:induction false} NoRecordNoChange(m: Entries, info: ModuleInfo, records: seq<Option<Record>>, k: string)
    requires forall i :: 0 <= i < |records| ==> !GoesUnder(info, records[i], k)
    ensures var after := LoadRecords(m, info, records).0; (k in after <==> k in m) && (k in m ==> after[k] == m[k])
  {
    if records != [] {
      var n := |records| - 1;
      NoRecordNoChange(m, info, records[..n], k);
      AfterRecordAt(LoadRecords(m, info, records[..n]), info, records[n], k);
    }
  }

  /** And every record is counted. */
  lemma {:induction false} LoadCounts(m: Entries, info: ModuleInfo, records: seq<Option<Record>>)
    ensures LoadRecords(m, info, records).1 == |set i | 0 <= i < |records| && records[i].Some?|
  {
    if records != [] {
      var n := |records| - 1;
      var front := records[..n];
      LoadCounts(m, info, front);
      var before, all := set i | 0 <= i < n && front[i].Some?, set i | 0 <= i < |records| && records[i].Some?;
      assert all == if records[n].Some? then before + {n} else before;
    }
  }

  lemma OneMoreLine(m: Entries, info: ModuleInfo, read: Reader, seen: seq<string>, line: string, rest: seq<string>)
    ensures seen + ([line] + rest) == (seen + [line]) + rest
    ensures LoadRecords(m, info, ReadLines(read, seen + [line])) ==
            AfterRecord(LoadRecords(m, info, ReadLines(read, seen)), info, read(line))
  {
    var records := ReadLines(read, seen + [line]);
    assert records[..|seen|] == ReadLines(read, seen) && records[..|seen| + 1] == records;
    OneMoreRecord(m, info, records, |seen|);
  }

  method StoreRecord(cache: PatternCache, info: ModuleInfo, record: Option<Record>, soFar: nat) returns (loaded: nat)
    requires cache.Valid()
    modifies cache
    ensures cache.Valid() && (cache.entries, loaded) == AfterRecord((old(cache.entries), soFar), info, record)
  {
    if record.None? {
      return soFar;
    }
    cache.Store(LoadedKey(info, record.value.name), Wrap64(info.base + record.value.offset), info.base);
    return soFar + 1;
  }

  /** The loop over the lines after the header. */
  method LoadBody(cache: PatternCache, info: ModuleInfo, read: Reader, text: string, start: nat) returns (loaded: nat)
    requires cache.Valid() && start <= |text|
    modifies cache
    ensures cache.Valid()
    ensures (cache.entries, loaded) == LoadRecords(old(cache.entries), info, ReadLines(read, Lines(text[start..])))
  {
    ghost var lines := Lines(text[start..]);
    ghost var seen: seq<string> := [];
    loaded := 0;
    var ok, line, pos := GetLine(text, start);
    while ok
      invariant cache.Valid()
      invariant pos <= |text|
      invariant lines == seen + (if ok then [line] + Lines(text[pos..]) else [])
      invariant (cache.entries, loaded) == LoadRecords(old(cache.entries), info, ReadLines(read, seen))
      decreases |lines| - |seen|
    {
      OneMoreLine(old(cache.entries), info, read, seen, line, Lines(text[pos..]));
      loaded := StoreRecord(cache, info, read(line), loaded);
      seen := seen + [line];
      ok, line, pos := GetLine(text, pos);
    }
    assert seen + [] == seen;
  }

  datatype FileContent = NoFile | NoAccess(cause: FileFailure) | BadFormat | Body(records: seq<Option<Record>>)

  /** What a cache file holds for a module. */
  function Loading(file: CacheFile, info: ModuleInfo): FileContent {
    match file
    case Missing => NoFile
    case Unavailable(cause) => NoAccess(cause)
    case Contents(text) =>
      if Lines(text) == [] || Lines(text)[0] != HEADER then BadFormat
      else Body(ReadLines(ReaderFor(info), Lines(text)[1..]))
  }

  lemma FormatMeaning(file: CacheFile)
    ensures file.Contents? ==> (Lines(file.text) != [] && Lines(file.text)[0] == HEADER <==>
                                  file.text == "DDPC1" || "DDPC1\n" <= file.text)
  {
    if file.Contents? {
      assert HEADER == "DDPC1" && HEADER + "\n" == "DDPC1\n";
      FirstLineMeaning(file.text, HEADER);
    }
  }

  /** The number of entries stored, or the file or format error; a missing file loads nothing. */
  method LoadForModule(cache: PatternCache, info: ModuleInfo, file: CacheFile) returns (r: Result<nat, LoadError>)
    requires cache.Valid()
    modifies cache
    ensures cache.Valid()
    ensures match Loading(file, info)
            case NoFile => r == Success(0) && cache.entries == old(cache.entries)
            case NoAccess(cause) => r == Failure(FileError(cause)) && cache.entries == old(cache.entries)
            case BadFormat => r == Failure(UnsupportedFormat) && cache.entries == old(cache.entries)
            case Body(records) =>
              r.Success? && (cache.entries, r.value) == LoadRecords(old(cache.entries), info, records)
    ensures r == Failure(UnsupportedFormat) <==>
            file.Contents? && file.text != "DDPC1" && !("DDPC1\n" <= file.text)
  {
    FormatMeaning(file);
    if file.Unavailable? {
      return Failure(FileError(file.cause));
    }
    if file.Missing? {
      return Success(0);
    }
    assert file.text[0..] == file.text;
    var ok, line, pos := GetLine(file.text, 0);
    if !ok || line != HEADER {
      return Failure(UnsupportedFormat);
    }
    assert Lines(file.text)[1..] == Lines(file.text[pos..]);
    var loaded := LoadBody(cache, info, ReaderFor(info), file.text, pos);
    return Success(loaded);
  }

  // ---------- round trip ----------

  predicate Clean(s: string) {
    '\t' !in s && '\n' !in s
  }

  predicate CleanKey(key: CacheKey) {
    Clean(key.moduleName) && Clean(key.name)
  }

  ghost predicate CleanNames(m: Entries) {
    forall k :: k in m ==> CleanKey(m[k].key)
  }

  /** The saved entries a load for `info` takes in. */
  predicate Qualifies(e: CacheEntry, info: ModuleInfo) {
    e.key.moduleName == info.name && e.key.fingerprint == info.fingerprint && e.relativeOffset < info.size
  }

  function Moved(e: CacheEntry, info: ModuleInfo): CacheEntry {
    NewEntry(e.key, Wrap64(info.base + e.relativeOffset), info.base)
  }

  function Rebased(m: Entries, info: ModuleInfo): Entries {
    map k | k in m && Qualifies(m[k], info) :: Moved(m[k], info)
  }

  lemma PrintHasNoSeparator(n: nat)
    ensures Clean(Print(n, 10))
  {
  }

  lemma FieldsRoundTrip(e: CacheEntry, info: ModuleInfo)
    ensures ReadFields(info, FieldsOf(e)) == RecordOf(e, info)
  {
    PrintParseAll(e.key.fingerprint, 10, TWO64);
    PrintParseAll(e.relativeOffset, 10, TWO64);
  }

  lemma LineRoundTrip(e: CacheEntry, info: ModuleInfo)
    requires Clean(e.key.moduleName) && Clean(e.key.name)
    ensures '\n' !in LineOf(e)
    ensures ReadLine(info, LineOf(e)) == RecordOf(e, info)
  {
    PrintHasNoSeparator(e.key.fingerprint);
    PrintHasNoSeparator(e.relativeOffset);
    JoinHasNoNewline(FieldsOf(e));
    ReadJoined(FieldsOf(e), f => ReadFields(info, f));
    FieldsRoundTrip(e, info);
  }

  /** The part of the cache listed so far. */
  ghost function Part(m: Entries, es: seq<CacheEntry>): Entries {
    map k | k in m && m[k] in es :: m[k]
  }

  /** Listing one more entry adds exactly that entry. */
  lemma PartGrows(m: Entries, es: seq<CacheEntry>, i: nat)
    requires WellKeyed(m) && Lists(es, m) && 0 < i <= |es|
    ensures var (e, before) := (es[i - 1], Part(m, es[..i - 1]));
            var k := e.key.StableKey();
            && k !in before && k in m && m[k] == e && Part(m, es[..i]) == before[k := e]
  {
    var e, before := es[i - 1], Part(m, es[..i - 1]);
    var k := e.key.StableKey();
    assert e in es;
    assert es[..i] == es[..i - 1] + [e];
    forall j | 0 <= j < i - 1 ensures es[j] != e {
      assert es[j].key.StableKey() != k;
    }
    forall x | x in m && m[x] == e ensures x == k {
      assert m[x] in es;
    }
  }

  lemma RebasedGrows(before: Entries, k: string, e: CacheEntry, info: ModuleInfo)
    requires k !in before
    ensures Rebased(before[k := e], info) ==
            if Qualifies(e, info) then Rebased(before, info)[k := Moved(e, info)] else Rebased(before, info)
    ensures k !in Rebased(before, info)
  {
  }

  /** The record a saved entry turns into. */
  function RecordOf(e: CacheEntry, info: ModuleInfo): Option<Record> {
    if Qualifies(e, info) then Some(Record(e.key.name, e.relativeOffset)) else None
  }

  function RecordsOf(es: seq<CacheEntry>, info: ModuleInfo): seq<Option<Record>> {
    seq(|es|, i requires 0 <= i < |es| => RecordOf(es[i], info))
  }

  lemma RecordStoresMoved(before: Entries, k: string, e: CacheEntry, info: ModuleInfo)
    requires k !in before && k == e.key.StableKey()
    ensures AfterRecord((Rebased(before, info), |Rebased(before, info)|), info, RecordOf(e, info)) ==
            (Rebased(before[k := e], info), |Rebased(before[k := e], info)|)
  {
    RebasedGrows(before, k, e, info);
    if Qualifies(e, info) {
      assert LoadedKey(info, e.key.name) == e.key;
    }
  }

  /** Loading these records into an empty cache gives exactly these entries, moved. */
  ghost predicate LoadsAs(records: seq<Option<Record>>, entries: Entries, info: ModuleInfo) {
    LoadRecords(map[], info, records) == (Rebased(entries, info), |Rebased(entries, info)|)
  }

  lemma LoadOneMore(records: seq<Option<Record>>, i: nat, e: CacheEntry, before: Entries, info: ModuleInfo)
    requires i < |records| && records[i] == RecordOf(e, info)
    requires e.key.StableKey() !in before && LoadsAs(records[..i], before, info)
    ensures LoadsAs(records[..i + 1], before[e.key.StableKey() := e], info)
  {
    RecordStoresMoved(before, e.key.StableKey(), e, info);
    OneMoreRecord(map[], info, records, i);
  }

  /** The i-th entry listed is one more of the part listed so far. */
  ghost predicate AddsOne(m: Entries, es: seq<CacheEntry>, i: nat)
    requires 0 < i <= |es|
  {
    var k := es[i - 1].key.StableKey();
    k !in Part(m, es[..i - 1]) && Part(m, es[..i]) == Part(m, es[..i - 1])[k := es[i - 1]]
  }

  lemma EachAddsOne(m: Entries, es: seq<CacheEntry>)
    requires WellKeyed(m) && Lists(es, m)
    ensures forall i :: 0 < i <= |es| ==> AddsOne(m, es, i)
  {
    forall i | 0 < i <= |es| ensures AddsOne(m, es, i) {
      PartGrows(m, es, i);
    }
  }

  lemma {:induction false} LoadOfRecords(m: Entries, es: seq<CacheEntry>, info: ModuleInfo, i: nat)
    requires i <= |es| && forall j :: 0 < j <= |es| ==> AddsOne(m, es, j)
    ensures LoadsAs(RecordsOf(es, info)[..i], Part(m, es[..i]), info)
  {
    var records := RecordsOf(es, info);
    if i == 0 {
      assert Rebased(Part(m, es[..0]), info) == map[] && records[..0] == [];
    } else {
      assert AddsOne(m, es, i);
      LoadOfRecords(m, es, info, i - 1);
      LoadOneMore(records, i - 1, es[i - 1], Part(m, es[..i - 1]), info);
    }
  }

  lemma SavedLinesAreLines(m: Entries, es: seq<CacheEntry>, info: ModuleInfo)
    requires Lists(es, m) && CleanNames(m)
    ensures forall i :: 0 <= i < |es| ==>
              '\n' !in LineOf(es[i]) && ReadLine(info, LineOf(es[i])) == RecordOf(es[i], info)
  {
    forall i | 0 <= i < |es|
      ensures '\n' !in LineOf(es[i]) && ReadLine(info, LineOf(es[i])) == RecordOf(es[i], info)
    {
      assert es[i] in es;
      LineRoundTrip(es[i], info);
    }
  }

  lemma ReadBack(m: Entries, es: seq<CacheEntry>, info: ModuleInfo)
    requires Lists(es, m) && CleanNames(m)
    ensures Loading(Contents(SavedText(es)), info) == Body(RecordsOf(es, info))
  {
    SavedLinesAreLines(m, es, info);
    LinesOfDocument(HEADER, LinesOf(es, LineOf));
    var lines := [HEADER] + LinesOf(es, LineOf);
    assert lines[1..] == LinesOf(es, LineOf);
    assert ReadLines(ReaderFor(info), LinesOf(es, LineOf)) == RecordsOf(es, info);
  }

  /** Saving in any order and loading into an empty cache brings back exactly the entries of the
      loaded module, of its current fingerprint and inside its image, moved to its new base; the
      count returned is their number. */
  lemma SaveThenLoad(m: Entries, es: seq<CacheEntry>, info: ModuleInfo)
    requires WellKeyed(m) && Lists(es, m) && CleanNames(m)
    ensures Loading(Contents(SavedText(es)), info).Body?
    ensures LoadRecords(map[], info, Loading(Contents(SavedText(es)), info).records) ==
            (Rebased(m, info), |Rebased(m, info)|)
  {
    ReadBack(m, es, info);
    EachAddsOne(m, es);
    LoadOfRecords(m, es, info, |es|);
    assert es[..|es|] == es && RecordsOf(es, info)[..|es|] == RecordsOf(es, info);
    assert Part(m, es) == m;
  }

  /** The whole trip through a file, on real caches. */
  method SaveAndReload(saved: PatternCache, info: ModuleInfo) returns (loaded: PatternCache, count: nat)
    requires saved.Valid() && CleanNames(saved.entries)
    ensures fresh(loaded) && loaded.Valid() && saved.entries == old(saved.entries)
    ensures loaded.entries == Rebased(saved.entries, info) && count == |loaded.entries|
  {
    var text := Save(saved);
    ghost var es :| Lists(es, saved.entries) && text == SavedText(es);
    loaded := new PatternCache();
    SaveThenLoad(saved.entries, es, info);
    var result := LoadForModule(loaded, info, Contents(text));
    count := result.value;
  }

  /** An entry stored at or above its old base keeps its distance from the base. */
  lemma MovedKeepsDistance(e: CacheEntry, info: ModuleInfo)
    requires e == NewEntry(e.key, e.address, e.moduleBase).(hits := e.hits)
    requires Qualifies(e, info) && info.base + info.size <= TWO64
    ensures e.address >= e.moduleBase ==> Moved(e, info).address - info.base == e.address - e.moduleBase
    ensures e.address < e.moduleBase ==> Moved(e, info).address == info.base
    ensures Moved(e, info).relativeOffset == e.relativeOffset
    ensures info.base > 0 ==> info.ImageRange().Contains(Moved(e, info).address, 1)
  {
  }

  // ---------- what a save leaves of the old file ----------

  /** The file holds this record for this module. */
  ghost predicate FileHas(file: CacheFile, info: ModuleInfo, r: Record) {
    Loading(file, info).Body? && Some(r) in Loading(file, info).records
  }

  /** The cache holds what the record says. */
  predicate Holds(m: Entries, info: ModuleInfo, r: Record) {
    var k := LoadedKey(info, r.name).StableKey();
    k in m && m[k].key == LoadedKey(info, r.name) && m[k].relativeOffset == r.offset && r.offset < info.size
  }

  /** A saved file holds, for any module, exactly the records of the entries in the cache. */
  lemma SavedRecordIff(m: Entries, es: seq<CacheEntry>, info: ModuleInfo, r: Record)
    requires WellKeyed(m) && Lists(es, m) && CleanNames(m)
    ensures FileHas(Contents(SavedText(es)), info, r) <==> Holds(m, info, r)
  {
    ReadBack(m, es, info);
    var records := RecordsOf(es, info);
    if Some(r) in records {
      var i :| 0 <= i < |records| && records[i] == Some(r);
      assert es[i] in es && RecordOf(es[i], info) == Some(r);
      assert es[i].key == LoadedKey(info, r.name);
    }
    if Holds(m, info, r) {
      var e := m[LoadedKey(info, r.name).StableKey()];
      var i :| 0 <= i < |es| && es[i] == e;
      assert records[i] == Some(r);
    }
  }

  /** A save rewrites the whole file: all its records, of whatever modules, survive exactly when the
      cache holds them all. */
  lemma FileSurvivesIff(file: CacheFile, m: Entries, es: seq<CacheEntry>)
    requires WellKeyed(m) && Lists(es, m) && CleanNames(m)
    ensures (forall info, r :: FileHas(file, info, r) ==> FileHas(Contents(SavedText(es)), info, r)) <==>
            (forall info, r :: FileHas(file, info, r) ==> Holds(m, info, r))
  {
    forall info, r ensures FileHas(Contents(SavedText(es)), info, r) <==> Holds(m, info, r) {
      SavedRecordIff(m, es, info, r);
    }
  }

  /** So a session that only ever cached one module drops every other module's records. */
  lemma OtherModulesAreDropped(m: Entries, es: seq<CacheEntry>, moduleName: string, other: ModuleInfo, r: Record)
    requires WellKeyed(m) && Lists(es, m) && CleanNames(m)
    requires (forall k :: k in m ==> m[k].key.moduleName == moduleName) && other.name != moduleName
    ensures !FileHas(Contents(SavedText(es)), other, r)
  {
    SavedRecordIff(m, es, other, r);
  }

  /** What the cache holds for other modules is not affected by one module's entries. */
  lemma HoldsForOthers(m1: Entries, m2: Entries, moduleName: string, info: ModuleInfo, r: Record)
    requires WithoutModule(m1, moduleName) == WithoutModule(m2, moduleName) && info.name != moduleName
    ensures Holds(m1, info, r) <==> Holds(m2, info, r)
  {
    var k := LoadedKey(info, r.name).StableKey();
    assert k in WithoutModule(m1, moduleName) <==> k in WithoutModule(m2, moduleName);
    if k in WithoutModule(m1, moduleName) {
      assert WithoutModule(m1, moduleName)[k] == WithoutModule(m2, moduleName)[k];
    }
  }

  // ---------- which names survive ----------

  lemma ReadNamesAreClean(info: ModuleInfo, line: string)
    requires '\n' !in line
    ensures ReadLine(info, line).Some? ==> Clean(info.name) && Clean(ReadLine(info, line).value.name)
  {
  }

  lemma {:induction false} LoadedNamesAreClean(info: ModuleInfo, records: seq<Option<Record>>)
    requires forall i :: 0 <= i < |records| && records[i].Some? ==> Clean(info.name) && Clean(records[i].value.name)
    ensures CleanNames(LoadRecords(map[], info, records).0)
  {
    if records != [] {
      var last := |records| - 1;
      LoadedNamesAreClean(info, records[..last]);
      assert records[last].Some? ==> Clean(records[last].value.name);
    }
  }

  /** Whatever the text, a load never brings back an entry with a separator in its module name or
      its pattern name, so a qualifying entry with such a name is lost. */
  lemma UncleanNameIsLost(m: Entries, info: ModuleInfo, text: string, k: string)
    requires k in m && Qualifies(m[k], info) && !CleanKey(m[k].key)
    requires Loading(Contents(text), info).Body?
    ensures LoadRecords(map[], info, Loading(Contents(text), info).records).0 != Rebased(m, info)
  {
    var lines := Lines(text)[1..];
    LinesHaveNoNewline(text);
    var records := ReadLines(ReaderFor(info), lines);
    forall i | 0 <= i < |records| && records[i].Some? ensures Clean(info.name) && Clean(records[i].value.name) {
      assert lines[i] == Lines(text)[i + 1];
      ReadNamesAreClean(info, lines[i]);
    }
    LoadedNamesAreClean(info, records);
    assert k in Rebased(m, info);
  }

  /** The load for a module brings back exactly its qualifying entries, rebased and counted. */
  ghost predicate RoundTrips(m: Entries, es: seq<CacheEntry>, info: ModuleInfo) {
    var content := Loading(Contents(SavedText(es)), info);
    content.Body? && LoadRecords(map[], info, content.records) == (Rebased(m, info), |Rebased(m, info)|)
  }

  lemma SeparatorBreaks(m: Entries, es: seq<CacheEntry>, info: ModuleInfo, k: string)
    requires k in m && Qualifies(m[k], info) && !CleanKey(m[k].key)
    ensures !RoundTrips(m, es, info)
  {
    if Loading(Contents(SavedText(es)), info).Body? {
      UncleanNameIsLost(m, info, SavedText(es), k);
    }
  }

  lemma CleanRoundTrips(m: Entries, es: seq<CacheEntry>, info: ModuleInfo)
    requires WellKeyed(m) && Lists(es, m) && CleanNames(m)
    ensures RoundTrips(m, es, info)
  {
    SaveThenLoad(m, es, info);
  }

  /** When every saved entry is the loaded module's, the round trip is exact for exactly the caches
      whose names have no separator. */
  lemma RoundTripIff(m: Entries, es: seq<CacheEntry>, info: ModuleInfo)
    requires WellKeyed(m) && Lists(es, m) && forall k :: k in m ==> Qualifies(m[k], info)
    ensures RoundTrips(m, es, info) <==> CleanNames(m)
  {
    if CleanNames(m) {
      CleanRoundTrips(m, es, info);
    } else {
      var k :| k in m && !CleanKey(m[k].key);
      SeparatorBreaks(m, es, info, k);
    }
  }

  /** A cache of any modules: every module's round trip is exact for exactly the caches whose names
      have no separator. No image size is beyond the offset 2^64 - 1, so an entry there never
      qualifies and proves nothing. */
  lemma EveryModuleRoundTripsIff(m: Entries, es: seq<CacheEntry>)
    requires WellKeyed(m) && Lists(es, m) && forall k :: k in m ==> m[k].relativeOffset < TWO64 - 1
    ensures (forall info :: RoundTrips(m, es, info)) <==> CleanNames(m)
  {
    if CleanNames(m) {
      forall info ensures RoundTrips(m, es, info) {
        CleanRoundTrips(m, es, info);
      }
    } else {
      var k :| k in m && !CleanKey(m[k].key);
      var e := m[k];
      SeparatorBreaks(m, es, ModuleInfo(e.key.moduleName, 0, e.relativeOffset + 1, e.key.fingerprint, []), k);
    }
  }

  // ---------- a record nobody stored ----------

  /** A pattern name whose saved line breaks in two, the second half a record for `info`. */
  function StrayName(info: ModuleInfo, r: Record): string {
    "\n" + JoinFields(Fields(info.name, r.name, Print(info.fingerprint, 10), Print(r.offset, 10)))
  }

  lemma UnlinesBreak(header: string, first: string, second: string)
    ensures Document(header, [first + "\n" + second]) == Document(header, [first, second])
  {
    assert Unlines([header, first, second]) == header + "\n" + Unlines([first, second]) by {
      assert [header, first, second][1..] == [first, second];
    }
    assert Unlines([first, second]) == first + "\n" + Unlines([second]) by {
      assert [first, second][1..] == [second];
    }
    assert Unlines([header, first + "\n" + second]) == header + "\n" + Unlines([first + "\n" + second]) by {
      assert [header, first + "\n" + second][1..] == [first + "\n" + second];
    }
    assert Unlines([second]) == second + "\n" && Unlines([first + "\n" + second]) == first + "\n" + second + "\n" by {
      assert [second][1..] == [] && [first + "\n" + second][1..] == [];
    }
    assert [header] + [first, second] == [header, first, second];
    assert [header] + [first + "\n" + second] == [header, first + "\n" + second];
  }

  lemma Regroup(a: string, b: string, c: string, d: string, e: string)
    ensures a + "\t" + (("\n" + b) + "\t" + (c + "\t" + d)) == (a + "\t") + "\n" + (b + ("\t" + c + "\t" + d))
    ensures a + "\t" + (b + "\t" + (c + "\t" + d)) + e == a + "\t" + (b + "\t" + (c + "\t" + (d + e)))
  {
  }

  /** The fields of the stray line: the record, and then text that `from_chars` leaves unread. */
  function StrayFields(info: ModuleInfo, r: Record, e: CacheEntry): Fields {
    Fields(info.name, r.name, Print(info.fingerprint, 10),
           Print(r.offset, 10) + ("\t" + Print(e.key.fingerprint, 10) + "\t" + Print(e.relativeOffset, 10)))
  }

  /** The entry's one line is two lines of the file. */
  lemma StrayLines(info: ModuleInfo, r: Record, e: CacheEntry)
    requires e.key.name == StrayName(info, r)
    ensures LineOf(e) == (e.key.moduleName + "\t") + "\n" + JoinFields(StrayFields(info, r, e))
  {
    var fp, offset := Print(e.key.fingerprint, 10), Print(e.relativeOffset, 10);
    var stray := JoinFields(Fields(info.name, r.name, Print(info.fingerprint, 10), Print(r.offset, 10)));
    var tail := "\t" + fp + "\t" + offset;
    Regroup(e.key.moduleName, stray, fp, offset, "");
    Regroup(info.name, r.name, Print(info.fingerprint, 10), Print(r.offset, 10), tail);
    assert LineOf(e) == (e.key.moduleName + "\t") + "\n" + (stray + tail);
  }

  lemma StrayFieldsRead(info: ModuleInfo, r: Record, e: CacheEntry)
    requires r.offset < info.size
    ensures ReadFields(info, StrayFields(info, r, e)) == Some(r)
  {
    PrintParseAll(info.fingerprint, 10, TWO64);
    PrintParse(r.offset, 10, TWO64, "\t" + Print(e.key.fingerprint, 10) + "\t" + Print(e.relativeOffset, 10));
  }

  lemma StrayFieldsHaveNoNewline(info: ModuleInfo, r: Record, e: CacheEntry)
    requires Clean(info.name) && Clean(r.name)
    ensures '\n' !in JoinFields(StrayFields(info, r, e))
    ensures ReadFrom(JoinFields(StrayFields(info, r, e)), f => ReadFields(info, f)) ==
            ReadFields(info, StrayFields(info, r, e))
  {
    PrintHasNoSeparator(info.fingerprint);
    PrintHasNoSeparator(r.offset);
    PrintHasNoSeparator(e.key.fingerprint);
    PrintHasNoSeparator(e.relativeOffset);
    JoinHasNoNewline(StrayFields(info, r, e));
    ReadJoined(StrayFields(info, r, e), f => ReadFields(info, f));
  }

  lemma HalfLineReadsNothing(info: ModuleInfo, moduleName: string)
    requires Clean(moduleName)
    ensures ReadLine(info, moduleName + "\t") == None
  {
    CutOfJoin(moduleName, "");
    assert moduleName + "\t" + "" == moduleName + "\t";
  }

  lemma BrokenLineReads(info: ModuleInfo, first: string, second: string)
    requires '\n' !in first && '\n' !in second
    ensures Loading(Contents(Document(HEADER, [first + "\n" + second])), info) ==
            Body([ReadLine(info, first), ReadLine(info, second)])
  {
    UnlinesBreak(HEADER, first, second);
    LinesOfDocument(HEADER, [first, second]);
    assert ([HEADER] + [first, second])[1..] == [first, second];
    assert ReadLines(ReaderFor(info), [first, second]) == [ReadLine(info, first), ReadLine(info, second)];
  }

  lemma OneRecordLoads(info: ModuleInfo, r: Record)
    ensures LoadRecords(map[], info, [None, Some(r)]) ==
            (Stored(map[], LoadedKey(info, r.name), Wrap64(info.base + r.offset), info.base), 1)
  {
    var records := [None, Some(r)];
    assert records[..1][..0] == [];
    OneMoreRecord(map[], info, records, 0);
    OneMoreRecord(map[], info, records, 1);
    assert records[..2] == records;
  }

  /** Why the names of entries that do not qualify matter too: for every module and every record
      with clean names there is a pattern name under which any other module's entry, saved alone,
      makes the load store that record, although no entry of the module was ever cached. */
  lemma StrayRecordLoads(info: ModuleInfo, r: Record, e: CacheEntry)
    requires Clean(info.name) && Clean(r.name) && r.offset < info.size
    requires Clean(e.key.moduleName) && e.key.moduleName != info.name && e.key.name == StrayName(info, r)
    ensures Loading(Contents(SavedText([e])), info) == Body([None, Some(r)])
    ensures Rebased(map[e.key.StableKey() := e], info) == map[]
    ensures LoadRecords(map[], info, [None, Some(r)]) ==
            (Stored(map[], LoadedKey(info, r.name), Wrap64(info.base + r.offset), info.base), 1)
  {
    StrayLines(info, r, e);
    StrayFieldsRead(info, r, e);
    StrayFieldsHaveNoNewline(info, r, e);
    HalfLineReadsNothing(info, e.key.moduleName);
    assert LinesOf([e], LineOf) == [LineOf(e)];
    BrokenLineReads(info, e.key.moduleName + "\t", JoinFields(StrayFields(info, r, e)));
    OneRecordLoads(info, r);
  }
}
