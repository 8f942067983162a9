/** Saving a crossmap as text and loading it back, for one build or for all. */
module CrossmapText {
  import opened Wrappers
  import opened Machine
  import opened Text
  import opened Crossmap

  const HEADER: string := "DDXMAP1"

  // ---------- saving ----------

  function FieldsOf(e: Entry): Fields {
    Fields(Print(e.build, 16), Print(e.canonical, 16), Print(e.runtime, 16), e.name)
  }

  function LineOf(e: Entry): string {
    JoinFields(FieldsOf(e))
  }

  function SavedText(es: seq<Entry>): string {
    Document(HEADER, LinesOf(es, LineOf))
  }

  /** The text written, for whatever order the snapshot came in. */
  method SaveText(m: NativeCrossmap) returns (text: string)
    requires Inv(m.View())
    ensures exists es :: Lists(es, m.byCanonical) && text == SavedText(es)
  {
    var snapshot := m.Snapshot();
    text := WriteDocument(HEADER, snapshot, LineOf);
  }

  // ---------- loading ----------

  /** The entry on a line, unless the line is malformed or of another build than `expected`. */
  function ReadLine(expected: u64, line: string): Option<Entry> {
    ReadFrom(line, f => ReadFields(expected, f))
  }

  function ReadFields(expected: u64, f: Fields): Option<Entry> {
    match (FromChars(f.first, 16, TWO64), FromChars(f.second, 16, TWO64), FromChars(f.third, 16, TWO64))
    case (Some(build), Some(canonical), Some(runtime)) =>
      if expected != 0 && build.value != expected then None
      else Some(Entry(canonical.value, runtime.value, build.value, f.rest))
    case _ => None
  }

  /** A line gives an entry exactly when it reads build, canonical hash, runtime hash and name with a
      tab after each of the first three, of the build asked for, if one is. */
  ghost predicate HoldsEntry(expected: u64, line: string, f: Fields, e: Entry) {
    && line == f.first + "\t" + (f.second + "\t" + (f.third + "\t" + f.rest))
    && '\t' !in f.first && '\t' !in f.second && '\t' !in f.third
    && Numeral(f.first, e.build) && Numeral(f.second, e.canonical) && Numeral(f.third, e.runtime)
    && f.rest == e.name && (expected == 0 || e.build == expected)
  }

  /** A hexadecimal number, with anything but a digit after it. */
  ghost predicate Numeral(s: string, n: nat) {
    FromChars(s, 16, TWO64).Some? && FromChars(s, 16, TWO64).value.value == n
  }

  lemma ReadLineMeaning(expected: u64, line: string, e: Entry)
    ensures ReadLine(expected, line) == Some(e) <==> exists f :: HoldsEntry(expected, line, f, e)
  {
    forall f | HoldsEntry(expected, line, f, e) ensures ReadLine(expected, line) == Some(e) {
      SplitMeaning(line, f);
    }
    if SplitFields(line).Some? {
      SplitMeaning(line, SplitFields(line).value);
      assert ReadLine(expected, line) == Some(e) ==> HoldsEntry(expected, line, SplitFields(line).value, e);
    }
  }

  type Reader = string -> Option<Entry>

  function ReaderFor(expected: u64): Reader {
    line => ReadLine(expected, line)
  }

  /** The entries read from the lines, in order. */
  function Parsed(read: Reader, lines: seq<string>): seq<Entry> {
    if lines == [] then []
    else Parsed(read, lines[..|lines| - 1]) +
         (match read(lines[|lines| - 1]) case None => [] case Some(e) => [e])
  }

  /** `at` lists in order the lines that hold an entry, and `es` is what they hold. */
  ghost predicate ReadsFrom(es: seq<Entry>, read: Reader, lines: seq<string>, at: seq<nat>) {
    && |at| == |es| && (forall i, j :: 0 <= i < j < |at| ==> at[i] < at[j])
    && (forall i :: 0 <= i < |at| ==> at[i] < |lines| && read(lines[at[i]]) == Some(es[i]))
    && (forall k :: 0 <= k < |lines| && read(lines[k]).Some? ==> k in at)
  }

  lemma OneMoreRead(es: seq<Entry>, read: Reader, front: seq<string>, line: string, at: seq<nat>)
    requires ReadsFrom(es, read, front, at)
    ensures read(line).None? ==> ReadsFrom(es, read, front + [line], at)
    ensures read(line).Some? ==> ReadsFrom(es + [read(line).value], read, front + [line], at + [|front|])
  {
    var lines := front + [line];
    assert lines[|front|] == line && forall k :: 0 <= k < |front| ==> lines[k] == front[k];
  }

  /** The entries are those of the lines that hold one, in order. */
  lemma {:induction false} ParsedMeaning(read: Reader, lines: seq<string>) returns (at: seq<nat>)
    ensures ReadsFrom(Parsed(read, lines), read, lines, at)
  {
    if lines == [] {
      return [];
    }
    var n := |lines| - 1;
    at := ParsedMeaning(read, lines[..n]);
    OneMoreRead(Parsed(read, lines[..n]), read, lines[..n], lines[n], at);
    assert lines == lines[..n] + [lines[n]];
    if read(lines[n]).Some? {
      at := at + [n];
    } else {
      assert Parsed(read, lines) == Parsed(read, lines[..n]);
    }
  }

  datatype FileContent = Unreadable | BadFormat | Body(entries: seq<Entry>)

  function Loading(file: Option<string>, expected: u64): FileContent {
    match file
    case None => Unreadable
    case Some(text) =>
      if Lines(text) == [] || Lines(text)[0] != HEADER then BadFormat
      else Body(Parsed(ReaderFor(expected), Lines(text)[1..]))
  }

  datatype LoadError = ReadFailed | UnsupportedFormat | Rejected(cause: CrossmapError)

  lemma OneMoreLine(read: Reader, seen: seq<string>, line: string, rest: seq<string>)
    ensures seen + ([line] + rest) == (seen + [line]) + rest
    ensures Parsed(read, seen + [line]) == Parsed(read, seen) + (match read(line) case None => [] case Some(e) => [e])
  {
  }

  method ParseBody(read: Reader, text: string, start: nat) returns (parsed: seq<Entry>)
    requires start <= |text|
    ensures parsed == Parsed(read, Lines(text[start..]))
  {
    ghost var lines := Lines(text[start..]);
    ghost var seen: seq<string> := [];
    parsed := [];
    var ok, line, pos := GetLine(text, start);
    while ok
      invariant pos <= |text|
      invariant lines == seen + (if ok then [line] + Lines(text[pos..]) else [])
      invariant parsed == Parsed(read, seen)
      decreases |lines| - |seen|
    {
      OneMoreLine(read, seen, line, Lines(text[pos..]));
      var entry := read(line);
      if entry.Some? {
        parsed := parsed + [entry.value];
      }
      seen := seen + [line];
      ok, line, pos := GetLine(text, pos);
    }
    assert seen + [] == seen;
  }

  lemma FormatMeaning(file: Option<string>)
    ensures file.Some? ==> (Lines(file.value) != [] && Lines(file.value)[0] == HEADER <==>
                              file.value == "DDXMAP1" || "DDXMAP1\n" <= file.value)
  {
    if file.Some? {
      assert HEADER == "DDXMAP1" && HEADER + "\n" == "DDXMAP1\n";
      FirstLineMeaning(file.value, HEADER);
    }
  }

  method LoadText(m: NativeCrossmap, file: Option<string>, expected: u64) returns (failure: Option<LoadError>)
    modifies m
    ensures match Loading(file, expected)
            case Unreadable => failure == Some(ReadFailed) && m.View() == old(m.View())
            case BadFormat => failure == Some(UnsupportedFormat) && m.View() == old(m.View())
            case Body(entries) =>
              var (s, e) := AddedAll(old(m.View()), entries);
              m.View() == s && failure == (match e case None => None case Some(cause) => Some(Rejected(cause)))
    ensures failure == Some(UnsupportedFormat) <==>
            file.Some? && file.value != "DDXMAP1" && !("DDXMAP1\n" <= file.value)
  {
    FormatMeaning(file);
    if file.None? {
      return Some(ReadFailed);
    }
    assert file.value[0..] == file.value;
    var ok, line, pos := GetLine(file.value, 0);
    if !ok || line != HEADER {
      return Some(UnsupportedFormat);
    }
    assert Lines(file.value)[1..] == Lines(file.value[pos..]);
    var parsed := ParseBody(ReaderFor(expected), file.value, pos);
    var cause := m.AddBatch(parsed);
    return if cause.None? then None else Some(Rejected(cause.value));
  }

  // ---------- reading back what was saved ----------

  predicate Wanted(e: Entry, expected: u64) {
    expected == 0 || e.build == expected
  }

  function Kept(es: seq<Entry>, expected: u64): seq<Entry> {
    if es == [] then []
    else Kept(es[..|es| - 1], expected) + (if Wanted(es[|es| - 1], expected) then [es[|es| - 1]] else [])
  }

  lemma HexHasNoSeparator(n: nat)
    ensures '\t' !in Print(n, 16) && '\n' !in Print(n, 16)
  {
  }

  lemma FieldsRoundTrip(e: Entry, expected: u64)
    ensures ReadFields(expected, FieldsOf(e)) == if Wanted(e, expected) then Some(e) else None
  {
    PrintParseAll(e.build, 16, TWO64);
    PrintParseAll(e.canonical, 16, TWO64);
    PrintParseAll(e.runtime, 16, TWO64);
  }

  /** Upper-case hex print and parse undo each other on every entry; tabs in the name survive. */
  lemma LineRoundTrip(e: Entry, expected: u64)
    requires '\n' !in e.name
    ensures '\n' !in LineOf(e)
    ensures ReadLine(expected, LineOf(e)) == if Wanted(e, expected) then Some(e) else None
  {
    HexHasNoSeparator(e.build);
    HexHasNoSeparator(e.canonical);
    HexHasNoSeparator(e.runtime);
    JoinHasNoNewline(FieldsOf(e));
    ReadJoined(FieldsOf(e), f => ReadFields(expected, f));
    FieldsRoundTrip(e, expected);
  }

  lemma {:induction false} ParsedOfLines(read: Reader, es: seq<Entry>, expected: u64)
    requires forall i :: 0 <= i < |es| ==> read(LineOf(es[i])) == if Wanted(es[i], expected) then Some(es[i]) else None
    ensures Parsed(read, LinesOf(es, LineOf)) == Kept(es, expected)
  {
    if es != [] {
      var last := |es| - 1;
      assert LinesOf(es, LineOf)[..last] == LinesOf(es[..last], LineOf);
      ParsedOfLines(read, es[..last], expected);
    }
  }

  lemma ReadBack(es: seq<Entry>, expected: u64)
    requires forall i :: 0 <= i < |es| ==> '\n' !in es[i].name
    ensures Loading(Some(SavedText(es)), expected) == Body(Kept(es, expected))
  {
    forall i | 0 <= i < |es|
      ensures '\n' !in LineOf(es[i])
      ensures ReadLine(expected, LineOf(es[i])) == if Wanted(es[i], expected) then Some(es[i]) else None
    {
      LineRoundTrip(es[i], expected);
    }
    LinesOfDocument(HEADER, LinesOf(es, LineOf));
    ParsedOfLines(ReaderFor(expected), es, expected);
    assert ([HEADER] + LinesOf(es, LineOf))[1..] == LinesOf(es, LineOf);
  }

  lemma {:induction false} ParsedAreOfBuild(expected: u64, lines: seq<string>)
    requires expected != 0
    ensures forall e :: e in Parsed(ReaderFor(expected), lines) ==> e.build == expected
  {
    if lines != [] {
      ParsedAreOfBuild(expected, lines[..|lines| - 1]);
    }
  }

  lemma {:induction false} AddingKeepsBuild(s: MapState, es: seq<Entry>, build: u64)
    requires forall k :: k in s.byCanonical ==> k.build == build
    requires forall e :: e in es ==> e.build == build
    ensures forall k :: k in AddedAll(s, es).0.byCanonical ==> k.build == build
    ensures es != [] && AddedAll(s, es).1.None? ==> AddedAll(s, es).0.byCanonical != map[]
    decreases |es|
  {
    if es != [] && Added(s, es[0]).1.None? {
      AddingKeepsBuild(Added(s, es[0]).0, es[1..], build);
      assert es[0].CanonicalKey() in Added(s, es[0]).0.byCanonical;
    }
  }

  /** A load for one build adds entries of that build only, and some entry if the file has any. */
  lemma LoadedEntriesAreOfBuild(file: Option<string>, expected: u64)
    requires expected != 0 && Loading(file, expected).Body?
    ensures var (es, s) := (Loading(file, expected).entries, AddedAll(EMPTY, Loading(file, expected).entries));
            && (forall k :: k in s.0.byCanonical ==> k.build == expected)
            && (s.1.None? ==> (es != [] <==> s.0.byCanonical != map[]))
  {
    var lines := Lines(file.value)[1..];
    ParsedAreOfBuild(expected, lines);
    AddingKeepsBuild(EMPTY, Parsed(ReaderFor(expected), lines), expected);
  }

  // ---------- rebuilding the maps ----------

  function OfBuild(m: map<Key, Entry>, expected: u64): map<Key, Entry> {
    map k | k in m && (expected == 0 || k.build == expected) :: m[k]
  }

  function Restricted(s: MapState, expected: u64): MapState {
    var c := OfBuild(s.byCanonical, expected);
    MapState(c, OfBuild(s.byRuntime, expected), Stats(|c|, 0, 0, 0))
  }

  lemma {:induction false} AddedAllAppend(s: MapState, es: seq<Entry>, e: Entry)
    requires AddedAll(s, es).1.None?
    ensures AddedAll(s, es + [e]) == Added(AddedAll(s, es).0, e)
    decreases |es|
  {
    if es == [] {
      assert es + [e] == [e] && [e][1..] == [];
    } else {
      assert (es + [e])[1..] == es[1..] + [e];
      AddedAllAppend(Added(s, es[0]).0, es[1..], e);
    }
  }

  lemma WithoutLast(c: map<Key, Entry>, r: map<Key, Entry>, es: seq<Entry>, e: Entry)
    requires Paired(c, r) && Lists(es + [e], c)
    ensures var (ck, rk) := (e.CanonicalKey(), e.RuntimeKey());
            && ck in c && rk in r && c[ck] == r[rk] == e
            && Paired(c - {ck}, r - {rk}) && Lists(es, c - {ck})
  {
    var all := es + [e];
    assert all[|es|] == e;
    var c' := c - {e.CanonicalKey()};
    forall k | k in c' ensures c'[k] in es {
      var i :| 0 <= i < |all| && all[i] == c[k];
      assert i != |es|;
    }
    forall i | 0 <= i < |es| ensures es[i].CanonicalKey() in c' && c'[es[i].CanonicalKey()] == es[i] {
      assert all[i] == es[i] && all[i].CanonicalKey() != all[|es|].CanonicalKey();
    }
    assert DistinctKeys(es) by {
      assert forall i :: 0 <= i < |es| ==> all[i] == es[i];
    }
  }

  /** The last pair, added to paired maps that miss it, completes them. */
  lemma AddMissingPair(c: map<Key, Entry>, r: map<Key, Entry>, e: Entry, stats: Stats)
    requires var (ck, rk) := (e.CanonicalKey(), e.RuntimeKey()); ck in c && rk in r && c[ck] == r[rk] == e
    requires e.canonical != 0 && e.runtime != 0
    ensures Added(MapState(c - {e.CanonicalKey()}, r - {e.RuntimeKey()}, stats), e) ==
            (MapState(c, r, stats.(entries := |c|)), None)
  {
    assert (c - {e.CanonicalKey()})[e.CanonicalKey() := e] == c;
    assert (r - {e.RuntimeKey()})[e.RuntimeKey() := e] == r;
  }

  lemma ListsNothing(c: map<Key, Entry>)
    requires Lists([], c)
    ensures c == map[]
  {
  }

  /** Adding the entries of paired maps to an empty crossmap rebuilds those maps, in any order. */
  lemma {:induction false} Rebuild(c: map<Key, Entry>, r: map<Key, Entry>, es: seq<Entry>)
    requires Paired(c, r) && Lists(es, c)
    requires forall k :: k in c ==> c[k].canonical != 0 && c[k].runtime != 0
    ensures AddedAll(EMPTY, es) == (MapState(c, r, Stats(|c|, 0, 0, 0)), None)
    decreases |es|
  {
    if es == [] {
      ListsNothing(c);
      PairedSameSize(c, r);
    } else {
      var e, front := es[|es| - 1], es[..|es| - 1];
      assert es == front + [e];
      WithoutLast(c, r, front, e);
      var c', r' := c - {e.CanonicalKey()}, r - {e.RuntimeKey()};
      Rebuild(c', r', front);
      AddedAllAppend(EMPTY, front, e);
      AddMissingPair(c, r, e, Stats(|c'|, 0, 0, 0));
    }
  }

  lemma {:induction false} KeptMeaning(es: seq<Entry>, expected: u64)
    ensures forall e :: e in Kept(es, expected) <==> e in es && Wanted(e, expected)
    ensures DistinctKeys(es) ==> DistinctKeys(Kept(es, expected))
  {
    if es != [] {
      var last := |es| - 1;
      KeptMeaning(es[..last], expected);
      var ks := Kept(es[..last], expected);
      assert es == es[..last] + [es[last]];
      if DistinctKeys(es) {
        forall i | 0 <= i < |ks| ensures ks[i].CanonicalKey() != es[last].CanonicalKey() {
          assert ks[i] in ks && ks[i] in es[..last];
        }
      }
    }
  }

  lemma RestrictionStaysPaired(s: MapState, es: seq<Entry>, expected: u64)
    requires Inv(s) && Lists(es, s.byCanonical)
    ensures Paired(OfBuild(s.byCanonical, expected), OfBuild(s.byRuntime, expected))
    ensures Lists(Kept(es, expected), OfBuild(s.byCanonical, expected))
  {
    KeptMeaning(es, expected);
    var ks := Kept(es, expected);
    forall i | 0 <= i < |ks| ensures ks[i] in es && Wanted(ks[i], expected) {
      assert ks[i] in ks;
    }
  }

  lemma UnrestrictedIsAll(s: MapState)
    ensures Restricted(s, 0).byCanonical == s.byCanonical && Restricted(s, 0).byRuntime == s.byRuntime
  {
  }

  /** For every reachable crossmap with newline-free names and every snapshot order, loading the
      saved text into an empty crossmap succeeds without a collision and rebuilds exactly the two
      maps, or exactly their restriction to a non-zero expected build. */
  lemma SaveThenLoad(s: MapState, es: seq<Entry>, expected: u64)
    requires Inv(s) && Lists(es, s.byCanonical)
    requires forall k :: k in s.byCanonical ==> '\n' !in s.byCanonical[k].name
    ensures Loading(Some(SavedText(es)), expected).Body?
    ensures AddedAll(EMPTY, Loading(Some(SavedText(es)), expected).entries) == (Restricted(s, expected), None)
    ensures expected == 0 ==>
              Restricted(s, expected).byCanonical == s.byCanonical && Restricted(s, expected).byRuntime == s.byRuntime
  {
    forall i | 0 <= i < |es| ensures '\n' !in es[i].name {
      assert s.byCanonical[es[i].CanonicalKey()] == es[i];
    }
    ReadBack(es, expected);
    RestrictionStaysPaired(s, es, expected);
    UnrestrictedIsAll(s);
    Rebuild(OfBuild(s.byCanonical, expected), OfBuild(s.byRuntime, expected), Kept(es, expected));
  }

  /** The same on real crossmaps. */
  method SaveAndReload(saved: NativeCrossmap, expected: u64) returns (loaded: NativeCrossmap)
    requires Inv(saved.View()) && NoNewlines(saved.byCanonical)
    ensures fresh(loaded) && saved.View() == old(saved.View())
    ensures loaded.View() == Restricted(saved.View(), expected)
  {
    var text := SaveText(saved);
    ghost var es :| Lists(es, saved.byCanonical) && text == SavedText(es);
    loaded := new NativeCrossmap();
    SaveThenLoad(saved.View(), es, expected);
    var failure := LoadText(loaded, Some(text), expected);
  }

  // ---------- newlines in names ----------

  ghost predicate NoNewlines(c: map<Key, Entry>) {
    forall k :: k in c ==> '\n' !in c[k].name
  }

  lemma {:induction false} ParsedNamesHaveNoNewline(expected: u64, lines: seq<string>)
    requires forall i :: 0 <= i < |lines| ==> '\n' !in lines[i]
    ensures forall e :: e in Parsed(ReaderFor(expected), lines) ==> '\n' !in e.name
  {
    if lines != [] {
      var last := |lines| - 1;
      ParsedNamesHaveNoNewline(expected, lines[..last]);
      NameComesFromLine(expected, lines[last]);
    }
  }

  lemma NameComesFromLine(expected: u64, line: string)
    requires '\n' !in line
    ensures ReadLine(expected, line).Some? ==> '\n' !in ReadLine(expected, line).value.name
  {
  }

  lemma {:induction false} AddingAddsNoNewline(s: MapState, es: seq<Entry>)
    requires NoNewlines(s.byCanonical) && forall e :: e in es ==> '\n' !in e.name
    ensures NoNewlines(AddedAll(s, es).0.byCanonical)
    decreases |es|
  {
    if es != [] && Added(s, es[0]).1.None? {
      AddingAddsNoNewline(Added(s, es[0]).0, es[1..]);
    }
  }

  /** Loading the saved text for all builds rebuilds both maps, without a collision. */
  ghost predicate RoundTrips(s: MapState, es: seq<Entry>) {
    var content := Loading(Some(SavedText(es)), 0);
    && content.Body?
    && AddedAll(EMPTY, content.entries).1.None?
    && AddedAll(EMPTY, content.entries).0.byCanonical == s.byCanonical
    && AddedAll(EMPTY, content.entries).0.byRuntime == s.byRuntime
  }

  /** The full round trip succeeds exactly when no name contains a newline. */
  lemma RoundTripIff(s: MapState, es: seq<Entry>)
    requires Inv(s) && Lists(es, s.byCanonical)
    ensures RoundTrips(s, es) <==> NoNewlines(s.byCanonical)
  {
    if NoNewlines(s.byCanonical) {
      SaveThenLoad(s, es, 0);
    } else {
      var text := SavedText(es);
      LinesHaveNoNewline(text);
      if Loading(Some(text), 0).Body? {
        var lines := Lines(text)[1..];
        assert forall i :: 0 <= i < |lines| ==> lines[i] == Lines(text)[i + 1];
        ParsedNamesHaveNoNewline(0, lines);
        AddingAddsNoNewline(EMPTY, Parsed(ReaderFor(0), lines));
      }
    }
  }

  /** The crossmap reached by adding one entry whose name is a newline: the add succeeds, the trip
      does not. */
  lemma NewlineNameIsLost(canonical: u64, runtime: u64, build: u64)
    requires canonical != 0 && runtime != 0
    ensures var e := Entry(canonical, runtime, build, "\n");
            var (s, failure) := Added(EMPTY, e);
            failure.None? && Inv(s) && Lists([e], s.byCanonical) && !RoundTrips(s, [e])
  {
    var e := Entry(canonical, runtime, build, "\n");
    var s := Added(EMPTY, e).0;
    AddKeepsInv(EMPTY, e);
    assert s.byCanonical == map[e.CanonicalKey() := e];
    assert Lists([e], s.byCanonical);
    assert s.byCanonical[e.CanonicalKey()].name[0] == '\n';
    RoundTripIff(s, [e]);
  }
}
