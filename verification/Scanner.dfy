/** The anchored in-process scanner and the anchor-free out-of-process scanner. */
module Scanner {
  import opened Wrappers
  import opened Machine
  import opened Pattern

  // ---------- reference matching ----------

  predicate TokenMatches(t: Token, b: byte) {
    t.Wildcard? || t.value == b
  }

  predicate MatchesAt(bytes: seq<byte>, tokens: seq<Token>, offset: nat) {
    offset + |tokens| <= |bytes| &&
    forall i :: 0 <= i < |tokens| ==> TokenMatches(tokens[i], bytes[offset + i])
  }

  ghost predicate Ascending(s: seq<nat>) {
    forall i, j :: 0 <= i < j < |s| ==> s[i] < s[j]
  }

  /** Every matching offset below `bound`, in ascending order. */
  function MatchesBelow(bytes: seq<byte>, tokens: seq<Token>, bound: nat): seq<nat> {
    if bound == 0 then []
    else MatchesBelow(bytes, tokens, bound - 1) +
         (if MatchesAt(bytes, tokens, bound - 1) then [bound - 1] else [])
  }

  function AllMatches(bytes: seq<byte>, tokens: seq<Token>): seq<nat> {
    MatchesBelow(bytes, tokens, |bytes| + 1)
  }

  function Take<T>(s: seq<T>, n: nat): seq<T> {
    if |s| <= n then s else s[..n]
  }

  lemma {:induction false} MatchesBelowMeaning(bytes: seq<byte>, tokens: seq<Token>, bound: nat)
    ensures forall o: nat :: o in MatchesBelow(bytes, tokens, bound) <==> o < bound && MatchesAt(bytes, tokens, o)
    ensures Ascending(MatchesBelow(bytes, tokens, bound))
  {
    if bound > 0 {
      MatchesBelowMeaning(bytes, tokens, bound - 1);
      var ms := MatchesBelow(bytes, tokens, bound - 1);
      assert forall i :: 0 <= i < |ms| ==> ms[i] in ms;
    }
  }

  /** The naive reading of a scan: strictly ascending, and exactly the matching offsets. */
  lemma AllMatchesMeaning(bytes: seq<byte>, tokens: seq<Token>)
    ensures forall o: nat :: o in AllMatches(bytes, tokens) <==> MatchesAt(bytes, tokens, o)
    ensures Ascending(AllMatches(bytes, tokens))
  {
    MatchesBelowMeaning(bytes, tokens, |bytes| + 1);
  }

  lemma {:induction false} MatchesBelowPrefix(bytes: seq<byte>, tokens: seq<Token>, low: nat, high: nat)
    requires low <= high
    ensures MatchesBelow(bytes, tokens, low) <= MatchesBelow(bytes, tokens, high)
    decreases high
  {
    if low < high {
      MatchesBelowPrefix(bytes, tokens, low, high - 1);
    }
  }

  /** Offsets too close to the end match nothing, so a scan may stop before them. */
  lemma {:induction false} NoMatchesBeyond(bytes: seq<byte>, tokens: seq<Token>, limit: nat, bound: nat)
    requires limit <= bound && limit + |tokens| > |bytes|
    ensures MatchesBelow(bytes, tokens, bound) == MatchesBelow(bytes, tokens, limit)
    decreases bound
  {
    if limit < bound {
      NoMatchesBeyond(bytes, tokens, limit, bound - 1);
    }
  }

  /** A scan that stopped because it was full, or because it had seen every offset. */
  lemma ScanIsComplete(bytes: seq<byte>, tokens: seq<Token>, matches: seq<nat>, offset: nat, max: nat)
    requires matches == MatchesBelow(bytes, tokens, offset) && |matches| <= max
    requires offset <= |bytes| + 1
    requires |matches| == max || offset + |tokens| > |bytes|
    ensures matches == Take(AllMatches(bytes, tokens), max)
  {
    MatchesBelowPrefix(bytes, tokens, offset, |bytes| + 1);
    if offset + |tokens| > |bytes| {
      NoMatchesBeyond(bytes, tokens, offset, |bytes| + 1);
    }
  }

  // ---------- the in-process scanner ----------

  datatype ScanStats = ScanStats(bytesScanned: nat, candidateCount: nat, matchCount: nat) {
    function Plus(s: ScanStats): ScanStats {
      ScanStats(bytesScanned + s.bytesScanned, candidateCount + s.candidateCount, matchCount + s.matchCount)
    }
  }

  const NO_STATS := ScanStats(0, 0, 0)

  predicate Scannable(range: MemoryRange, tokens: seq<Token>) {
    !range.Empty() && tokens != [] && |tokens| <= range.size
  }

  ghost predicate WellFormed(p: Pattern) {
    p.tokens != [] && IsAnchor(p.tokens, p.anchorOffset, p.anchorLength)
  }

  /** The offsets a scan reports: the first `max` matches, all of them when `max` is zero. */
  function ScanOffsets(bytes: seq<byte>, tokens: seq<Token>, max: nat): seq<nat> {
    Take(AllMatches(bytes, tokens), if max == 0 then |bytes| + 1 else max)
  }

  /** How many offsets a scan examines: up to the last match when it filled up, else all. */
  function Examined(bytes: seq<byte>, tokens: seq<Token>, max: nat): nat
    requires |tokens| <= |bytes|
  {
    var found := ScanOffsets(bytes, tokens, max);
    if max > 0 && |found| == max then found[max - 1] + 1 else |bytes| - |tokens| + 1
  }

  function ScanStatistics(range: MemoryRange, bytes: seq<byte>, tokens: seq<Token>, max: nat): ScanStats {
    if Scannable(range, tokens) && |tokens| <= |bytes|
    then ScanStats(range.size, Examined(bytes, tokens, max), |ScanOffsets(bytes, tokens, max)|)
    else NO_STATS
  }

  lemma {:induction false} MatchesBelowLength(bytes: seq<byte>, tokens: seq<Token>, bound: nat)
    ensures |MatchesBelow(bytes, tokens, bound)| <= bound
  {
    if bound > 0 {
      MatchesBelowLength(bytes, tokens, bound - 1);
    }
  }

  /** The first `max` matches of the bytes, all of them when `max` is zero: ascending, matching, and
      leaving out only what comes after a full list. */
  ghost predicate FirstMatches(found: seq<nat>, bytes: seq<byte>, tokens: seq<Token>, max: nat) {
    && Ascending(found) && (max > 0 ==> |found| <= max)
    && (forall i :: 0 <= i < |found| ==> MatchesAt(bytes, tokens, found[i]))
    && (forall o: nat :: MatchesAt(bytes, tokens, o) && o !in found ==>
          max > 0 && |found| == max && found[max - 1] < o)
  }

  lemma AscendingMembers(s: seq<nat>, n: nat, o: nat)
    requires Ascending(s) && 0 < n <= |s| && o in s && o !in s[..n]
    ensures s[n - 1] < o
  {
    var i :| 0 <= i < |s| && s[i] == o;
    assert forall j :: 0 <= j < n ==> s[..n][j] == s[j];
  }

  /** What a scan reports is what it promises. */
  lemma ScanOffsetsMeaning(bytes: seq<byte>, tokens: seq<Token>, max: nat)
    ensures FirstMatches(ScanOffsets(bytes, tokens, max), bytes, tokens, max)
  {
    var all, found := AllMatches(bytes, tokens), ScanOffsets(bytes, tokens, max);
    AllMatchesMeaning(bytes, tokens);
    MatchesBelowLength(bytes, tokens, |bytes| + 1);
    forall i | 0 <= i < |found| ensures MatchesAt(bytes, tokens, found[i]) {
      assert found[i] in all;
    }
    forall o: nat | MatchesAt(bytes, tokens, o) && o !in found
      ensures max > 0 && |found| == max && found[max - 1] < o
    {
      AscendingMembers(all, max, o);
    }
  }

  class PatternScanner {
    var lastStats: ScanStats

    constructor ()
      ensures lastStats == NO_STATS
    {
      lastStats := NO_STATS;
    }

    static method Matches(bytes: seq<byte>, offset: nat, tokens: seq<Token>) returns (r: bool)
      requires offset + |tokens| <= |bytes|
      ensures r <==> MatchesAt(bytes, tokens, offset)
    {
      for i := 0 to |tokens|
        invariant forall j :: 0 <= j < i ==> TokenMatches(tokens[j], bytes[offset + j])
      {
        if !tokens[i].Wildcard? && bytes[offset + i] != tokens[i].value {
          return false;
        }
      }
      return true;
    }

    /** The anchor test rejects only offsets that do not match. */
    static method AnchorMatches(bytes: seq<byte>, offset: nat, p: Pattern) returns (r: bool)
      requires WellFormed(p) && offset + |p.tokens| <= |bytes|
      ensures !r ==> !MatchesAt(bytes, p.tokens, offset)
      ensures r <==> forall a :: p.anchorOffset <= a < p.anchorOffset + p.anchorLength ==>
                       TokenMatches(p.tokens[a], bytes[offset + a])
    {
      for a := 0 to p.anchorLength
        invariant forall b :: p.anchorOffset <= b < p.anchorOffset + a ==> TokenMatches(p.tokens[b], bytes[offset + b])
      {
        if bytes[offset + p.anchorOffset + a] != p.tokens[p.anchorOffset + a].value {
          assert !TokenMatches(p.tokens[p.anchorOffset + a], bytes[offset + (p.anchorOffset + a)]);
          return false;
        }
      }
      return true;
    }

    /** None stands for the invalid-range-or-pattern failure. */
    method Scan(range: MemoryRange, mem: Memory, p: Pattern, maxResults: nat) returns (r: Option<seq<nat>>)
      requires WellFormed(p)
      modifies this
      ensures r.Some? <==> Scannable(range, p.tokens)
      ensures r.Some? ==> r.value == ScanOffsets(range.Bytes(mem), p.tokens, maxResults)
      ensures lastStats == ScanStatistics(range, range.Bytes(mem), p.tokens, maxResults)
      ensures r.Some? <==> range.begin != 0 && range.size != 0 && |p.tokens| <= range.size
      ensures r.Some? ==> FirstMatches(r.value, range.Bytes(mem), p.tokens, maxResults)
      ensures r.Some? ==>
                && lastStats.bytesScanned == range.size && lastStats.matchCount == |r.value|
                && lastStats.candidateCount == if maxResults > 0 && |r.value| == maxResults
                                               then r.value[maxResults - 1] + 1 else range.size - |p.tokens| + 1
      ensures r.None? ==> lastStats == ScanStats(0, 0, 0)
    {
      lastStats := NO_STATS;
      if range.Empty() || |p.tokens| == 0 || |p.tokens| > range.size {
        return None;
      }
      var bytes := range.Bytes(mem);
      var limit := |bytes| - |p.tokens| + 1;
      var max := if maxResults == 0 then |bytes| + 1 else maxResults;
      var matches: seq<nat> := [];
      var offset := 0;
      while offset < limit && |matches| < max
        invariant offset <= limit
        invariant matches == MatchesBelow(bytes, p.tokens, offset) && |matches| <= max
        invariant lastStats == ScanStats(0, offset, 0)
        invariant |matches| == max ==> matches[max - 1] == offset - 1
      {
        lastStats := lastStats.(candidateCount := lastStats.candidateCount + 1);
        var anchored := AnchorMatches(bytes, offset, p);
        if anchored {
          var matched := Matches(bytes, offset, p.tokens);
          if matched {
            matches := matches + [offset];
          }
        }
        offset := offset + 1;
      }
      MatchesBelowLength(bytes, p.tokens, offset);
      ScanIsComplete(bytes, p.tokens, matches, offset, max);
      ScanOffsetsMeaning(bytes, p.tokens, maxResults);
      lastStats := lastStats.(bytesScanned := range.size, matchCount := |matches|);
      return Some(matches);
    }

    method FindFirst(range: MemoryRange, mem: Memory, p: Pattern) returns (r: Option<nat>)
      requires WellFormed(p)
      modifies this
      ensures r == FirstMatch(range, mem, p.tokens)
      ensures lastStats == ScanStatistics(range, range.Bytes(mem), p.tokens, 1)
      ensures r.Some? ==> |p.tokens| <= range.size && MatchesAt(range.Bytes(mem), p.tokens, r.value)
      ensures forall o: nat :: |p.tokens| <= range.size && MatchesAt(range.Bytes(mem), p.tokens, o) ==>
                r.Some? && r.value <= o
    {
      var found := Scan(range, mem, p, 1);
      if found.None? || found.value == [] {
        return None;
      }
      return Some(found.value[0]);
    }
  }

  function FirstMatch(range: MemoryRange, mem: Memory, tokens: seq<Token>): Option<nat> {
    var found := ScanOffsets(range.Bytes(mem), tokens, 1);
    if Scannable(range, tokens) && found != [] then Some(found[0]) else None
  }

  /** `FindFirst` is the least match, and fails exactly when there is none. */
  lemma FirstMatchIsLeast(range: MemoryRange, mem: Memory, tokens: seq<Token>)
    requires Scannable(range, tokens)
    ensures var bytes := range.Bytes(mem);
            match FirstMatch(range, mem, tokens)
            case Some(o) => MatchesAt(bytes, tokens, o) && forall o': nat :: o' < o ==> !MatchesAt(bytes, tokens, o')
            case None => forall o: nat :: !MatchesAt(bytes, tokens, o)
  {
    var bytes := range.Bytes(mem);
    AllMatchesMeaning(bytes, tokens);
    var ms := AllMatches(bytes, tokens);
    if ms != [] {
      assert ms[0] in ms;
    }
  }

  // ---------- the out-of-process scanner ----------

  /** A module of another process. */
  datatype ProcessModule = ProcessModule(name: string, baseAddress: u64, imageSize: u32) {
    predicate Valid() {
      name != "" && baseAddress != 0 && imageSize != 0
    }
  }

  datatype ProcessMatch = ProcessMatch(address: u64, offset: nat)

  datatype ProcessScanError = InvalidRequest | ImageUnreadable

  function MatchesAtOffsets(m: ProcessModule, offsets: seq<nat>): seq<ProcessMatch> {
    seq(|offsets|, i requires 0 <= i < |offsets| => ProcessMatch(Wrap64(m.baseAddress + offsets[i]), offsets[i]))
  }

  /** Anchor-free scan of a whole module image; `image` is what reading the image gives, a buffer of
      the size asked for unless the read fails. */
  method ScanProcess(m: ProcessModule, image: Option<seq<byte>>, signature: seq<Token>, maxMatches: nat)
      returns (r: Result<seq<ProcessMatch>, ProcessScanError>)
    requires image.Some? ==> |image.value| == m.imageSize
    ensures var valid := m.Valid() && signature != [] && |signature| <= m.imageSize && maxMatches > 0;
            r == if !valid then Failure(InvalidRequest)
                 else match image
                   case None => Failure(ImageUnreadable)
                   case Some(bytes) => Success(MatchesAtOffsets(m, ScanOffsets(bytes, signature, maxMatches)))
    ensures r == Failure(InvalidRequest) <==>
            m.name == "" || m.baseAddress == 0 || m.imageSize == 0 || signature == [] || |signature| > m.imageSize
            || maxMatches == 0
    ensures r.Success? ==>
              && image.Some? && |r.value| == |ScanOffsets(image.value, signature, maxMatches)|
              && (forall i :: 0 <= i < |r.value| ==>
                    r.value[i].offset == ScanOffsets(image.value, signature, maxMatches)[i])
              && (forall i :: 0 <= i < |r.value| ==>
                    r.value[i].address == (m.baseAddress + r.value[i].offset) % TWO64)
  {
    if !m.Valid() || signature == [] || |signature| > m.imageSize || maxMatches == 0 {
      return Failure(InvalidRequest);
    }
    if image.None? {
      return Failure(ImageUnreadable);
    }
    var found := ScanImage(m, image.value, signature, maxMatches);
    return Success(found);
  }

  /** The loop over the signature's bytes. */
  method SignatureAt(image: seq<byte>, signature: seq<Token>, offset: nat) returns (matched: bool)
    requires offset + |signature| <= |image|
    ensures matched <==> MatchesAt(image, signature, offset)
  {
    matched := true;
    for i := 0 to |signature|
      invariant matched && forall j :: 0 <= j < i ==> TokenMatches(signature[j], image[offset + j])
    {
      if !signature[i].Wildcard? && image[offset + i] != signature[i].value {
        matched := false;
        break;
      }
    }
  }

  /** The loop over the offsets. */
  method ScanImage(m: ProcessModule, image: seq<byte>, signature: seq<Token>, maxMatches: nat)
      returns (found: seq<ProcessMatch>)
    requires signature != [] && |signature| <= |image| && maxMatches > 0
    ensures found == MatchesAtOffsets(m, ScanOffsets(image, signature, maxMatches))
  {
    found := [];
    ghost var matches: seq<nat> := [];
    var last := |image| - |signature|;
    var offset := 0;
    while offset <= last && |found| < maxMatches
      invariant offset <= last + 1
      invariant matches == MatchesBelow(image, signature, offset) && |matches| <= maxMatches
      invariant found == MatchesAtOffsets(m, matches)
    {
      var matched := SignatureAt(image, signature, offset);
      if matched {
        found := found + [ProcessMatch(Wrap64(m.baseAddress + offset), offset)];
        matches := matches + [offset];
      }
      offset := offset + 1;
    }
    ScanIsComplete(image, signature, matches, offset, maxMatches);
  }
}
