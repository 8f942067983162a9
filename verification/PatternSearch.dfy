/** Searching a module for the address a pattern request asks for. */
module PatternSearch {
  import opened Wrappers
  import opened Machine
  import opened Pattern
  import opened Scanner

  datatype AddressTransform = Match | AddOffset | ResolveRelative32

  datatype SectionAccess = Any | Readable | Writable | Executable | ExecutableReadable

  datatype Section = Section(name: string, range: MemoryRange, readable: bool, writable: bool, executable: bool)

  /** A loaded module; `fingerprint` is the 64-bit mix of its image metadata. */
  datatype ModuleInfo = ModuleInfo(name: string, base: u64, size: u64, fingerprint: u64, sections: seq<Section>) {
    function ImageRange(): MemoryRange {
      MemoryRange(base, size)
    }
  }

  /** A module together with the memory it is mapped in. */
  datatype Image = Image(info: ModuleInfo, mem: Memory)

  datatype Request = Request(name: string, signature: string, section: Option<string>, access: SectionAccess,
                             transform: AddressTransform, offset: i64, displacementOffset: i64,
                             instructionSize: u64, validator: Option<u64 -> bool>) {
    predicate Accepts(address: u64) {
      validator.None? || validator.value(address)
    }
  }

  datatype Resolution = Resolution(name: string, address: u64, cacheHit: bool, statistics: ScanStats)

  datatype ResolveError =
    | BadSignature(pattern: string, reason: PatternError)
    | SectionMissing(pattern: string, section: string)
    | RelativeUnresolved(pattern: string)
    | NotFound(pattern: string, bytesScanned: nat)
    | WorkerFailed(pattern: string)
    | SubmissionRefused

  // ---------- address transforms ----------

  function RelativeTarget(instruction: u64, size: u64, displacement: int): u64 {
    Wrap64(instruction + size + displacement)
  }

  /** The target of an instruction's 32-bit relative operand, read from inside the instruction. */
  function RelativeOperand(mem: Memory, instruction: u64, displacementOffset: i64, size: u64): Option<u64> {
    var at := Wrap64(instruction + displacementOffset);
    if !MemoryRange(instruction, size).Contains(at, 4) then None
    else
      var target := RelativeTarget(instruction, size, DecodeInt32(ReadBytes(mem, at, 4)));
      if target == 0 then None else Some(target)
  }

  function ApplyTransform(mem: Memory, match_: u64, req: Request): Option<u64> {
    match req.transform
    case Match => Some(match_)
    case AddOffset => Some(Wrap64(match_ + req.offset))
    case ResolveRelative32 =>
      RelativeOperand(mem, Wrap64(match_ + req.offset), req.displacementOffset, req.instructionSize)
  }

  /** An instruction whose displacement field holds the distance from its end to `target`
      resolves to `target`, for every in-instruction field position. */
  lemma RelativeTransformFindsTarget(mem: Memory, match_: u64, req: Request, target: u64, delta: int)
    requires req.transform == ResolveRelative32 && target != 0
    requires -TWO31 <= delta < TWO31
    requires var instruction := Wrap64(match_ + req.offset);
             && instruction != 0
             && instruction + req.instructionSize <= TWO64
             && 0 <= req.displacementOffset && req.displacementOffset + 4 <= req.instructionSize
             && ReadBytes(mem, instruction + req.displacementOffset, 4) == EncodeInt32(delta)
             && target == Wrap64(instruction + req.instructionSize + delta)
    ensures ApplyTransform(mem, match_, req) == Some(target)
  {
    var instruction := Wrap64(match_ + req.offset);
    var at := instruction + req.displacementOffset;
    assert Wrap64(at) == at;
    ContainsIsInterval(MemoryRange(instruction, req.instructionSize), at, 4);
    Int32RoundTrip(delta);
    assert DecodeInt32(ReadBytes(mem, at, 4)) == delta;
  }

  /** A fixed offset is the distance from the match to the target. */
  lemma OffsetTransformFindsTarget(mem: Memory, match_: u64, req: Request, target: u64)
    requires req.transform == AddOffset && req.offset == target - match_
    ensures ApplyTransform(mem, match_, req) == Some(target)
  {
  }

  // ---------- the search without a cache ----------

  predicate Selected(s: Section, access: SectionAccess) {
    match access
    case Any => true
    case Readable => s.readable
    case Writable => s.writable
    case Executable => s.executable
    case ExecutableReadable => s.executable && s.readable
  }

  function SelectSections(sections: seq<Section>, access: SectionAccess): seq<MemoryRange> {
    if sections == [] then []
    else (if Selected(sections[0], access) && !sections[0].range.Empty() then [sections[0].range] else []) +
         SelectSections(sections[1..], access)
  }

  function FindSection(sections: seq<Section>, name: string): Option<MemoryRange> {
    if sections == [] then None
    else if sections[0].name == name then Some(sections[0].range)
    else FindSection(sections[1..], name)
  }

  /** The selection is the non-empty ranges of exactly the sections with the asked access. */
  lemma {:induction false} SelectSectionsMeaning(sections: seq<Section>, access: SectionAccess, range: MemoryRange)
    ensures range in SelectSections(sections, access) <==>
            exists s :: s in sections && s.range == range && !range.Empty() &&
              (access == Any || (access == Readable && s.readable) || (access == Writable && s.writable) ||
               (access == Executable && s.executable) || (access == ExecutableReadable && s.executable && s.readable))
  {
    if sections != [] {
      SelectSectionsMeaning(sections[1..], access, range);
      assert sections == [sections[0]] + sections[1..];
    }
  }

  /** A named section is the first of that name. */
  lemma {:induction false} FindSectionMeaning(sections: seq<Section>, name: string, i: nat)
    requires i <= |sections| && forall j :: 0 <= j < i ==> sections[j].name != name
    requires i < |sections| ==> sections[i].name == name
    ensures FindSection(sections, name) == if i < |sections| then Some(sections[i].range) else None
  {
    if i > 0 {
      assert forall j :: 0 <= j < i - 1 ==> sections[1..][j] == sections[j + 1];
      FindSectionMeaning(sections[1..], name, i - 1);
    }
  }

  function RangesOf(info: ModuleInfo, req: Request): Result<seq<MemoryRange>, ResolveError> {
    match req.section
    case None => Success(SelectSections(info.sections, req.access))
    case Some(name) =>
      match FindSection(info.sections, name)
      case None => Failure(SectionMissing(req.name, name))
      case Some(range) => Success([range])
  }

  /** What one range contributes: nothing, a broken relative address, or an accepted address. */
  datatype Verdict = Skip | Broken | Hit(address: u64)

  function VerdictOf(mem: Memory, range: MemoryRange, tokens: seq<Token>, req: Request): Verdict {
    match FirstMatch(range, mem, tokens)
    case None => Skip
    case Some(o) =>
      match ApplyTransform(mem, range.At(o), req)
      case None => Broken
      case Some(a) => if req.Accepts(a) then Hit(a) else Skip
  }

  datatype Found = Found(address: u64, statistics: ScanStats)

  function SearchRanges(mem: Memory, ranges: seq<MemoryRange>, tokens: seq<Token>, req: Request, seen: ScanStats)
      : Result<Found, ResolveError>
  {
    if ranges == [] then Failure(NotFound(req.name, seen.bytesScanned))
    else
      var now := seen.Plus(ScanStatistics(ranges[0], ranges[0].Bytes(mem), tokens, 1));
      match VerdictOf(mem, ranges[0], tokens, req)
      case Skip => SearchRanges(mem, ranges[1..], tokens, req, now)
      case Broken => Failure(RelativeUnresolved(req.name))
      case Hit(a) => Success(Found(a, now))
  }

  function Search(image: Image, req: Request): Result<Found, ResolveError> {
    match TokensOf(req.signature)
    case Failure(e) => Failure(BadSignature(req.name, e))
    case Success(tokens) =>
      match RangesOf(image.info, req)
      case Failure(e) => Failure(e)
      case Success(ranges) => SearchRanges(image.mem, ranges, tokens, req, NO_STATS)
  }

  /** The first range with anything to say decides the search. */
  lemma {:induction false} SearchRangesMeaning(mem: Memory, ranges: seq<MemoryRange>, tokens: seq<Token>, req: Request,
                                               seen: ScanStats, i: nat)
    requires i <= |ranges|
    requires forall j :: 0 <= j < i ==> VerdictOf(mem, ranges[j], tokens, req) == Skip
    requires i < |ranges| ==> VerdictOf(mem, ranges[i], tokens, req) != Skip
    ensures var r := SearchRanges(mem, ranges, tokens, req, seen);
            if i == |ranges| then r.Failure? && r.error.NotFound?
            else match VerdictOf(mem, ranges[i], tokens, req)
                 case Hit(a) => r.Success? && r.value.address == a
                 case _ => r == Failure(RelativeUnresolved(req.name))
  {
    if i > 0 {
      var now := seen.Plus(ScanStatistics(ranges[0], ranges[0].Bytes(mem), tokens, 1));
      assert forall j :: 0 <= j < i - 1 ==> ranges[1..][j] == ranges[j + 1];
      SearchRangesMeaning(mem, ranges[1..], tokens, req, now, i - 1);
    }
  }

  // ---------- what a search promises ----------

  predicate Allows(mem: Memory, at: int, t: Token) {
    t.Wildcard? || mem(at % TWO64) == t.value
  }

  /** The tokens match `o` bytes into the range, read straight from memory. */
  ghost predicate MatchAt(mem: Memory, range: MemoryRange, tokens: seq<Token>, o: nat) {
    && range.begin != 0 && o + |tokens| <= range.size
    && forall k :: 0 <= k < |tokens| ==> Allows(mem, range.begin + o + k, tokens[k])
  }

  ghost predicate LeastMatch(mem: Memory, range: MemoryRange, tokens: seq<Token>, o: nat) {
    MatchAt(mem, range, tokens, o) && forall p: nat :: p < o ==> !MatchAt(mem, range, tokens, p)
  }

  ghost predicate NoMatch(mem: Memory, range: MemoryRange, tokens: seq<Token>) {
    forall o: nat :: !MatchAt(mem, range, tokens, o)
  }

  /** The transform makes `a` of a match at `m`. */
  predicate Leads(mem: Memory, req: Request, m: u64, a: u64) {
    match req.transform
    case Match => a == m
    case AddOffset => a == (m + req.offset) % TWO64
    case ResolveRelative32 =>
      LeadsRelative(mem, (m + req.offset) % TWO64, req.displacementOffset, req.instructionSize, a)
  }

  /** The four displacement bytes lie inside the instruction, and `a` is that far from its end. */
  predicate LeadsRelative(mem: Memory, instruction: u64, displacementOffset: i64, size: u64, a: u64) {
    var at := (instruction + displacementOffset) % TWO64;
    var end := instruction + size;
    && instruction != 0 && instruction <= at && at + 4 <= end && !(end > TWO64 && 4 <= end - TWO64)
    && a != 0 && a == (end + Displacement(mem, at)) % TWO64
  }

  ghost predicate LeadsNowhere(mem: Memory, req: Request, m: u64) {
    forall a: u64 :: !Leads(mem, req, m, a)
  }

  predicate Rejects(req: Request, a: u64) {
    req.validator.Some? && !req.validator.value(a)
  }

  function Place(range: MemoryRange, o: nat): u64 {
    (range.begin + o) % TWO64
  }

  /** The match leads to a rejected address. */
  ghost predicate LeadsToRejected(mem: Memory, req: Request, m: u64) {
    exists a: u64 :: Leads(mem, req, m, a) && Rejects(req, a)
  }

  /** The least match of the range leads to an accepted address. */
  ghost predicate Answers(mem: Memory, range: MemoryRange, tokens: seq<Token>, req: Request, a: u64) {
    exists o: nat :: LeastMatch(mem, range, tokens, o) && Leads(mem, req, Place(range, o), a) && !Rejects(req, a)
  }

  /** The least match of the range leads nowhere. */
  ghost predicate Breaks(mem: Memory, range: MemoryRange, tokens: seq<Token>, req: Request) {
    exists o: nat :: LeastMatch(mem, range, tokens, o) && LeadsNowhere(mem, req, Place(range, o))
  }

  /** The range has no match, or its least match leads to a rejected address. */
  ghost predicate Passes(mem: Memory, range: MemoryRange, tokens: seq<Token>, req: Request) {
    || NoMatch(mem, range, tokens)
    || exists o: nat :: LeastMatch(mem, range, tokens, o) && LeadsToRejected(mem, req, Place(range, o))
  }

  ghost predicate AllPass(mem: Memory, ranges: seq<MemoryRange>, tokens: seq<Token>, req: Request) {
    forall i :: 0 <= i < |ranges| ==> Passes(mem, ranges[i], tokens, req)
  }

  predicate HasAccess(s: Section, access: SectionAccess) {
    && s.range.begin != 0 && s.range.size != 0
    && (access == Readable ==> s.readable) && (access == Writable ==> s.writable)
    && (access == Executable ==> s.executable)
    && (access == ExecutableReadable ==> s.executable && s.readable)
  }

  /** `at` lists, in order, the sections from `from` on with the asked access, and `ranges` is theirs. */
  ghost predicate ListsAccess(sections: seq<Section>, from: nat, access: SectionAccess, at: seq<nat>,
                              ranges: seq<MemoryRange>) {
    && |at| == |ranges| && Ascending(at)
    && (forall i :: 0 <= i < |at| ==>
          from <= at[i] < |sections| && HasAccess(sections[at[i]], access) && ranges[i] == sections[at[i]].range)
    && (forall k :: from <= k < |sections| && HasAccess(sections[k], access) ==> k in at)
  }

  ghost predicate NameUnused(sections: seq<Section>, name: string, bound: nat)
    requires bound <= |sections|
  {
    forall j :: 0 <= j < bound ==> sections[j].name != name
  }

  ghost predicate FirstNamed(sections: seq<Section>, name: string, k: nat) {
    k < |sections| && sections[k].name == name && NameUnused(sections, name, k)
  }

  /** The ranges a request searches: the first section of its name, or in order the non-empty ones with
      its access. */
  ghost predicate Searches(info: ModuleInfo, req: Request, ranges: seq<MemoryRange>) {
    match req.section
    case Some(name) => exists k: nat :: FirstNamed(info.sections, name, k) && ranges == [info.sections[k].range]
    case None => exists at :: ListsAccess(info.sections, 0, req.access, at, ranges)
  }

  // ---------- what a search counts ----------

  /** What trying one range costs: its size and the places up to its least match, or all of them. */
  ghost predicate Costs(stats: ScanStats, mem: Memory, range: MemoryRange, tokens: seq<Token>) {
    if range.begin == 0 || range.size == 0 || range.size < |tokens| then stats == ScanStats(0, 0, 0)
    else
      || (NoMatch(mem, range, tokens) && stats == ScanStats(range.size, range.size - |tokens| + 1, 0))
      || exists o: nat :: LeastMatch(mem, range, tokens, o) && stats == ScanStats(range.size, o + 1, 1)
  }

  function Total(costs: seq<ScanStats>): ScanStats {
    if costs == [] then ScanStats(0, 0, 0)
    else
      var before, last := Total(costs[..|costs| - 1]), costs[|costs| - 1];
      ScanStats(before.bytesScanned + last.bytesScanned, before.candidateCount + last.candidateCount,
                before.matchCount + last.matchCount)
  }

  ghost predicate CostsEach(costs: seq<ScanStats>, mem: Memory, ranges: seq<MemoryRange>, tokens: seq<Token>) {
    |costs| == |ranges| && forall i :: 0 <= i < |costs| ==> Costs(costs[i], mem, ranges[i], tokens)
  }

  ghost predicate Measures(stats: ScanStats, mem: Memory, ranges: seq<MemoryRange>, tokens: seq<Token>) {
    exists costs :: CostsEach(costs, mem, ranges, tokens) && stats == Total(costs)
  }

  // ---------- what a search answers ----------

  ghost predicate Decides(mem: Memory, ranges: seq<MemoryRange>, tokens: seq<Token>, req: Request, i: nat,
                          r: Result<Found, ResolveError>) {
    && i <= |ranges| && AllPass(mem, ranges[..i], tokens, req)
    && match r
       case Success(f) =>
         i < |ranges| && Answers(mem, ranges[i], tokens, req, f.address)
         && Measures(f.statistics, mem, ranges[..i + 1], tokens)
       case Failure(RelativeUnresolved(name)) =>
         name == req.name && i < |ranges| && Breaks(mem, ranges[i], tokens, req)
       case Failure(NotFound(name, bytes)) =>
         name == req.name && i == |ranges|
         && exists stats :: Measures(stats, mem, ranges, tokens) && bytes == stats.bytesScanned
       case Failure(_) => false
  }

  /** The answer of a search, from the request and the memory: the signature spells nothing, there is no
      such section, or the first searched range with anything to say decides. */
  ghost predicate SearchAnswers(image: Image, req: Request, r: Result<Found, ResolveError>) {
    || (r.Failure? && Refuses(image.info, req, r.error))
    || exists tokens, ranges, i: nat :: AnswersAt(image, req, tokens, ranges, i, r)
  }

  ghost predicate AnswersAt(image: Image, req: Request, tokens: seq<Token>, ranges: seq<MemoryRange>, i: nat,
                            r: Result<Found, ResolveError>) {
    && Reads(req.signature, tokens) && Searches(image.info, req, ranges)
    && Decides(image.mem, ranges, tokens, req, i, r)
  }

  ghost predicate Refuses(info: ModuleInfo, req: Request, e: ResolveError) {
    match e
    case BadSignature(name, reason) => name == req.name && Misreads(req.signature, reason)
    case SectionMissing(name, s) =>
      && name == req.name && req.section == Some(s) && (exists tokens :: Reads(req.signature, tokens))
      && NameUnused(info.sections, s, |info.sections|)
    case _ => false
  }

  // ---------- one range ----------

  lemma MatchAtMeaning(mem: Memory, range: MemoryRange, tokens: seq<Token>, o: nat)
    requires tokens != []
    ensures MatchAt(mem, range, tokens, o) <==> MatchesAt(range.Bytes(mem), tokens, o)
  {
    var bytes := range.Bytes(mem);
    if range.begin != 0 && o + |tokens| <= range.size {
      forall k | 0 <= k < |tokens|
        ensures TokenMatches(tokens[k], bytes[o + k]) <==> Allows(mem, range.begin + o + k, tokens[k])
      {
        assert bytes[o + k] == mem(Wrap64(range.begin + (o + k)));
      }
    }
  }

  lemma FirstMatchMeaning(mem: Memory, range: MemoryRange, tokens: seq<Token>)
    requires tokens != []
    ensures match FirstMatch(range, mem, tokens)
            case Some(o) => LeastMatch(mem, range, tokens, o)
            case None => NoMatch(mem, range, tokens)
  {
    forall o: nat ensures MatchAt(mem, range, tokens, o) <==> MatchesAt(range.Bytes(mem), tokens, o) {
      MatchAtMeaning(mem, range, tokens, o);
    }
    if Scannable(range, tokens) {
      FirstMatchIsLeast(range, mem, tokens);
    }
  }

  lemma RelativeMeaning(mem: Memory, instruction: u64, displacementOffset: i64, size: u64, a: u64)
    ensures RelativeOperand(mem, instruction, displacementOffset, size) == Some(a) <==>
            LeadsRelative(mem, instruction, displacementOffset, size, a)
  {
    var at := Wrap64(instruction + displacementOffset);
    ContainsIsInterval(MemoryRange(instruction, size), at, 4);
    DisplacementMeaning(mem, at);
  }

  /** A match leads to what the transform makes of it, and to nothing else. */
  lemma TransformMeaning(mem: Memory, req: Request, m: u64, a: u64)
    ensures ApplyTransform(mem, m, req) == Some(a) <==> Leads(mem, req, m, a)
  {
    RelativeMeaning(mem, Wrap64(m + req.offset), req.displacementOffset, req.instructionSize, a);
  }

  lemma TransformFails(mem: Memory, req: Request, m: u64)
    requires ApplyTransform(mem, m, req).None?
    ensures LeadsNowhere(mem, req, m)
  {
    forall a: u64 ensures !Leads(mem, req, m, a) {
      TransformMeaning(mem, req, m, a);
    }
  }

  /** What a range contributes, in terms of its least match. */
  lemma VerdictMeaning(mem: Memory, range: MemoryRange, tokens: seq<Token>, req: Request)
    requires tokens != []
    ensures match VerdictOf(mem, range, tokens, req)
            case Skip => Passes(mem, range, tokens, req)
            case Broken => Breaks(mem, range, tokens, req)
            case Hit(a) => Answers(mem, range, tokens, req, a)
  {
    FirstMatchMeaning(mem, range, tokens);
    var found := FirstMatch(range, mem, tokens);
    if found.Some? {
      var m := range.At(found.value);
      var transformed := ApplyTransform(mem, m, req);
      assert m == Place(range, found.value);
      if transformed.None? {
        TransformFails(mem, req, m);
      } else {
        TransformMeaning(mem, req, m, transformed.value);
        assert Rejects(req, transformed.value) ==> LeadsToRejected(mem, req, m);
      }
    }
  }

  lemma RangeCosts(mem: Memory, range: MemoryRange, tokens: seq<Token>)
    requires tokens != []
    ensures Costs(ScanStatistics(range, range.Bytes(mem), tokens, 1), mem, range, tokens)
  {
    FirstMatchMeaning(mem, range, tokens);
  }

  // ---------- the ranges in turn ----------

  lemma OneMoreMeasured(seen: ScanStats, mem: Memory, done: seq<MemoryRange>, range: MemoryRange, tokens: seq<Token>)
    requires tokens != [] && Measures(seen, mem, done, tokens)
    ensures Measures(seen.Plus(ScanStatistics(range, range.Bytes(mem), tokens, 1)), mem, done + [range], tokens)
  {
    var costs :| CostsEach(costs, mem, done, tokens) && seen == Total(costs);
    var next := ScanStatistics(range, range.Bytes(mem), tokens, 1);
    RangeCosts(mem, range, tokens);
    TotalAppend(costs, next);
    assert CostsEach(costs + [next], mem, done + [range], tokens);
  }

  lemma TotalAppend(costs: seq<ScanStats>, next: ScanStats)
    ensures Total(costs + [next]) == Total(costs).Plus(next)
  {
    assert (costs + [next])[..|costs|] == costs;
  }

  lemma OneMorePasses(mem: Memory, done: seq<MemoryRange>, range: MemoryRange, tokens: seq<Token>, req: Request)
    requires AllPass(mem, done, tokens, req) && Passes(mem, range, tokens, req)
    ensures AllPass(mem, done + [range], tokens, req)
  {
  }

  /** The range after those that passed has something to say. */
  lemma NextDecides(mem: Memory, done: seq<MemoryRange>, range: MemoryRange, rest: seq<MemoryRange>, tokens: seq<Token>,
                    req: Request, now: ScanStats)
    requires AllPass(mem, done, tokens, req) && Measures(now, mem, done + [range], tokens)
    ensures Breaks(mem, range, tokens, req) ==>
              Decides(mem, done + ([range] + rest), tokens, req, |done|, Failure(RelativeUnresolved(req.name)))
    ensures forall a: u64 :: Answers(mem, range, tokens, req, a) ==>
              Decides(mem, done + ([range] + rest), tokens, req, |done|, Success(Found(a, now)))
  {
    var all := done + ([range] + rest);
    assert all[..|done|] == done && all[|done|] == range && all[..|done| + 1] == done + [range];
  }

  lemma NoneDecides(mem: Memory, done: seq<MemoryRange>, tokens: seq<Token>, req: Request, seen: ScanStats)
    requires AllPass(mem, done, tokens, req) && Measures(seen, mem, done, tokens)
    ensures Decides(mem, done, tokens, req, |done|, Failure(NotFound(req.name, seen.bytesScanned)))
  {
    assert done[..|done|] == done;
  }

  /** Searching the rest, after ranges that passed. */
  lemma {:induction false} RestDecides(mem: Memory, done: seq<MemoryRange>, rest: seq<MemoryRange>, tokens: seq<Token>,
                                       req: Request, seen: ScanStats) returns (i: nat)
    requires tokens != [] && AllPass(mem, done, tokens, req) && Measures(seen, mem, done, tokens)
    ensures Decides(mem, done + rest, tokens, req, i, SearchRanges(mem, rest, tokens, req, seen))
    decreases |rest|
  {
    if rest == [] {
      NoneDecides(mem, done, tokens, req, seen);
      assert done + rest == done;
      return |done|;
    }
    var range, later := rest[0], rest[1..];
    var now := seen.Plus(ScanStatistics(range, range.Bytes(mem), tokens, 1));
    assert rest == [range] + later;
    VerdictMeaning(mem, range, tokens, req);
    OneMoreMeasured(seen, mem, done, range, tokens);
    if VerdictOf(mem, range, tokens, req).Skip? {
      OneMorePasses(mem, done, range, tokens, req);
      assert done + [range] + later == done + rest;
      i := RestDecides(mem, done + [range], later, tokens, req, now);
    } else {
      NextDecides(mem, done, range, later, tokens, req, now);
      i := |done|;
    }
  }

  lemma ScanDecides(mem: Memory, ranges: seq<MemoryRange>, tokens: seq<Token>, req: Request) returns (i: nat)
    requires tokens != []
    ensures Decides(mem, ranges, tokens, req, i, SearchRanges(mem, ranges, tokens, req, NO_STATS))
  {
    assert CostsEach([], mem, [], tokens) && Total([]) == NO_STATS;
    i := RestDecides(mem, [], ranges, tokens, req, NO_STATS);
    assert [] + ranges == ranges;
  }

  // ---------- the choice of ranges ----------

  lemma AccessMeaning(s: Section, access: SectionAccess)
    ensures Selected(s, access) && !s.range.Empty() <==> HasAccess(s, access)
  {
  }

  lemma OneMoreListed(sections: seq<Section>, from: nat, access: SectionAccess, at: seq<nat>, ranges: seq<MemoryRange>)
    requires from < |sections| && HasAccess(sections[from], access)
    requires ListsAccess(sections, from + 1, access, at, ranges)
    ensures ListsAccess(sections, from, access, [from] + at, [sections[from].range] + ranges)
  {
    var all, all' := [from] + at, [sections[from].range] + ranges;
    forall i | 0 <= i < |all|
      ensures from <= all[i] < |sections| && HasAccess(sections[all[i]], access) && all'[i] == sections[all[i]].range
    {
      assert i > 0 ==> all[i] == at[i - 1] && all'[i] == ranges[i - 1];
    }
    forall k | from <= k < |sections| && HasAccess(sections[k], access) ensures k in all {
      assert k != from ==> k in at;
    }
  }

  lemma {:induction false} SelectionMeaning(sections: seq<Section>, from: nat, access: SectionAccess)
      returns (at: seq<nat>)
    requires from <= |sections|
    ensures ListsAccess(sections, from, access, at, SelectSections(sections[from..], access))
    decreases |sections| - from
  {
    if from == |sections| {
      return [];
    }
    assert sections[from..][1..] == sections[from + 1..];
    at := SelectionMeaning(sections, from + 1, access);
    AccessMeaning(sections[from], access);
    var rest := SelectSections(sections[from + 1..], access);
    if HasAccess(sections[from], access) {
      OneMoreListed(sections, from, access, at, rest);
      at := [from] + at;
    } else {
      assert [] + rest == rest;
    }
  }

  lemma FirstOfName(sections: seq<Section>, name: string) returns (k: nat)
    ensures k <= |sections| && NameUnused(sections, name, k)
    ensures k < |sections| ==> sections[k].name == name
  {
    k := 0;
    while k < |sections| && sections[k].name != name
      invariant k <= |sections| && NameUnused(sections, name, k)
    {
      k := k + 1;
    }
  }

  /** A request searches the ranges it asks for, and fails only for a name no section has. */
  lemma RangesMeaning(info: ModuleInfo, req: Request)
    ensures match RangesOf(info, req)
            case Success(ranges) => Searches(info, req, ranges)
            case Failure(e) => e.SectionMissing? && e.pattern == req.name && req.section == Some(e.section)
                               && NameUnused(info.sections, e.section, |info.sections|)
  {
    if req.section.Some? {
      var k := FirstOfName(info.sections, req.section.value);
      FindSectionMeaning(info.sections, req.section.value, k);
      assert k < |info.sections| ==> FirstNamed(info.sections, req.section.value, k);
    } else {
      var at := SelectionMeaning(info.sections, 0, req.access);
      assert info.sections[0..] == info.sections;
    }
  }

  lemma RefusalMeaning(image: Image, req: Request)
    requires TokensOf(req.signature).Failure? || RangesOf(image.info, req).Failure?
    ensures Search(image, req).Failure? && Refuses(image.info, req, Search(image, req).error)
  {
    TokensOfMeaning(req.signature);
    RangesMeaning(image.info, req);
  }

  lemma ScanningMeaning(image: Image, req: Request, tokens: seq<Token>, ranges: seq<MemoryRange>) returns (i: nat)
    requires TokensOf(req.signature) == Success(tokens) && RangesOf(image.info, req) == Success(ranges)
    ensures AnswersAt(image, req, tokens, ranges, i, SearchRanges(image.mem, ranges, tokens, req, NO_STATS))
  {
    TokensOfMeaning(req.signature);
    RangesMeaning(image.info, req);
    i := ScanDecides(image.mem, ranges, tokens, req);
  }

  /** The search answers as promised. */
  lemma SearchMeaning(image: Image, req: Request)
    ensures SearchAnswers(image, req, Search(image, req))
  {
    if TokensOf(req.signature).Failure? || RangesOf(image.info, req).Failure? {
      RefusalMeaning(image, req);
    } else {
      var i := ScanningMeaning(image, req, TokensOf(req.signature).value, RangesOf(image.info, req).value);
    }
  }

  // ---------- the promise leaves no choice ----------

  lemma {:induction false} SameMembers(a: seq<nat>, b: seq<nat>)
    requires Ascending(a) && Ascending(b) && forall k :: k in a <==> k in b
    ensures a == b
  {
    assert (a != [] ==> a[0] in b) && (b != [] ==> b[0] in a);
    if a != [] && b != [] {
      forall k ensures k in a[1..] <==> k in b[1..] {
        assert k in a[1..] <==> k in a && k != a[0];
        assert k in b[1..] <==> k in b && k != b[0];
      }
      SameMembers(a[1..], b[1..]);
      assert a == [a[0]] + a[1..] && b == [b[0]] + b[1..];
    }
  }

  lemma ListIsUnique(sections: seq<Section>, access: SectionAccess, at: seq<nat>, ranges: seq<MemoryRange>,
                     at': seq<nat>, ranges': seq<MemoryRange>)
    requires ListsAccess(sections, 0, access, at, ranges) && ListsAccess(sections, 0, access, at', ranges')
    ensures ranges == ranges'
  {
    assert forall k :: k in at <==> 0 <= k < |sections| && HasAccess(sections[k], access);
    assert forall k :: k in at' <==> 0 <= k < |sections| && HasAccess(sections[k], access);
    SameMembers(at, at');
  }

  lemma RangesAreUnique(info: ModuleInfo, req: Request, ranges: seq<MemoryRange>, ranges': seq<MemoryRange>)
    requires Searches(info, req, ranges) && Searches(info, req, ranges')
    ensures ranges == ranges'
  {
    if req.section.None? {
      var at :| ListsAccess(info.sections, 0, req.access, at, ranges);
      var at' :| ListsAccess(info.sections, 0, req.access, at', ranges');
      ListIsUnique(info.sections, req.access, at, ranges, at', ranges');
    }
  }

  lemma MeasureIsUnique(s: ScanStats, s': ScanStats, mem: Memory, ranges: seq<MemoryRange>, tokens: seq<Token>)
    requires Measures(s, mem, ranges, tokens) && Measures(s', mem, ranges, tokens)
    ensures s == s'
  {
    var costs :| CostsEach(costs, mem, ranges, tokens) && s == Total(costs);
    var costs' :| CostsEach(costs', mem, ranges, tokens) && s' == Total(costs');
    assert costs == costs';
  }

  lemma LeastIsUnique(mem: Memory, range: MemoryRange, tokens: seq<Token>, o: nat, p: nat)
    requires LeastMatch(mem, range, tokens, o) && LeastMatch(mem, range, tokens, p)
    ensures o == p
  {
  }

  lemma LeadIsUnique(mem: Memory, req: Request, m: u64, a: u64, b: u64)
    requires Leads(mem, req, m, a) && Leads(mem, req, m, b)
    ensures a == b
  {
  }

  /** The address that the least match leads to, if it leads anywhere. */
  ghost predicate LeastLeads(mem: Memory, range: MemoryRange, tokens: seq<Token>, req: Request, a: u64) {
    exists o: nat :: LeastMatch(mem, range, tokens, o) && Leads(mem, req, Place(range, o), a)
  }

  lemma LeastLeadIsUnique(mem: Memory, range: MemoryRange, tokens: seq<Token>, req: Request, a: u64, b: u64)
    requires LeastLeads(mem, range, tokens, req, a) && LeastLeads(mem, range, tokens, req, b)
    ensures a == b
  {
    var o: nat :| LeastMatch(mem, range, tokens, o) && Leads(mem, req, Place(range, o), a);
    var p: nat :| LeastMatch(mem, range, tokens, p) && Leads(mem, req, Place(range, p), b);
    LeastIsUnique(mem, range, tokens, o, p);
    LeadIsUnique(mem, req, Place(range, o), a, b);
  }

  lemma PassingLead(mem: Memory, range: MemoryRange, tokens: seq<Token>, req: Request, a: u64)
    requires Passes(mem, range, tokens, req) && LeastLeads(mem, range, tokens, req, a)
    ensures Rejects(req, a)
  {
    var o: nat :| LeastMatch(mem, range, tokens, o) && Leads(mem, req, Place(range, o), a);
    assert MatchAt(mem, range, tokens, o);
    var p: nat :| LeastMatch(mem, range, tokens, p) && LeadsToRejected(mem, req, Place(range, p));
    var b: u64 :| Leads(mem, req, Place(range, p), b) && Rejects(req, b);
    LeastLeadIsUnique(mem, range, tokens, req, a, b);
  }

  lemma BreakingLeadsNowhere(mem: Memory, range: MemoryRange, tokens: seq<Token>, req: Request, a: u64)
    requires Breaks(mem, range, tokens, req)
    ensures !LeastLeads(mem, range, tokens, req, a) && !Passes(mem, range, tokens, req)
  {
    var o: nat :| LeastMatch(mem, range, tokens, o) && LeadsNowhere(mem, req, Place(range, o));
    forall p: nat | LeastMatch(mem, range, tokens, p) ensures o == p {
      LeastIsUnique(mem, range, tokens, o, p);
    }
  }

  /** A range does only one of passing, breaking and answering, and answers one address. */
  lemma ContributionIsUnique(mem: Memory, range: MemoryRange, tokens: seq<Token>, req: Request, a: u64, b: u64)
    ensures !(Passes(mem, range, tokens, req) && Answers(mem, range, tokens, req, a))
    ensures !(Passes(mem, range, tokens, req) && Breaks(mem, range, tokens, req))
    ensures !(Breaks(mem, range, tokens, req) && Answers(mem, range, tokens, req, a))
    ensures Answers(mem, range, tokens, req, a) && Answers(mem, range, tokens, req, b) ==> a == b
  {
    if Breaks(mem, range, tokens, req) {
      BreakingLeadsNowhere(mem, range, tokens, req, a);
    }
    if Answers(mem, range, tokens, req, a) {
      assert LeastLeads(mem, range, tokens, req, a);
      if Passes(mem, range, tokens, req) {
        PassingLead(mem, range, tokens, req, a);
      }
      if Answers(mem, range, tokens, req, b) {
        assert LeastLeads(mem, range, tokens, req, b);
        LeastLeadIsUnique(mem, range, tokens, req, a, b);
      }
    }
  }

  lemma DecisionIsUnique(mem: Memory, ranges: seq<MemoryRange>, tokens: seq<Token>, req: Request,
                         i: nat, r: Result<Found, ResolveError>, i': nat, r': Result<Found, ResolveError>)
    requires Decides(mem, ranges, tokens, req, i, r) && Decides(mem, ranges, tokens, req, i', r')
    ensures r == r'
  {
    DecisionComesFirst(mem, ranges, tokens, req, i, r, i', r');
    DecisionComesFirst(mem, ranges, tokens, req, i', r', i, r);
    var a, b := if r.Success? then r.value.address else 0, if r'.Success? then r'.value.address else 0;
    if i < |ranges| {
      ContributionIsUnique(mem, ranges[i], tokens, req, a, b);
      ContributionIsUnique(mem, ranges[i], tokens, req, b, a);
    }
    if r.Success? && r'.Success? {
      MeasureIsUnique(r.value.statistics, r'.value.statistics, mem, ranges[..i + 1], tokens);
    }
    if r.Failure? && r.error.NotFound? && r'.Failure? {
      var s :| Measures(s, mem, ranges, tokens) && r.error.bytesScanned == s.bytesScanned;
      var s' :| Measures(s', mem, ranges, tokens) && r'.error.bytesScanned == s'.bytesScanned;
      MeasureIsUnique(s, s', mem, ranges, tokens);
    }
  }

  lemma DecisionComesFirst(mem: Memory, ranges: seq<MemoryRange>, tokens: seq<Token>, req: Request,
                           i: nat, r: Result<Found, ResolveError>, i': nat, r': Result<Found, ResolveError>)
    requires Decides(mem, ranges, tokens, req, i, r) && Decides(mem, ranges, tokens, req, i', r')
    ensures i >= i'
  {
    if i < i' {
      assert ranges[..i'][i] == ranges[i];
      ContributionIsUnique(mem, ranges[i], tokens, req, if r.Success? then r.value.address else 0, 0);
    }
  }

  lemma RefusalIsUnique(info: ModuleInfo, req: Request, e: ResolveError, e': ResolveError)
    ensures Refuses(info, req, e) && Refuses(info, req, e') ==> e == e'
  {
    EverySpellingIsRead(req.signature);
    if e.BadSignature? {
      MisreadsMeaning(req.signature, e.reason);
    }
    if e'.BadSignature? {
      MisreadsMeaning(req.signature, e'.reason);
    }
  }

  lemma RefusedIsNotScanned(image: Image, req: Request, e: ResolveError, tokens: seq<Token>, ranges: seq<MemoryRange>)
    ensures !(Refuses(image.info, req, e) && Reads(req.signature, tokens) && Searches(image.info, req, ranges))
  {
    EverySpellingIsRead(req.signature);
    if e.BadSignature? {
      MisreadsMeaning(req.signature, e.reason);
    }
  }

  lemma ScanIsUnique(image: Image, req: Request, tokens: seq<Token>, ranges: seq<MemoryRange>, i: nat,
                     r: Result<Found, ResolveError>, tokens': seq<Token>, ranges': seq<MemoryRange>, i': nat,
                     r': Result<Found, ResolveError>)
    ensures AnswersAt(image, req, tokens, ranges, i, r) && AnswersAt(image, req, tokens', ranges', i', r') ==> r == r'
  {
    if AnswersAt(image, req, tokens, ranges, i, r) && AnswersAt(image, req, tokens', ranges', i', r') {
      EverySpellingIsRead(req.signature);
      RangesAreUnique(image.info, req, ranges, ranges');
      DecisionIsUnique(image.mem, ranges, tokens, req, i, r, i', r');
    }
  }

  lemma AnswerIsUnique(image: Image, req: Request, r: Result<Found, ResolveError>, r': Result<Found, ResolveError>)
    ensures SearchAnswers(image, req, r) && SearchAnswers(image, req, r') ==> r == r'
  {
    if SearchAnswers(image, req, r) && SearchAnswers(image, req, r') {
      var refused, refused' := r.Failure? && Refuses(image.info, req, r.error),
                               r'.Failure? && Refuses(image.info, req, r'.error);
      if refused && refused' {
        RefusalIsUnique(image.info, req, r.error, r'.error);
      } else if refused {
        var tokens, ranges, i: nat :| AnswersAt(image, req, tokens, ranges, i, r');
        RefusedIsNotScanned(image, req, r.error, tokens, ranges);
      } else if refused' {
        var tokens, ranges, i: nat :| AnswersAt(image, req, tokens, ranges, i, r);
        RefusedIsNotScanned(image, req, r'.error, tokens, ranges);
      } else {
        var tokens, ranges, i: nat :| AnswersAt(image, req, tokens, ranges, i, r);
        var tokens', ranges', i': nat :| AnswersAt(image, req, tokens', ranges', i', r');
        ScanIsUnique(image, req, tokens, ranges, i, r, tokens', ranges', i', r');
      }
    }
  }

  /** The promise determines the answer: what a search promises, only its result keeps. */
  lemma SearchAnswersIff(image: Image, req: Request, r: Result<Found, ResolveError>)
    ensures SearchAnswers(image, req, r) <==> r == Search(image, req)
  {
    SearchMeaning(image, req);
    if SearchAnswers(image, req, r) {
      AnswerIsUnique(image, req, r, Search(image, req));
    }
  }
}
