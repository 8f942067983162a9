/** The simplest module, one readable section that fills its image, and the simplest requests: for the
    byte at a fixed distance from its start. What the real search answers to them is known, so they
    serve as inputs on which a finding shows. */
module OneSectionImage {
  import opened Wrappers
  import opened Machine
  import opened Pattern
  import opened Scanner
  import opened PatternSearch
  import opened BatchScanner

  function OneSection(name: string, base: u64, size: u64, fingerprint: u64): ModuleInfo {
    ModuleInfo(name, base, size, fingerprint, [Section(".text", MemoryRange(base, size), true, false, true)])
  }

  /** Any byte matches, so the first match is the start of the section. */
  function ByteAt(name: string, offset: i64): Request {
    Request(name, Render([Wildcard]), None, Any, AddOffset, offset, 0, 0, None)
  }

  predicate IsOneSection(info: ModuleInfo) {
    info.base > 0 && info.size > 0 && info == OneSection(info.name, info.base, info.size, info.fingerprint)
  }

  lemma FirstByteMatches(base: u64, size: u64, mem: Memory)
    requires base > 0 && size > 0
    ensures FirstMatch(MemoryRange(base, size), mem, [Wildcard]) == Some(0)
  {
    var r := MemoryRange(base, size);
    FirstMatchIsLeast(r, mem, [Wildcard]);
    assert MatchesAt(r.Bytes(mem), [Wildcard], 0);
  }

  lemma ByteAtVerdict(base: u64, size: u64, mem: Memory, name: string, offset: i64)
    requires base > 0 && size > 0 && 0 <= base + offset < TWO64
    ensures VerdictOf(mem, MemoryRange(base, size), [Wildcard], ByteAt(name, offset)) == Hit(base + offset)
  {
    FirstByteMatches(base, size, mem);
    OffsetTransformFindsTarget(mem, base, ByteAt(name, offset), base + offset);
  }

  lemma ByteAtSearch(image: Image, name: string, offset: i64)
    requires IsOneSection(image.info) && 0 <= image.info.base + offset < TWO64
    ensures var r := Search(image, ByteAt(name, offset));
            r.Success? && r.value.address == image.info.base + offset
  {
    RenderRoundTrip([Wildcard]);
    var info := image.info;
    var range := MemoryRange(info.base, info.size);
    assert info.sections[1..] == [] && SelectSections(info.sections, Any) == [range];
    ByteAtVerdict(info.base, info.size, image.mem, name, offset);
    SearchRangesMeaning(image.mem, [range], [Wildcard], ByteAt(name, offset), NO_STATS, 0);
  }

  /** A scan that answers these requests as the real search does. */
  ghost predicate FindsBytes(scan: Scan) {
    forall image, name, offset :: FindsByte(scan, image, name, offset)
  }

  ghost predicate FindsByte(scan: Scan, image: Image, name: string, offset: i64) {
    IsOneSection(image.info) && 0 <= image.info.base + offset < TWO64 ==>
      scan(image, ByteAt(name, offset)).Success? &&
      scan(image, ByteAt(name, offset)).value.address == image.info.base + offset
  }

  lemma SearchFindsBytes(scan: Scan)
    requires scan == Search
    ensures FindsBytes(scan)
  {
    forall image: Image, name, offset ensures FindsByte(scan, image, name, offset) {
      if IsOneSection(image.info) && 0 <= image.info.base + offset < TWO64 {
        ByteAtSearch(image, name, offset);
      }
    }
  }
}
