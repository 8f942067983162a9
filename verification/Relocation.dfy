/** Scanning is position independent: a module mapped elsewhere with the same bytes gives the
    same answer, moved with it. */
module Relocation {
  import opened Wrappers
  import opened Machine
  import opened Pattern
  import opened Scanner
  import opened PatternSearch
  import opened BatchScanner

  function Shifted(address: u64, shift: int): u64 {
    Wrap64(address + shift)
  }

  function ShiftedOption(a: Option<u64>, shift: int): Option<u64> {
    match a
    case None => None
    case Some(x) => Some(Shifted(x, shift))
  }

  /** The instruction does not wrap and none of its possible targets is the null address. */
  ghost predicate Placed(instruction: u64, size: u64) {
    && instruction > 0 && instruction + size <= TWO64
    && forall d: int :: -TWO31 <= d < TWO31 ==> RelativeTarget(instruction, size, d) != 0
  }

  /** A request in both mappings and the distance between them. */
  datatype Move = Move(mem1: Memory, req1: Request, mem2: Memory, req2: Request, shift: int) {
    /** The requests differ at most in their validators, which judge moved addresses alike. */
    ghost predicate SameRequest() {
      req2 == req1.(validator := req2.validator) &&
      forall a: u64 :: req2.Accepts(Shifted(a, shift)) == req1.Accepts(a)
    }

    /** The transform of a match at `a` moves too. */
    ghost predicate TransformMoves(a: u64) {
      ApplyTransform(mem2, Shifted(a, shift), req2) == ShiftedOption(ApplyTransform(mem1, a, req1), shift)
    }

    /** The instruction that a match at `a` leads to has the same bytes in both mappings, and both
        copies are properly placed. */
    ghost predicate OperandPlaced(a: u64) {
      var size, i1 := req1.instructionSize, Wrap64(a + req1.offset);
      var i2 := Shifted(i1, shift);
      Placed(i1, size) && Placed(i2, size) && ReadBytes(mem1, i1, size) == ReadBytes(mem2, i2, size)
    }

    /** Only a relative operand asks for anything, and only at the first match of the range. */
    ghost predicate MatchPlaced(r1: MemoryRange, tokens: seq<Token>) {
      req1.transform == ResolveRelative32 && FirstMatch(r1, mem1, tokens).Some? ==>
        OperandPlaced(r1.At(FirstMatch(r1, mem1, tokens).value))
    }

    ghost predicate MatchesPlaced(info1: ModuleInfo) {
      TokensOf(req1.signature).Success? && RangesOf(info1, req1).Success? ==>
        forall i :: 0 <= i < |RangesOf(info1, req1).value| ==>
          MatchPlaced(RangesOf(info1, req1).value[i], TokensOf(req1.signature).value)
    }

    /** The same bytes at a shifted place. */
    ghost predicate RangeMoved(r1: MemoryRange, r2: MemoryRange) {
      && r2.size == r1.size && r2.begin == r1.begin + shift && (r1.begin == 0 <==> r2.begin == 0)
      && r1.Bytes(mem1) == r2.Bytes(mem2)
    }

    ghost predicate SectionsMoved(s1: seq<Section>, s2: seq<Section>) {
      |s1| == |s2| && forall i :: 0 <= i < |s1| ==>
        s2[i] == s1[i].(range := s2[i].range) && RangeMoved(s1[i].range, s2[i].range)
    }

    ghost predicate RangesMoved(rs1: seq<MemoryRange>, rs2: seq<MemoryRange>) {
      |rs1| == |rs2| && forall i :: 0 <= i < |rs1| ==> RangeMoved(rs1[i], rs2[i])
    }
  }

  // ---------- transforms move ----------

  lemma ShiftCommutes(a: u64, shift: int, offset: int)
    ensures Wrap64(Shifted(a, shift) + offset) == Shifted(Wrap64(a + offset), shift)
  {
    WrapAdd(a + shift, offset);
    WrapAdd(a + offset, shift);
  }

  /** Matches and fixed offsets move whatever the memory holds. */
  lemma PlainTransformMoves(m: Move, a: u64)
    requires m.SameRequest() && m.req1.transform != ResolveRelative32
    ensures m.TransformMoves(a)
  {
    ShiftCommutes(a, m.shift, m.req1.offset);
  }

  lemma FieldBytesMove(mem1: Memory, mem2: Memory, i1: u64, i2: u64, size: u64, d: int)
    requires i1 + size <= TWO64 && i2 + size <= TWO64 && 0 <= d && d + 4 <= size
    requires ReadBytes(mem1, i1, size) == ReadBytes(mem2, i2, size)
    ensures ReadBytes(mem1, i1 + d, 4) == ReadBytes(mem2, i2 + d, 4)
  {
    var b1, b2 := ReadBytes(mem1, i1 + d, 4), ReadBytes(mem2, i2 + d, 4);
    forall k | 0 <= k < 4 ensures b1[k] == b2[k] {
      assert ReadBytes(mem1, i1, size)[d + k] == ReadBytes(mem2, i2, size)[d + k];
    }
  }

  lemma FieldInside(instruction: u64, size: u64, offset: i64)
    requires instruction > 0 && instruction + size <= TWO64
    ensures var d: int := Wrap64(offset);
            MemoryRange(instruction, size).Contains(Wrap64(instruction + offset), 4) <==> d + 4 <= size
    ensures Wrap64(offset) + 4 <= size ==> Wrap64(instruction + offset) == instruction + Wrap64(offset)
  {
    var d: int := Wrap64(offset);
    assert Wrap64(instruction + offset) == if instruction + d < TWO64 then instruction + d else instruction + d - TWO64;
    ContainsIsInterval(MemoryRange(instruction, size), Wrap64(instruction + offset), 4);
  }

  lemma RelativeOperandValue(mem: Memory, instruction: u64, offset: i64, size: u64)
    requires instruction > 0 && instruction + size <= TWO64
    ensures var d: int := Wrap64(offset);
            RelativeOperand(mem, instruction, offset, size) ==
            if d + 4 > size then None
            else
              var target := RelativeTarget(instruction, size, DecodeInt32(ReadBytes(mem, instruction + d, 4)));
              if target == 0 then None else Some(target)
  {
    FieldInside(instruction, size, offset);
  }

  lemma TargetMoves(i1: u64, shift: int, size: u64, d: int)
    ensures RelativeTarget(Shifted(i1, shift), size, d) == Shifted(RelativeTarget(i1, size, d), shift)
  {
  }

  /** Relative operands move when the instruction bytes are the same in both mappings and both
      copies are properly placed. */
  lemma RelativeOperandMoves(mem1: Memory, mem2: Memory, i1: u64, shift: int, offset: i64, size: u64)
    requires Placed(i1, size) && Placed(Shifted(i1, shift), size)
    requires ReadBytes(mem1, i1, size) == ReadBytes(mem2, Shifted(i1, shift), size)
    ensures RelativeOperand(mem2, Shifted(i1, shift), offset, size) ==
            ShiftedOption(RelativeOperand(mem1, i1, offset, size), shift)
  {
    var i2 := Shifted(i1, shift);
    var d: int := Wrap64(offset);
    RelativeOperandValue(mem1, i1, offset, size);
    RelativeOperandValue(mem2, i2, offset, size);
    if d + 4 <= size {
      var bytes := ReadBytes(mem1, i1 + d, 4);
      FieldBytesMove(mem1, mem2, i1, i2, size, d);
      TargetMoves(i1, shift, size, DecodeInt32(bytes));
    }
  }

  /** Relative operands move with placed instructions. */
  lemma RelativeTransformMoves(m: Move, a: u64)
    requires m.SameRequest() && m.req1.transform == ResolveRelative32 && m.OperandPlaced(a)
    ensures m.TransformMoves(a)
  {
    var req := m.req1;
    ShiftCommutes(a, m.shift, req.offset);
    RelativeOperandMoves(m.mem1, m.mem2, Wrap64(a + req.offset), m.shift, req.displacementOffset, req.instructionSize);
  }

  // ---------- searches move ----------

  lemma SameBytesSameMatch(r1: MemoryRange, mem1: Memory, r2: MemoryRange, mem2: Memory, tokens: seq<Token>)
    requires r1.size == r2.size && (r1.begin == 0 <==> r2.begin == 0) && r1.Bytes(mem1) == r2.Bytes(mem2)
    ensures FirstMatch(r2, mem2, tokens) == FirstMatch(r1, mem1, tokens)
    ensures ScanStatistics(r2, r2.Bytes(mem2), tokens, 1) == ScanStatistics(r1, r1.Bytes(mem1), tokens, 1)
  {
  }

  lemma PlaceShifts(r1: MemoryRange, r2: MemoryRange, shift: int, o: nat)
    requires r2.begin == r1.begin + shift
    ensures r2.At(o) == Shifted(r1.At(o), shift)
  {
    WrapAdd(r1.begin + o, shift);
  }

  /** What the first match of a range leads to moves. */
  lemma MatchMoves(m: Move, r1: MemoryRange, tokens: seq<Token>)
    requires m.SameRequest() && m.MatchPlaced(r1, tokens) && FirstMatch(r1, m.mem1, tokens).Some?
    ensures m.TransformMoves(r1.At(FirstMatch(r1, m.mem1, tokens).value))
  {
    var a := r1.At(FirstMatch(r1, m.mem1, tokens).value);
    if m.req1.transform == ResolveRelative32 {
      RelativeTransformMoves(m, a);
    } else {
      PlainTransformMoves(m, a);
    }
  }

  lemma VerdictMoves(m: Move, r1: MemoryRange, r2: MemoryRange, tokens: seq<Token>)
    requires m.SameRequest() && m.RangeMoved(r1, r2) && m.MatchPlaced(r1, tokens)
    ensures VerdictOf(m.mem2, r2, tokens, m.req2) ==
            match VerdictOf(m.mem1, r1, tokens, m.req1)
            case Hit(a) => Hit(Shifted(a, m.shift))
            case other => other
    ensures ScanStatistics(r2, r2.Bytes(m.mem2), tokens, 1) == ScanStatistics(r1, r1.Bytes(m.mem1), tokens, 1)
  {
    SameBytesSameMatch(r1, m.mem1, r2, m.mem2, tokens);
    if FirstMatch(r1, m.mem1, tokens).Some? {
      MatchMoves(m, r1, tokens);
      PlaceShifts(r1, r2, m.shift, FirstMatch(r1, m.mem1, tokens).value);
    }
  }

  ghost predicate AnswerMoved(r1: Result<Found, ResolveError>, r2: Result<Found, ResolveError>, shift: int) {
    match (r1, r2)
    case (Success(a), Success(b)) => b == Found(Shifted(a.address, shift), a.statistics)
    case (Failure(e), Failure(f)) => e == f
    case _ => false
  }

  lemma {:induction false} SearchRangesMoves(m: Move, rs1: seq<MemoryRange>, rs2: seq<MemoryRange>,
                                             tokens: seq<Token>, seen: ScanStats)
    requires m.SameRequest() && m.RangesMoved(rs1, rs2)
    requires forall i :: 0 <= i < |rs1| ==> m.MatchPlaced(rs1[i], tokens)
    ensures AnswerMoved(SearchRanges(m.mem1, rs1, tokens, m.req1, seen),
                        SearchRanges(m.mem2, rs2, tokens, m.req2, seen), m.shift)
    decreases rs1
  {
    if rs1 != [] {
      VerdictMoves(m, rs1[0], rs2[0], tokens);
      SearchRangesMoves(m, rs1[1..], rs2[1..], tokens,
                        seen.Plus(ScanStatistics(rs1[0], rs1[0].Bytes(m.mem1), tokens, 1)));
    }
  }

  lemma RangesAppend(m: Move, a1: seq<MemoryRange>, a2: seq<MemoryRange>, b1: seq<MemoryRange>, b2: seq<MemoryRange>)
    requires m.RangesMoved(a1, a2) && m.RangesMoved(b1, b2)
    ensures m.RangesMoved(a1 + b1, a2 + b2)
  {
    forall i | 0 <= i < |a1 + b1| ensures m.RangeMoved((a1 + b1)[i], (a2 + b2)[i]) {
      if i >= |a1| {
        assert m.RangeMoved(b1[i - |a1|], b2[i - |a1|]);
      }
    }
  }

  lemma {:induction false} SelectionMoves(m: Move, s1: seq<Section>, s2: seq<Section>, access: SectionAccess)
    requires m.SectionsMoved(s1, s2)
    ensures m.RangesMoved(SelectSections(s1, access), SelectSections(s2, access))
    decreases s1
  {
    if s1 != [] {
      SelectionMoves(m, s1[1..], s2[1..], access);
      var chosen := Selected(s1[0], access) && !s1[0].range.Empty();
      RangesAppend(m, if chosen then [s1[0].range] else [], if chosen then [s2[0].range] else [],
                   SelectSections(s1[1..], access), SelectSections(s2[1..], access));
    }
  }

  lemma {:induction false} FindingMoves(m: Move, s1: seq<Section>, s2: seq<Section>, name: string)
    requires m.SectionsMoved(s1, s2)
    ensures match (FindSection(s1, name), FindSection(s2, name))
            case (None, None) => true
            case (Some(r1), Some(r2)) => m.RangeMoved(r1, r2)
            case _ => false
    decreases s1
  {
    if s1 != [] && s1[0].name != name {
      FindingMoves(m, s1[1..], s2[1..], name);
    }
  }

  /** The whole search moves with the module: same failure, or the same address moved. */
  lemma SearchMoves(m: Move, info1: ModuleInfo, info2: ModuleInfo)
    requires m.SameRequest() && m.SectionsMoved(info1.sections, info2.sections) && m.MatchesPlaced(info1)
    ensures AnswerMoved(Search(Image(info1, m.mem1), m.req1), Search(Image(info2, m.mem2), m.req2), m.shift)
  {
    var s1, s2 := info1.sections, info2.sections;
    if TokensOf(m.req1.signature).Success? {
      var tokens := TokensOf(m.req1.signature).value;
      if m.req1.section.None? {
        SelectionMoves(m, s1, s2, m.req1.access);
        SearchRangesMoves(m, SelectSections(s1, m.req1.access), SelectSections(s2, m.req1.access), tokens, NO_STATS);
      } else {
        FindingMoves(m, s1, s2, m.req1.section.value);
        if FindSection(s1, m.req1.section.value).Some? {
          SearchRangesMoves(m, [FindSection(s1, m.req1.section.value).value],
                            [FindSection(s2, m.req1.section.value).value], tokens, NO_STATS);
        }
      }
    }
  }

  /** A scan that moves with the module, whatever the request and the images. */
  ghost predicate PositionIndependent(scan: Scan) {
    forall m, info1, info2 :: MovesWith(scan, m, info1, info2)
  }

  ghost predicate MovesWith(scan: Scan, m: Move, info1: ModuleInfo, info2: ModuleInfo) {
    m.SameRequest() && m.SectionsMoved(info1.sections, info2.sections) && m.MatchesPlaced(info1) ==>
      AnswerMoved(scan(Image(info1, m.mem1), m.req1), scan(Image(info2, m.mem2), m.req2), m.shift)
  }

  lemma SearchIsPositionIndependent(scan: Scan)
    requires scan == Search
    ensures PositionIndependent(scan)
  {
    forall m: Move, info1, info2 ensures MovesWith(scan, m, info1, info2) {
      if m.SameRequest() && m.SectionsMoved(info1.sections, info2.sections) && m.MatchesPlaced(info1) {
        SearchMoves(m, info1, info2);
      }
    }
  }

  // ---------- placement, from the section bytes alone ----------

  /** At least 2 GiB from either end of the address space. */
  predicate Roomy(r: MemoryRange) {
    TWO31 < r.begin && r.begin + r.size + TWO31 < TWO64
  }

  lemma RoomyIsPlaced(r: MemoryRange, instruction: u64, size: u64)
    requires Roomy(r) && r.begin <= instruction && instruction + size <= r.begin + r.size
    ensures Placed(instruction, size)
  {
  }

  lemma InnerBytes(mem: Memory, r: MemoryRange, at: u64, k: nat)
    requires Roomy(r) && r.begin <= at && at + k < r.begin + r.size
    ensures mem(Wrap64(at + k)) == r.Bytes(mem)[at + k - r.begin]
  {
  }

  /** An instruction inside a moved range needs no further condition. */
  lemma InsideRangeIsPlaced(m: Move, r1: MemoryRange, r2: MemoryRange, a: u64)
    requires m.RangeMoved(r1, r2) && Roomy(r1) && Roomy(r2)
    requires var i1 := Wrap64(a + m.req1.offset); r1.begin <= i1 && i1 + m.req1.instructionSize <= r1.begin + r1.size
    ensures m.OperandPlaced(a)
  {
    var size, i1 := m.req1.instructionSize, Wrap64(a + m.req1.offset);
    var i2 := Shifted(i1, m.shift);
    assert i2 == i1 + m.shift;
    RoomyIsPlaced(r1, i1, size);
    RoomyIsPlaced(r2, i2, size);
    var b1, b2 := ReadBytes(m.mem1, i1, size), ReadBytes(m.mem2, i2, size);
    forall k | 0 <= k < size ensures b1[k] == b2[k] {
      InnerBytes(m.mem1, r1, i1, k);
      InnerBytes(m.mem2, r2, i2, k);
    }
  }
}
