/** Script globals: blocks of 32-bit slot indices mapped to memory, eight bytes a slot. */
module ScriptGlobals {
  import opened Wrappers
  import opened Machine

  datatype Block = Block(firstIndex: u32, slotCount: u32, base: u64) {
    predicate Contains(index: u32) {
      index >= firstIndex && index - firstIndex < slotCount
    }
  }

  datatype ConfigureError = NoFingerprint | InvalidBlock | RangeOverflow | Overlap

  datatype ResolveError = NoManager | NotConfigured | OutsideBlocks(index: u32)

  const MAX_U32: int := 0xFFFF_FFFF

  // ---------- what a configuration must be ----------

  predicate ValidBlock(b: Block) {
    b.slotCount != 0 && b.base != 0 && b.firstIndex <= MAX_U32 - b.slotCount
  }

  predicate Disjoint(a: Block, b: Block) {
    a.firstIndex + a.slotCount <= b.firstIndex || b.firstIndex + b.slotCount <= a.firstIndex
  }

  ghost predicate PairwiseDisjoint(blocks: seq<Block>) {
    forall i, j :: 0 <= i < j < |blocks| ==> Disjoint(blocks[i], blocks[j])
  }

  ghost predicate Acceptable(blocks: seq<Block>, fingerprint: u64) {
    && fingerprint != 0
    && (forall i :: 0 <= i < |blocks| ==> ValidBlock(blocks[i]))
    && PairwiseDisjoint(blocks)
  }

  ghost predicate Sorted(blocks: seq<Block>) {
    forall i, j :: 0 <= i < j < |blocks| ==> blocks[i].firstIndex <= blocks[j].firstIndex
  }

  ghost predicate AdjacentApart(blocks: seq<Block>) {
    forall i :: 0 < i < |blocks| ==> blocks[i - 1].firstIndex + blocks[i - 1].slotCount <= blocks[i].firstIndex
  }

  lemma {:induction false} AdjacentReaches(blocks: seq<Block>, i: nat, j: nat)
    requires AdjacentApart(blocks) && i < j < |blocks|
    ensures blocks[i].firstIndex + blocks[i].slotCount <= blocks[j].firstIndex
    decreases j
  {
    if i < j - 1 {
      AdjacentReaches(blocks, i, j - 1);
    }
  }

  /** After sorting, checking neighbours is as good as checking all pairs. */
  lemma AdjacentSuffices(blocks: seq<Block>)
    requires Sorted(blocks) && forall i :: 0 <= i < |blocks| ==> ValidBlock(blocks[i])
    ensures AdjacentApart(blocks) <==> PairwiseDisjoint(blocks)
  {
    if AdjacentApart(blocks) {
      forall i, j | 0 <= i < j < |blocks| ensures Disjoint(blocks[i], blocks[j]) {
        AdjacentReaches(blocks, i, j);
      }
    }
    if PairwiseDisjoint(blocks) {
      forall i | 0 < i < |blocks| ensures blocks[i - 1].firstIndex + blocks[i - 1].slotCount <= blocks[i].firstIndex {
        assert Disjoint(blocks[i - 1], blocks[i]) && ValidBlock(blocks[i]);
      }
    }
  }

  // ---------- permutations ----------

  lemma Reordered(a: seq<Block>, b: seq<Block>)
    requires multiset(a) == multiset(b)
    ensures |a| == |b| && forall x :: x in a <==> x in b
  {
    assert |multiset(a)| == |a| && |multiset(b)| == |b|;
    forall x ensures x in a <==> x in b {
      assert x in a <==> x in multiset(a);
      assert x in b <==> x in multiset(b);
    }
  }

  /** Disjointness with no order in it: no block twice, and different blocks apart. */
  ghost predicate DisjointBag(m: multiset<Block>) {
    && (forall x :: x in m ==> m[x] == 1)
    && (forall x, y :: x in m && y in m && x != y ==> Disjoint(x, y))
  }

  lemma {:induction false} DistinctCountsOnce(blocks: seq<Block>, x: Block)
    requires forall i, j :: 0 <= i < j < |blocks| ==> blocks[i] != blocks[j]
    requires x in blocks
    ensures multiset(blocks)[x] == 1
  {
    var last := |blocks| - 1;
    assert blocks == blocks[..last] + [blocks[last]];
    if blocks[last] != x {
      DistinctCountsOnce(blocks[..last], x);
    }
  }

  lemma RepeatCountsTwice(blocks: seq<Block>, i: nat, j: nat)
    requires i < j < |blocks| && blocks[i] == blocks[j]
    ensures multiset(blocks)[blocks[j]] >= 2
  {
    var x := blocks[j];
    assert blocks == blocks[..j] + ([x] + blocks[j + 1..]);
    assert x in blocks[..j] by {
      assert blocks[..j][i] == x;
    }
    assert multiset(blocks) == multiset(blocks[..j]) + multiset([x] + blocks[j + 1..]);
  }

  /** A valid block is never disjoint from itself, so disjointness is a property of the bag. */
  lemma DisjointnessOfTheBag(blocks: seq<Block>)
    requires forall i :: 0 <= i < |blocks| ==> ValidBlock(blocks[i])
    ensures PairwiseDisjoint(blocks) <==> DisjointBag(multiset(blocks))
  {
    if PairwiseDisjoint(blocks) {
      forall x | x in multiset(blocks) ensures multiset(blocks)[x] == 1 {
        DistinctCountsOnce(blocks, x);
      }
      forall x, y | x in multiset(blocks) && y in multiset(blocks) && x != y ensures Disjoint(x, y) {
        var i :| 0 <= i < |blocks| && blocks[i] == x;
        var j :| 0 <= j < |blocks| && blocks[j] == y;
        var low, high := if i < j then i else j, if i < j then j else i;
        assert Disjoint(blocks[low], blocks[high]);
      }
    }
    if DisjointBag(multiset(blocks)) {
      forall i, j | 0 <= i < j < |blocks| ensures Disjoint(blocks[i], blocks[j]) {
        if blocks[i] == blocks[j] {
          RepeatCountsTwice(blocks, i, j);
        }
        assert blocks[i] in multiset(blocks) && blocks[j] in multiset(blocks);
      }
    }
  }

  lemma ValidUnderReordering(a: seq<Block>, b: seq<Block>)
    requires multiset(a) == multiset(b) && forall i :: 0 <= i < |a| ==> ValidBlock(a[i])
    ensures forall i :: 0 <= i < |b| ==> ValidBlock(b[i])
  {
    Reordered(a, b);
    forall i | 0 <= i < |b| ensures ValidBlock(b[i]) {
      assert b[i] in b;
    }
  }

  /** Acceptability does not depend on the order the blocks come in. */
  lemma AcceptableUnderReordering(a: seq<Block>, b: seq<Block>, fingerprint: u64)
    requires multiset(a) == multiset(b)
    ensures Acceptable(a, fingerprint) ==> Acceptable(b, fingerprint)
  {
    if Acceptable(a, fingerprint) {
      ValidUnderReordering(a, b);
      DisjointnessOfTheBag(a);
      DisjointnessOfTheBag(b);
    }
  }

  // ---------- resolving ----------

  function SlotAddress(b: Block, index: u32): u64
    requires b.Contains(index)
  {
    Wrap64(b.base + 8 * (index - b.firstIndex))
  }

  function FindBlock(blocks: seq<Block>, index: u32): (r: Option<Block>)
    ensures r.Some? ==> r.value in blocks && r.value.Contains(index)
  {
    if blocks == [] then None
    else if blocks[0].Contains(index) then Some(blocks[0])
    else FindBlock(blocks[1..], index)
  }

  lemma {:induction false} FindBlockMeaning(blocks: seq<Block>, index: u32)
    ensures match FindBlock(blocks, index)
            case Some(b) => b in blocks && b.Contains(index)
            case None => forall b :: b in blocks ==> !b.Contains(index)
  {
    if blocks != [] {
      FindBlockMeaning(blocks[1..], index);
      assert blocks == [blocks[0]] + blocks[1..];
    }
  }

  function Resolved(blocks: seq<Block>, fingerprint: u64, index: u32): Result<u64, ResolveError> {
    if fingerprint == 0 then Failure(NotConfigured)
    else match FindBlock(blocks, index)
      case None => Failure(OutsideBlocks(index))
      case Some(b) => Success(SlotAddress(b, index))
  }

  lemma OneHolder(blocks: seq<Block>, index: u32, i: nat, j: nat)
    requires PairwiseDisjoint(blocks) && i < |blocks| && j < |blocks|
    requires blocks[i].Contains(index) && blocks[j].Contains(index)
    ensures i == j
  {
  }

  /** At most one block holds an index, so whichever block holds it gives the answer. */
  lemma ResolvedByTheBlock(blocks: seq<Block>, fingerprint: u64, index: u32, b: Block)
    requires Acceptable(blocks, fingerprint) && b in blocks && b.Contains(index)
    ensures Resolved(blocks, fingerprint, index) == Success(SlotAddress(b, index))
    ensures forall c :: c in blocks && c.Contains(index) ==> c == b
  {
    FindBlockMeaning(blocks, index);
    forall c | c in blocks && c.Contains(index) ensures c == b {
      var i :| 0 <= i < |blocks| && blocks[i] == b;
      var j :| 0 <= j < |blocks| && blocks[j] == c;
      OneHolder(blocks, index, i, j);
    }
  }

  /** Resolution does not depend on the order the blocks were given in. */
  lemma ResolvedUnderReordering(a: seq<Block>, b: seq<Block>, fingerprint: u64, index: u32)
    requires multiset(a) == multiset(b) && Acceptable(a, fingerprint)
    ensures Resolved(a, fingerprint, index) == Resolved(b, fingerprint, index)
  {
    Reordered(a, b);
    AcceptableUnderReordering(a, b, fingerprint);
    FindBlockMeaning(a, index);
    FindBlockMeaning(b, index);
    if FindBlock(a, index).Some? {
      ResolvedByTheBlock(b, fingerprint, index, FindBlock(a, index).value);
    }
  }

  /** The first index of a block is its base. */
  lemma FirstSlotIsBase(blocks: seq<Block>, fingerprint: u64, b: Block)
    requires Acceptable(blocks, fingerprint) && b in blocks
    ensures Resolved(blocks, fingerprint, b.firstIndex) == Success(b.base)
  {
    var i :| 0 <= i < |blocks| && blocks[i] == b;
    assert ValidBlock(blocks[i]);
    ResolvedByTheBlock(blocks, fingerprint, b.firstIndex, b);
  }

  /** Neighbouring indices of one block are eight bytes apart. */
  lemma SlotsAreEightApart(blocks: seq<Block>, fingerprint: u64, b: Block, index: u32)
    requires Acceptable(blocks, fingerprint) && b in blocks
    requires b.Contains(index) && index < MAX_U32 && b.Contains(index + 1)
    ensures Resolved(blocks, fingerprint, index).Success? && Resolved(blocks, fingerprint, index + 1).Success?
    ensures Resolved(blocks, fingerprint, index + 1).value == Wrap64(Resolved(blocks, fingerprint, index).value + 8)
  {
    ResolvedByTheBlock(blocks, fingerprint, index, b);
    ResolvedByTheBlock(blocks, fingerprint, index + 1, b);
    WrapAdd(b.base + 8 * (index - b.firstIndex), 8);
  }

  lemma InsertionKeepsOrder(sorted: seq<Block>, k: nat, b: Block)
    requires Sorted(sorted) && k <= |sorted|
    requires forall j :: 0 <= j < k ==> sorted[j].firstIndex <= b.firstIndex
    requires k < |sorted| ==> b.firstIndex <= sorted[k].firstIndex
    ensures Sorted(sorted[..k] + ([b] + sorted[k..]))
  {
  }

  lemma InsertionAddsOne(sorted: seq<Block>, k: nat, b: Block)
    requires k <= |sorted|
    ensures multiset(sorted[..k] + ([b] + sorted[k..])) == multiset(sorted) + multiset{b}
  {
    assert sorted == sorted[..k] + sorted[k..];
  }

  /** No slots, no base, or a last index past 32 bits. */
  predicate BadBlock(b: Block) {
    b.slotCount == 0 || b.base == 0 || b.firstIndex + b.slotCount > MAX_U32
  }

  ghost predicate FirstBad(blocks: seq<Block>, i: nat) {
    i < |blocks| && BadBlock(blocks[i]) && forall j :: 0 <= j < i ==> !BadBlock(blocks[j])
  }

  predicate HoldsIndex(b: Block, index: u32) {
    b.firstIndex <= index < b.firstIndex + b.slotCount
  }

  ghost predicate FirstHolder(blocks: seq<Block>, index: u32, i: nat) {
    i < |blocks| && HoldsIndex(blocks[i], index) && forall j :: 0 <= j < i ==> !HoldsIndex(blocks[j], index)
  }

  // ---------- the manager ----------

  class ScriptGlobalManager {
    var blocks: seq<Block>
    var buildFingerprint: u64

    ghost predicate Valid()
      reads this
    {
      buildFingerprint != 0 ==> Acceptable(blocks, buildFingerprint)
    }

    constructor ()
      ensures Valid() && blocks == [] && buildFingerprint == 0
    {
      blocks, buildFingerprint := [], 0;
    }

    /** Succeeds exactly on acceptable input; failure changes nothing. */
    method Configure(input: seq<Block>, fingerprint: u64) returns (failure: Option<ConfigureError>)
      requires Valid()
      modifies this
      ensures Valid()
      ensures failure.None? <==> Acceptable(input, fingerprint)
      ensures failure.None? ==> multiset(blocks) == multiset(input) && buildFingerprint == fingerprint
      ensures failure.Some? ==> blocks == old(blocks) && buildFingerprint == old(buildFingerprint)
      ensures fingerprint == 0 <==> failure == Some(NoFingerprint)
      ensures fingerprint != 0 ==> forall i: nat :: FirstBad(input, i) ==>
                failure == Some(if input[i].slotCount == 0 || input[i].base == 0 then InvalidBlock else RangeOverflow)
      ensures fingerprint != 0 && (forall i :: 0 <= i < |input| ==> !BadBlock(input[i])) && failure.Some? ==>
                failure == Some(Overlap)
    {
      if fingerprint == 0 {
        return Some(NoFingerprint);
      }
      for i := 0 to |input|
        invariant forall j :: 0 <= j < i ==> ValidBlock(input[j]) && !BadBlock(input[j])
      {
        if input[i].slotCount == 0 || input[i].base == 0 {
          return Some(InvalidBlock);
        }
        if input[i].firstIndex > MAX_U32 - input[i].slotCount {
          return Some(RangeOverflow);
        }
      }
      var sorted := SortByFirstIndex(input);
      Reordered(input, sorted);
      forall i | 0 <= i < |sorted| ensures ValidBlock(sorted[i]) {
        assert sorted[i] in input;
      }
      AdjacentSuffices(sorted);
      AcceptableUnderReordering(input, sorted, fingerprint);
      AcceptableUnderReordering(sorted, input, fingerprint);
      var i := 1;
      while i < |sorted|
        invariant 1 <= i
        invariant forall j :: 0 < j < i && j < |sorted| ==>
                    sorted[j - 1].firstIndex + sorted[j - 1].slotCount <= sorted[j].firstIndex
      {
        if sorted[i - 1].firstIndex + sorted[i - 1].slotCount > sorted[i].firstIndex {
          return Some(Overlap);
        }
        i := i + 1;
      }
      blocks := sorted;
      buildFingerprint := fingerprint;
      return None;
    }

    /** Any sort by first index: equal keys may come out in either order. */
    static method SortByFirstIndex(input: seq<Block>) returns (sorted: seq<Block>)
      ensures multiset(sorted) == multiset(input) && Sorted(sorted)
    {
      sorted := [];
      for i := 0 to |input|
        invariant multiset(sorted) == multiset(input[..i]) && Sorted(sorted)
      {
        sorted := InsertSorted(sorted, input[i]);
        assert input[..i + 1] == input[..i] + [input[i]];
      }
      assert input[..|input|] == input;
    }

    static method InsertSorted(sorted: seq<Block>, b: Block) returns (r: seq<Block>)
      requires Sorted(sorted)
      ensures multiset(r) == multiset(sorted) + multiset{b} && Sorted(r)
    {
      var k := 0;
      while k < |sorted| && sorted[k].firstIndex <= b.firstIndex
        invariant k <= |sorted|
        invariant forall j :: 0 <= j < k ==> sorted[j].firstIndex <= b.firstIndex
      {
        k := k + 1;
      }
      r := sorted[..k] + ([b] + sorted[k..]);
      InsertionKeepsOrder(sorted, k, b);
      InsertionAddsOne(sorted, k, b);
    }

    method Clear()
      modifies this
      ensures Valid() && blocks == [] && buildFingerprint == 0
    {
      blocks, buildFingerprint := [], 0;
    }

    method Resolve(index: u32) returns (r: Result<u64, ResolveError>)
      ensures r == Resolved(blocks, buildFingerprint, index)
      ensures buildFingerprint == 0 ==> r == Failure(NotConfigured)
      ensures buildFingerprint != 0 && (forall i :: 0 <= i < |blocks| ==> !HoldsIndex(blocks[i], index)) ==>
                r == Failure(OutsideBlocks(index))
      ensures buildFingerprint != 0 ==> forall i: nat :: FirstHolder(blocks, index, i) ==>
                r == Success((blocks[i].base + 8 * (index - blocks[i].firstIndex)) % TWO64)
    {
      if buildFingerprint == 0 {
        return Failure(NotConfigured);
      }
      assert blocks[0..] == blocks;
      for i := 0 to |blocks|
        invariant FindBlock(blocks, index) == FindBlock(blocks[i..], index)
        invariant forall j :: 0 <= j < i ==> !HoldsIndex(blocks[j], index)
      {
        assert blocks[i..][1..] == blocks[i + 1..];
        if blocks[i].Contains(index) {
          return Success(Wrap64(blocks[i].base + 8 * (index - blocks[i].firstIndex)));
        }
      }
      return Failure(OutsideBlocks(index));
    }
  }

  // ---------- handles ----------

  /** A handle: the manager it belongs to, if any, and an index. */
  datatype ScriptGlobal = ScriptGlobal(hasManager: bool, index: u32)

  const NO_GLOBAL := ScriptGlobal(false, 0)

  /** `At`: null below index zero, truncated to 32 bits above. */
  function At(g: ScriptGlobal, offset: i64): ScriptGlobal {
    if g.index + offset < 0 then NO_GLOBAL
    else ScriptGlobal(g.hasManager, (g.index + offset) % TWO32)
  }

  /** Whether the first hop loses what the second would need: it falls below zero while the
      whole trip does not, or wraps past 32 bits so far that the second hop falls below zero. A
      handle without a manager has no manager to lose, only an index other than zero. */
  predicate HopLoses(g: ScriptGlobal, a: i64, b: i64) {
    var whole: int := g.index + a + b;
    if g.index + a < 0 then
      if whole < 0 then b >= 0 && b % TWO32 != 0
      else g.hasManager || (g.index + a) % TWO32 != 0
    else (g.index + a) % TWO32 + b < 0 <= whole && (g.hasManager || whole % TWO32 != 0)
  }

  /** Two hops are one hop of the sum exactly when the first loses nothing; in particular always
      when the index reached in between is a 32-bit index. */
  lemma HopsComposeIff(g: ScriptGlobal, a: i64, b: i64)
    requires -TWO63 <= a + b < TWO63
    ensures At(At(g, a), b) == At(g, a + b) <==> !HopLoses(g, a, b)
    ensures 0 <= g.index + a <= MAX_U32 ==> At(At(g, a), b) == At(g, a + b)
  {
  }

  /** Down below zero and back is not the direct hop: the manager is lost on the way. */
  lemma HopsThroughZeroLoseTheManager()
    ensures HopLoses(ScriptGlobal(true, 5), -6, 1)
    ensures At(At(ScriptGlobal(true, 5), -6), 1) == ScriptGlobal(false, 1)
    ensures At(ScriptGlobal(true, 5), -5) == ScriptGlobal(true, 0)
  {
  }

  /** The index a hop lands on, if it does not fall below zero. */
  function Landing(g: ScriptGlobal, a: i64): Option<u32> {
    if g.index + a < 0 then None else Some((g.index + a) % TWO32)
  }

  /** Two hops from one handle meet exactly when both fall below zero or neither does and they are a
      multiple of 2^32 apart; from a handle without a manager also when one falls below zero and the
      other lands on index zero. */
  lemma HopsMeetIff(g: ScriptGlobal, a: i64, b: i64)
    ensures At(g, a) == At(g, b) <==>
            || (g.index + a < 0 && g.index + b < 0)
            || (g.index + a >= 0 && g.index + b >= 0 && (a - b) % TWO32 == 0)
            || (!g.hasManager && (Landing(g, a) == Some(0) || Landing(g, b) == Some(0))
                && (g.index + a < 0 || g.index + b < 0))
    ensures At(g, TWO32) == g
  {
  }
}
