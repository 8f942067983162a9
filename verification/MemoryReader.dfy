/** Reading local memory region by region, and the address chains resolved over such reads. */
module MemoryReader {
  import opened Wrappers
  import opened Machine

  // ---------- regions ----------

  /** What a region query reports. */
  datatype Region = Region(base: u64, size: u64, committed: bool, guarded: bool, noAccess: bool) {
    function End(): u64 {
      Wrap64(base + size)
    }
  }

  /** The query for an address; None is a failed query. */
  type RegionQuery = u64 -> Option<Region>

  predicate Holds(r: Region, address: u64) {
    r.base <= address < r.End()
  }

  predicate Permits(r: Region) {
    r.committed && !r.guarded && !r.noAccess
  }

  /** The code deems a byte readable: its region is committed, open, and really holds it. */
  predicate Readable(query: RegionQuery, address: u64) {
    query(address).Some? && Permits(query(address).value) && Holds(query(address).value, address)
  }

  /** The query describes a partition: every address a region holds gets that same region. */
  ghost predicate Partitioned(query: RegionQuery) {
    forall a: u64, b: u64 ::
      query(a).Some? && Holds(query(a).value, a) && Holds(query(a).value, b) ==> query(b) == query(a)
  }

  /** The address of the i-th byte of a read, wrapping at the top of memory. */
  function Place(address: u64, i: nat): u64 {
    Wrap64(address + i)
  }

  datatype ReadError = QueryFailed(address: u64) | NotReadable(address: u64) | InvalidRegion(address: u64)

  /** Spelled out: the address is in a region that is committed, neither guarded nor closed, and does
      not wrap to below it. */
  predicate MayRead(query: RegionQuery, address: u64) {
    query(address).Some? &&
    var r := query(address).value;
    r.committed && !r.guarded && !r.noAccess && r.base <= address < (r.base + r.size) % TWO64
  }

  lemma ReadableMeaning(query: RegionQuery, address: u64)
    ensures Readable(query, address) <==> MayRead(query, address)
  {
  }

  /** The byte `i` places up from the address, wrapping, which is readable. */
  predicate IsByteAt(b: byte, query: RegionQuery, mem: Memory, address: u64, i: nat) {
    var at := (address + i) % TWO64;
    b == mem(at) && MayRead(query, at)
  }

  ghost predicate AreBytesOf(bytes: seq<byte>, query: RegionQuery, mem: Memory, address: u64) {
    forall i :: 0 <= i < |bytes| ==> IsByteAt(bytes[i], query, mem, address, i)
  }

  lemma ReadMeaning(query: RegionQuery, mem: Memory, address: u64, n: nat)
    requires forall i :: 0 <= i < n ==> Readable(query, Place(address, i))
    ensures AreBytesOf(ReadBytes(mem, address, n), query, mem, address)
  {
    forall i | 0 <= i < n ensures IsByteAt(ReadBytes(mem, address, n)[i], query, mem, address, i) {
      ReadableMeaning(query, Place(address, i));
    }
  }

  /** From a readable byte the rest of its region is readable, and the addresses do not wrap. */
  lemma RestOfRegion(query: RegionQuery, address: u64, copied: nat, chunk: nat, i: nat)
    requires Partitioned(query) && Readable(query, Place(address, copied))
    requires chunk <= query(Place(address, copied)).value.End() - Place(address, copied)
    requires copied <= i < copied + chunk
    ensures Place(address, i) == Place(address, copied) + (i - copied)
    ensures Readable(query, Place(address, i))
  {
  }

  /** The top byte of memory is never deemed readable: its region's end would wrap to zero. */
  lemma TopByteNeverReadable(query: RegionQuery)
    ensures !Readable(query, TWO64 - 1)
  {
  }

  /** The failing byte: all before it are readable, it is not, and the error says where and why. */
  ghost predicate StoppedAt(query: RegionQuery, address: u64, k: nat, error: ReadError) {
    && (forall i :: 0 <= i < k ==> Readable(query, Place(address, i)))
    && !Readable(query, Place(address, k)) && error.address == Place(address, k)
    && (error.QueryFailed? <==> query(Place(address, k)).None?)
    && (error.NotReadable? <==> query(Place(address, k)).Some? && !Permits(query(Place(address, k)).value))
  }

  lemma ChunkExtends(mem: Memory, address: u64, bytes: seq<byte>, copied: nat, chunk: nat)
    requires copied + chunk <= |bytes| && bytes[..copied] == ReadBytes(mem, address, copied)
    requires forall i :: copied <= i < copied + chunk ==> bytes[i] == mem(Place(address, i))
    ensures bytes[..copied + chunk] == ReadBytes(mem, address, copied + chunk)
  {
    forall i | 0 <= i < copied + chunk ensures bytes[i] == mem(Place(address, i)) {
      assert i < copied ==> bytes[..copied][i] == mem(Place(address, i));
    }
  }

  /** Copies region by region. It succeeds exactly when every byte of the range is readable, and
      then the buffer equals memory. A failure names the first unreadable byte, with everything
      before it copied and nothing from it on touched. */
  method ReadLocalMemory(query: RegionQuery, mem: Memory, address: u64, destination: array<byte>)
      returns (failure: Option<ReadError>)
    requires Partitioned(query)
    modifies destination
    ensures failure.None? <==> forall i :: 0 <= i < destination.Length ==> Readable(query, Place(address, i))
    ensures failure.None? ==> destination[..] == ReadBytes(mem, address, destination.Length)
    ensures failure.None? ==> AreBytesOf(destination[..], query, mem, address)
    ensures failure.Some? ==>
              exists k :: 0 <= k < destination.Length && StoppedAt(query, address, k, failure.value) &&
                          destination[..k] == ReadBytes(mem, address, k) && destination[k..] == old(destination[k..])
  {
    failure := None;
    var copied := 0;
    while copied < destination.Length
      invariant copied <= destination.Length && failure == None
      invariant forall i :: 0 <= i < copied ==> Readable(query, Place(address, i))
      invariant destination[..copied] == ReadBytes(mem, address, copied)
      invariant destination[copied..] == old(destination[copied..])
      decreases destination.Length - copied
    {
      var current := Place(address, copied);
      var found := query(current);
      if found.None? {
        assert StoppedAt(query, address, copied, QueryFailed(current));
        return Some(QueryFailed(current));
      }
      var region := found.value;
      if !region.committed || region.guarded || region.noAccess {
        assert StoppedAt(query, address, copied, NotReadable(current));
        return Some(NotReadable(current));
      }
      if current < region.base || current >= region.End() {
        assert StoppedAt(query, address, copied, InvalidRegion(current));
        return Some(InvalidRegion(current));
      }
      var available := region.End() - current;
      var chunk := if destination.Length - copied < available then destination.Length - copied else available;
      forall i | copied <= i < copied + chunk
        ensures Readable(query, Place(address, i)) && Place(address, i) == current + (i - copied)
      {
        RestOfRegion(query, address, copied, chunk, i);
      }
      ghost var before := destination[..];
      CopyChunk(mem, current, destination, copied, chunk);
      assert destination[..copied] == before[..copied] && destination[copied + chunk..] == before[copied + chunk..];
      ChunkExtends(mem, address, destination[..], copied, chunk);
      copied := copied + chunk;
    }
    ReadMeaning(query, mem, address, destination.Length);
  }

  /** `memcpy` of one chunk. */
  method CopyChunk(mem: Memory, current: u64, destination: array<byte>, start: nat, chunk: nat)
    requires start + chunk <= destination.Length && current + chunk <= TWO64
    modifies destination
    ensures forall i :: 0 <= i < destination.Length ==>
              destination[i] == if start <= i < start + chunk then mem(current + (i - start)) else old(destination[i])
  {
    for k := 0 to chunk
      invariant forall i :: 0 <= i < destination.Length ==>
                  destination[i] == if start <= i < start + k then mem(current + (i - start)) else old(destination[i])
    {
      destination[start + k] := mem(current + k);
    }
  }

  // ---------- address chains ----------

  datatype ChainOp = Add(offset: i64) | RipRelative32(offset: i64)

  datatype ChainError = NullMatch | AddOutside | DisplacementOutside | Unreadable | TargetOutside

  /** The signed reading of an address. */
  function Signed(address: u64): i64 {
    if address < TWO63 then address else address - TWO64
  }

  /** What a read of `n` bytes gives, if every byte is readable and the address is not null. */
  function TryRead(query: RegionQuery, mem: Memory, address: u64, n: nat): Option<seq<byte>> {
    if address != 0 && n != 0 && forall i | 0 <= i < n :: Readable(query, Place(address, i))
    then Some(ReadBytes(mem, address, n)) else None
  }

  function RipTarget(query: RegionQuery, mem: Memory, address: u64, offset: i64): Result<u64, ChainError> {
    var at: int := Signed(address) as int + offset as int;
    if at <= 0 then Failure(DisplacementOutside)
    else
      match TryRead(query, mem, Wrap64(at), 4)
      case None => Failure(Unreadable)
      case Some(bytes) =>
        var target: int := at + 4 + DecodeInt32(bytes);
        if target <= 0 then Failure(TargetOutside) else Success(Wrap64(target))
  }

  /** Where the displacement bytes lie: from the signed reading of the address. */
  function FieldAt(address: u64, offset: i64): int {
    (if address < TWO63 then address else address - TWO64) + offset
  }

  ghost predicate FieldReadable(query: RegionQuery, at: int) {
    && MayRead(query, at % TWO64) && MayRead(query, (at + 1) % TWO64)
    && MayRead(query, (at + 2) % TWO64) && MayRead(query, (at + 3) % TWO64)
  }

  /** Every outcome of a relative step: a field not above zero, one not readable, a target not above
      zero, or the target. */
  lemma RipTargetMeaning(query: RegionQuery, mem: Memory, address: u64, offset: i64)
    ensures var at := FieldAt(address, offset);
            RipTarget(query, mem, address, offset) ==
            if at <= 0 then Failure(DisplacementOutside)
            else if !FieldReadable(query, at) then Failure(Unreadable)
            else if at + 4 + Displacement(mem, at) <= 0 then Failure(TargetOutside)
            else Success((at + 4 + Displacement(mem, at)) % TWO64)
  {
    var at := FieldAt(address, offset);
    if at > 0 {
      assert Wrap64(at) == at;
      FieldMeaning(query, mem, at);
      DisplacementMeaning(mem, at);
    }
  }

  lemma FieldMeaning(query: RegionQuery, mem: Memory, at: u64)
    requires at > 0
    ensures TryRead(query, mem, at, 4) == if FieldReadable(query, at) then Some(ReadBytes(mem, at, 4)) else None
  {
    ReadableMeaning(query, Place(at, 0));
    ReadableMeaning(query, Place(at, 1));
    ReadableMeaning(query, Place(at, 2));
    ReadableMeaning(query, Place(at, 3));
  }

  function ApplyOp(query: RegionQuery, mem: Memory, address: u64, op: ChainOp): Result<u64, ChainError> {
    match op
    case Add(offset) =>
      var sum: int := Signed(address) as int + offset as int;
      if sum <= 0 then Failure(AddOutside) else Success(Wrap64(sum))
    case RipRelative32(offset) => RipTarget(query, mem, address, offset)
  }

  function RunChain(query: RegionQuery, mem: Memory, address: u64, chain: seq<ChainOp>): Result<u64, ChainError>
    decreases |chain|
  {
    if chain == [] then Success(address)
    else match ApplyOp(query, mem, address, chain[0])
      case Failure(e) => Failure(e)
      case Success(a) => RunChain(query, mem, a, chain[1..])
  }

  method ResolveChain(query: RegionQuery, mem: Memory, match_: u64, chain: seq<ChainOp>)
      returns (r: Result<u64, ChainError>)
    ensures r == if match_ == 0 then Failure(NullMatch) else RunChain(query, mem, match_, chain)
  {
    if match_ == 0 {
      return Failure(NullMatch);
    }
    var address := match_;
    assert chain[0..] == chain;
    for i := 0 to |chain|
      invariant RunChain(query, mem, match_, chain) == RunChain(query, mem, address, chain[i..])
    {
      assert chain[i..][1..] == chain[i + 1..];
      match chain[i] {
        case Add(offset) =>
          var sum: int := Signed(address) as int + offset as int;
          if sum <= 0 {
            return Failure(AddOutside);
          }
          address := Wrap64(sum);
        case RipRelative32(offset) =>
          var resolved := RipTarget(query, mem, address, offset);
          if resolved.Failure? {
            return resolved;
          }
          address := resolved.value;
      }
    }
    return Success(address);
  }

  /** Chains compose: running one after another is running their concatenation. */
  lemma {:induction false} ChainsCompose(query: RegionQuery, mem: Memory, address: u64, first: seq<ChainOp>,
                                         second: seq<ChainOp>)
    ensures RunChain(query, mem, address, first + second) ==
            match RunChain(query, mem, address, first)
            case Failure(e) => Failure(e)
            case Success(a) => RunChain(query, mem, a, second)
    decreases |first|
  {
    if first == [] {
      assert first + second == second;
    } else {
      assert (first + second)[1..] == first[1..] + second;
      var next := ApplyOp(query, mem, address, first[0]);
      if next.Success? {
        ChainsCompose(query, mem, next.value, first[1..], second);
      }
    }
  }

  function Offsets(chain: seq<ChainOp>): int {
    if chain == [] then 0 else Offsets(chain[..|chain| - 1]) + chain[|chain| - 1].offset
  }

  /** The sums a chain of additions reaches, from the signed reading of its start. */
  ghost predicate StaysBelow(start: int, chain: seq<ChainOp>) {
    forall k :: 0 < k <= |chain| ==> start + Offsets(chain[..k]) < TWO63
  }

  ghost predicate StaysPositive(start: int, chain: seq<ChainOp>) {
    forall k :: 0 < k <= |chain| ==> 0 < start + Offsets(chain[..k])
  }

  lemma PartialSums(start: int, front: seq<ChainOp>, last: ChainOp)
    ensures Offsets(front + [last]) == Offsets(front) + last.offset
    ensures StaysBelow(start, front + [last]) <==>
            StaysBelow(start, front) && start + Offsets(front + [last]) < TWO63
    ensures StaysPositive(start, front + [last]) <==>
            StaysPositive(start, front) && 0 < start + Offsets(front + [last])
  {
    var chain := front + [last];
    assert chain[..|front|] == front && chain[..|chain|] == chain;
    assert forall k :: 0 <= k <= |front| ==> chain[..k] == front[..k];
  }

  /** A chain of additions adds them up exactly when every partial sum is a user address, and
      fails otherwise; an address in the upper half counts as its negative signed reading. */
  lemma {:induction false} AddChain(query: RegionQuery, mem: Memory, address: u64, chain: seq<ChainOp>)
    requires StaysBelow(Signed(address), chain) && forall i :: 0 <= i < |chain| ==> chain[i].Add?
    ensures RunChain(query, mem, address, chain).Success? <==> StaysPositive(Signed(address), chain)
    ensures RunChain(query, mem, address, chain).Failure? ==>
              RunChain(query, mem, address, chain) == Failure(AddOutside)
    ensures RunChain(query, mem, address, chain).Success? ==>
              RunChain(query, mem, address, chain).value ==
                if chain == [] then address else Signed(address) + Offsets(chain)
  {
    if chain != [] {
      var front, last := chain[..|chain| - 1], chain[|chain| - 1];
      assert chain == front + [last];
      PartialSums(Signed(address), front, last);
      AddChain(query, mem, address, front);
      ChainsCompose(query, mem, address, front, [last]);
      OneOp(query, mem, last);
      if front != [] && StaysPositive(Signed(address), front) {
        assert front[..|front|] == front;
        assert 0 < Signed(address) + Offsets(front[..|front|]) < TWO63;
      }
    }
  }

  lemma OneOp(query: RegionQuery, mem: Memory, op: ChainOp)
    ensures forall a: u64 :: RunChain(query, mem, a, [op]) == ApplyOp(query, mem, a, op)
  {
    assert [op][1..] == [];
  }

  lemma RipReaches(query: RegionQuery, mem: Memory, instruction: u64, offset: i64, at: u64, displacement: int)
    requires at == Signed(instruction) as int + offset as int && 0 < at && at + 4 < TWO63
    requires forall i :: 0 <= i < 4 ==> Readable(query, Place(at, i))
    requires DecodeInt32(ReadBytes(mem, at, 4)) == displacement && 0 < at + 4 + displacement < TWO63
    ensures RipTarget(query, mem, instruction, offset) == Success(at + 4 + displacement)
  {
    assert TryRead(query, mem, at, 4) == Some(ReadBytes(mem, at, 4));
  }

  /** Writing the distance from the end of a displacement field into it makes the chain step find
      the target: for every readable field and every user target within 32-bit reach. */
  lemma RipFindsTarget(query: RegionQuery, mem: Memory, instruction: u64, offset: i64, target: u64)
    requires 0 < target < TWO63
    requires var at: int := Signed(instruction) as int + offset as int;
             && 0 < at && at + 4 < TWO63
             && -TWO31 <= target - (at + 4) < TWO31
             && (forall i :: 0 <= i < 4 ==> Readable(query, Place(at, i)))
             && ReadBytes(mem, at, 4) == EncodeInt32(target - (at + 4))
    ensures RunChain(query, mem, instruction, [RipRelative32(offset)]) == Success(target)
  {
    var at: int := Signed(instruction) as int + offset as int;
    var displacement := target - (at + 4);
    Int32RoundTrip(displacement);
    RipReaches(query, mem, instruction, offset, at, displacement);
    OneOp(query, mem, RipRelative32(offset));
  }
}
