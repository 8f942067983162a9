/** Allocation accounting: global counters, per-tag statistics and peaks kept beside the map of
    live allocations. All counters are 64 bits wide and wrap. */
module MemoryManager {
  import opened Machine

  type Tag = nat

  datatype Allocation = Allocation(size: u64, tag: Tag, owner: string, id: u64)

  datatype TagStats = TagStats(allocations: u64, deallocations: u64, bytesInUse: u64, peak: u64, totalBytes: u64)

  const NO_STATS := TagStats(0, 0, 0, 0, 0)

  datatype State = State(tracking: bool, live: map<u64, Allocation>, tags: map<Tag, TagStats>, nextId: u64,
                         active: u64, total: u64, deallocated: u64, bytesInUse: u64, peak: u64, totalBytes: u64)

  const INITIAL := State(true, map[], map[], 0, 0, 0, 0, 0, 0, 0)

  // ---------- the operations ----------

  function StatsOf(s: State, t: Tag): TagStats {
    if t in s.tags then s.tags[t] else NO_STATS
  }

  function Max(x: u64, y: u64): u64 {
    if x >= y then x else y
  }

  /** Taking a live allocation out of the books; the tag's bytes saturate at zero. */
  function Vacated(s: State, address: u64): State
    requires address in s.live
  {
    var gone := s.live[address];
    var stats := StatsOf(s, gone.tag);
    var tagBytes := if stats.bytesInUse >= gone.size then stats.bytesInUse - gone.size else 0;
    s.(live := s.live - {address},
       bytesInUse := Minus64(s.bytesInUse, gone.size),
       active := Minus64(s.active, 1),
       tags := s.tags[gone.tag := stats.(bytesInUse := tagBytes)])
  }

  /** Entering an allocation at a free address. */
  function Entered(s: State, address: u64, a: Allocation): State {
    var bytes := Plus64(s.bytesInUse, a.size);
    var stats := StatsOf(s, a.tag);
    var tagBytes := Plus64(stats.bytesInUse, a.size);
    s.(live := s.live[address := a],
       active := Plus64(s.active, 1),
       total := Plus64(s.total, 1),
       totalBytes := Plus64(s.totalBytes, a.size),
       bytesInUse := bytes,
       peak := Max(s.peak, bytes),
       tags := s.tags[a.tag := TagStats(Plus64(stats.allocations, 1), stats.deallocations, tagBytes,
                                        Max(stats.peak, tagBytes), Plus64(stats.totalBytes, a.size))])
  }

  function Allocated(s: State, address: u64, size: u64, tag: Tag, owner: string): State {
    if !s.tracking || address == 0 || size == 0 then s
    else
      var id := Plus64(s.nextId, 1);
      var freed := if address in s.live then Vacated(s, address) else s;
      Entered(freed.(nextId := id), address, Allocation(size, tag, owner, id))
  }

  function Released(s: State, address: u64): State {
    if !s.tracking || address == 0 || address !in s.live then s
    else
      var tag := s.live[address].tag;
      var freed := Vacated(s, address);
      var stats := StatsOf(freed, tag);
      freed.(deallocated := Plus64(s.deallocated, 1),
             tags := freed.tags[tag := stats.(deallocations := Plus64(stats.deallocations, 1))])
  }

  datatype Op =
    | Allocate(address: u64, size: u64, tag: Tag, owner: string)
    | Release(address: u64)
    | Track(enabled: bool)
    | Reset

  function Step(s: State, op: Op): State {
    match op
    case Allocate(address, size, tag, owner) => Allocated(s, address, size, tag, owner)
    case Release(address) => Released(s, address)
    case Track(enabled) => s.(tracking := enabled)
    case Reset => INITIAL.(tracking := s.tracking)
  }

  function After(ops: seq<Op>): State {
    if ops == [] then INITIAL else Step(After(ops[..|ops| - 1]), ops[|ops| - 1])
  }

  // ---------- sums over maps ----------

  ghost function Sum<K(!new), V(!new)>(m: map<K, V>, f: V -> nat): nat
    decreases |m|
  {
    if m == map[] then 0
    else
      var k :| k in m;
      assert (m - {k}).Keys == m.Keys - {k};
      f(m[k]) + Sum(m - {k}, f)
  }

  lemma {:induction false} SumRemove<K(!new), V(!new)>(m: map<K, V>, f: V -> nat, k: K)
    requires k in m
    ensures Sum(m, f) == f(m[k]) + Sum(m - {k}, f)
    decreases |m|
  {
    var j :| j in m && Sum(m, f) == f(m[j]) + Sum(m - {j}, f);
    if j != k {
      assert (m - {j}).Keys == m.Keys - {j} && (m - {k}).Keys == m.Keys - {k};
      SumRemove(m - {j}, f, k);
      SumRemove(m - {k}, f, j);
      assert m - {j} - {k} == m - {k} - {j};
    }
  }

  lemma SumUpdate<K(!new), V(!new)>(m: map<K, V>, f: V -> nat, k: K, v: V)
    ensures Sum(m[k := v], f) == Sum(m, f) - (if k in m then f(m[k]) else 0) + f(v)
  {
    var m' := m[k := v];
    SumRemove(m', f, k);
    if k in m {
      SumRemove(m, f, k);
      assert m' - {k} == m - {k};
    } else {
      assert m' - {k} == m;
    }
  }

  lemma {:induction false} SumMonotone<K(!new), V(!new)>(m: map<K, V>, f: V -> nat, g: V -> nat)
    requires forall k :: k in m ==> f(m[k]) <= g(m[k])
    ensures Sum(m, f) <= Sum(m, g)
    decreases |m|
  {
    if m != map[] {
      var k :| k in m;
      assert (m - {k}).Keys == m.Keys - {k};
      SumMonotone(m - {k}, f, g);
      SumRemove(m, f, k);
      SumRemove(m, g, k);
    }
  }

  function Size(): Allocation -> nat { (a: Allocation) => a.size }
  function SizeIn(t: Tag): Allocation -> nat { (a: Allocation) => if a.tag == t then a.size else 0 }
  function Nothing(): Allocation -> nat { (a: Allocation) => 0 }
  function Count(): TagStats -> nat { (s: TagStats) => s.allocations }
  function Freed(): TagStats -> nat { (s: TagStats) => s.deallocations }
  function InUse(): TagStats -> nat { (s: TagStats) => s.bytesInUse }
  function Peak(): TagStats -> nat { (s: TagStats) => s.peak }
  function Total(): TagStats -> nat { (s: TagStats) => s.totalBytes }

  ghost function LiveBytes(live: map<u64, Allocation>): nat { Sum(live, Size()) }
  ghost function TagLiveBytes(live: map<u64, Allocation>, t: Tag): nat { Sum(live, SizeIn(t)) }

  // ---------- exact accounting of what is live ----------

  ghost predicate TagsKnown(live: map<u64, Allocation>, tags: map<Tag, TagStats>) {
    forall a :: a in live ==> live[a].tag in tags
  }

  /** Each tag's bytes are the sizes of its live allocations. */
  ghost predicate TagsMatch(live: map<u64, Allocation>, tags: map<Tag, TagStats>) {
    forall t :: t in tags ==> tags[t].bytesInUse == TagLiveBytes(live, t)
  }

  ghost predicate LiveExact(s: State) {
    && TagsKnown(s.live, s.tags)
    && s.bytesInUse == LiveBytes(s.live)
    && TagsMatch(s.live, s.tags)
    && Sum(s.tags, InUse()) == s.bytesInUse
  }

  lemma LiveAfterRemoval(live: map<u64, Allocation>, address: u64)
    requires address in live
    ensures LiveBytes(live) == live[address].size + LiveBytes(live - {address})
    ensures forall t :: TagLiveBytes(live, t) ==
              TagLiveBytes(live - {address}, t) + (if live[address].tag == t then live[address].size else 0)
  {
    SumRemove(live, Size(), address);
    forall t ensures TagLiveBytes(live, t) ==
              TagLiveBytes(live - {address}, t) + (if live[address].tag == t then live[address].size else 0)
    {
      SumRemove(live, SizeIn(t), address);
    }
  }

  lemma LiveAfterEntry(live: map<u64, Allocation>, address: u64, a: Allocation)
    requires address !in live
    ensures LiveBytes(live[address := a]) == LiveBytes(live) + a.size
    ensures forall t ::
              TagLiveBytes(live[address := a], t) == TagLiveBytes(live, t) + (if a.tag == t then a.size else 0)
  {
    SumUpdate(live, Size(), address, a);
    forall t ensures TagLiveBytes(live[address := a], t) == TagLiveBytes(live, t) + (if a.tag == t then a.size else 0) {
      SumUpdate(live, SizeIn(t), address, a);
    }
  }

  lemma TagsMatchAfterRemoval(live: map<u64, Allocation>, tags: map<Tag, TagStats>, address: u64, stats: TagStats)
    requires address in live && TagsMatch(live, tags) && live[address].tag in tags
    requires stats.bytesInUse == tags[live[address].tag].bytesInUse - live[address].size
    ensures TagsMatch(live - {address}, tags[live[address].tag := stats])
  {
    LiveAfterRemoval(live, address);
  }

  lemma TagsMatchAfterEntry(live: map<u64, Allocation>, tags: map<Tag, TagStats>, address: u64, a: Allocation,
                            stats: TagStats)
    requires address !in live && TagsMatch(live, tags) && TagsKnown(live, tags)
    requires stats.bytesInUse == (if a.tag in tags then tags[a.tag].bytesInUse else 0) + a.size
    ensures TagsMatch(live[address := a], tags[a.tag := stats])
  {
    LiveAfterEntry(live, address, a);
    if a.tag !in tags {
      UnknownTagHasNoBytes(live, tags, a.tag);
    }
  }

  lemma UnknownTagHasNoBytes(live: map<u64, Allocation>, tags: map<Tag, TagStats>, t: Tag)
    requires TagsKnown(live, tags) && t !in tags
    ensures TagLiveBytes(live, t) == 0
  {
    SumMonotone(live, SizeIn(t), Nothing());
    NoBytes(live);
  }

  lemma {:induction false} NoBytes(m: map<u64, Allocation>)
    ensures Sum(m, Nothing()) == 0
    decreases |m|
  {
    if m != map[] {
      var k :| k in m;
      assert (m - {k}).Keys == m.Keys - {k};
      NoBytes(m - {k});
      SumRemove(m, Nothing(), k);
    }
  }

  lemma TagBytesAreSome(live: map<u64, Allocation>, t: Tag)
    ensures TagLiveBytes(live, t) <= LiveBytes(live)
  {
    SumMonotone(live, SizeIn(t), Size());
  }

  /** A tag's bytes are the bytes of its live allocations, so the subtraction cannot clamp. */
  lemma SubtractionNeverClamps(s: State, address: u64)
    requires LiveExact(s) && address in s.live
    ensures s.live[address].tag in s.tags
    ensures StatsOf(s, s.live[address].tag).bytesInUse >= s.live[address].size
    ensures s.bytesInUse >= s.live[address].size
  {
    LiveAfterRemoval(s.live, address);
  }

  lemma VacatedKeepsExact(s: State, address: u64)
    requires LiveExact(s) && address in s.live
    ensures LiveExact(Vacated(s, address))
  {
    var t, s' := s.live[address].tag, Vacated(s, address);
    SubtractionNeverClamps(s, address);
    LiveAfterRemoval(s.live, address);
    TagsMatchAfterRemoval(s.live, s.tags, address, s'.tags[t]);
    SumUpdate(s.tags, InUse(), t, s'.tags[t]);
  }

  lemma EnteredKeepsExact(s: State, address: u64, a: Allocation)
    requires LiveExact(s) && address !in s.live && LiveBytes(s.live) + a.size < TWO64
    ensures LiveExact(Entered(s, address, a))
  {
    var s' := Entered(s, address, a);
    LiveAfterEntry(s.live, address, a);
    EnteredTagBytes(s, address, a);
    TagsMatchAfterEntry(s.live, s.tags, address, a, s'.tags[a.tag]);
    SumUpdate(s.tags, InUse(), a.tag, s'.tags[a.tag]);
  }

  /** Neither addition wraps. */
  lemma EnteredTagBytes(s: State, address: u64, a: Allocation)
    requires LiveExact(s) && LiveBytes(s.live) + a.size < TWO64
    ensures Entered(s, address, a).tags[a.tag].bytesInUse == StatsOf(s, a.tag).bytesInUse + a.size
    ensures Entered(s, address, a).tags[a.tag].bytesInUse <= Entered(s, address, a).bytesInUse == s.bytesInUse + a.size
  {
    TagBytesAreSome(s.live, a.tag);
  }

  lemma DeallocationCountKeepsExact(s: State, t: Tag, n: u64, count: u64)
    requires LiveExact(s) && t in s.tags
    ensures LiveExact(s.(deallocated := n, tags := s.tags[t := s.tags[t].(deallocations := count)]))
  {
    SumUpdate(s.tags, InUse(), t, s.tags[t].(deallocations := count));
  }

  // ---------- peaks ----------

  ghost predicate PeaksHold(s: State) {
    && (forall t :: t in s.tags ==> s.tags[t].bytesInUse <= s.tags[t].peak <= s.peak)
    && s.bytesInUse <= s.peak <= Sum(s.tags, Peak())
  }

  lemma VacatedKeepsPeaks(s: State, address: u64)
    requires LiveExact(s) && PeaksHold(s) && address in s.live
    ensures PeaksHold(Vacated(s, address)) && Vacated(s, address).peak == s.peak
  {
    SubtractionNeverClamps(s, address);
    var t := s.live[address].tag;
    SumUpdate(s.tags, Peak(), t, Vacated(s, address).tags[t]);
  }

  lemma EnteredKeepsPeaks(s: State, address: u64, a: Allocation)
    requires LiveExact(s) && PeaksHold(s) && address !in s.live && LiveBytes(s.live) + a.size < TWO64
    ensures PeaksHold(Entered(s, address, a))
    ensures Entered(s, address, a).peak == Max(s.peak, Entered(s, address, a).bytesInUse)
  {
    var s' := Entered(s, address, a);
    EnteredTagBytes(s, address, a);
    SumUpdate(s.tags, Peak(), a.tag, s'.tags[a.tag]);
    SumUpdate(s.tags, InUse(), a.tag, s'.tags[a.tag]);
    SumMonotone(s'.tags, InUse(), Peak());
  }

  // ---------- whole histories ----------

  /** The live bytes stay below 2^64 at every point of the history. */
  ghost predicate Fits(ops: seq<Op>) {
    forall k :: 0 <= k <= |ops| ==> LiveBytes(After(ops[..k]).live) < TWO64
  }

  lemma AllocatedKeepsExact(s: State, address: u64, size: u64, tag: Tag, owner: string)
    requires LiveExact(s) && PeaksHold(s)
    requires LiveBytes(Allocated(s, address, size, tag, owner).live) < TWO64
    ensures var s' := Allocated(s, address, size, tag, owner);
            LiveExact(s') && PeaksHold(s') && s'.peak == Max(s.peak, s'.bytesInUse)
  {
    if s.tracking && address != 0 && size != 0 {
      var id := Plus64(s.nextId, 1);
      var freed := if address in s.live then Vacated(s, address) else s;
      if address in s.live {
        VacatedKeepsExact(s, address);
        VacatedKeepsPeaks(s, address);
      }
      var ready := freed.(nextId := id);
      var a := Allocation(size, tag, owner, id);
      assert LiveExact(ready) && PeaksHold(ready);
      LiveAfterEntry(ready.live, address, a);
      EnteredKeepsExact(ready, address, a);
      EnteredKeepsPeaks(ready, address, a);
    }
  }

  lemma CountingKeepsExact(s: State, t: Tag, n: u64, count: u64)
    requires LiveExact(s) && PeaksHold(s) && t in s.tags
    ensures var s' := s.(deallocated := n, tags := s.tags[t := s.tags[t].(deallocations := count)]);
            LiveExact(s') && PeaksHold(s')
  {
    DeallocationCountKeepsExact(s, t, n, count);
    SumUpdate(s.tags, Peak(), t, s.tags[t].(deallocations := count));
  }

  lemma ReleasedKeepsExact(s: State, address: u64)
    requires LiveExact(s) && PeaksHold(s)
    ensures LiveExact(Released(s, address)) && PeaksHold(Released(s, address))
    ensures Released(s, address).peak == s.peak && Released(s, address).bytesInUse <= s.bytesInUse
  {
    if s.tracking && address != 0 && address in s.live {
      var tag := s.live[address].tag;
      var freed := Vacated(s, address);
      SubtractionNeverClamps(s, address);
      VacatedKeepsExact(s, address);
      VacatedKeepsPeaks(s, address);
      CountingKeepsExact(freed, tag, Plus64(s.deallocated, 1), Plus64(freed.tags[tag].deallocations, 1));
    }
  }

  /** The highest number of bytes in use since the last reset. */
  function HighWater(ops: seq<Op>): u64 {
    if ops == [] then 0
    else if ops[|ops| - 1].Reset? then 0
    else Max(HighWater(ops[..|ops| - 1]), After(ops).bytesInUse)
  }

  lemma StepKeepsExact(s: State, op: Op)
    requires LiveExact(s) && PeaksHold(s) && LiveBytes(Step(s, op).live) < TWO64
    ensures LiveExact(Step(s, op)) && PeaksHold(Step(s, op))
    ensures Step(s, op).peak == if op.Reset? then 0 else Max(s.peak, Step(s, op).bytesInUse)
  {
    match op {
      case Allocate(address, size, tag, owner) => AllocatedKeepsExact(s, address, size, tag, owner);
      case Release(address) => ReleasedKeepsExact(s, address);
      case Track(enabled) => assert LiveExact(s.(tracking := enabled));
      case Reset =>
    }
  }

  /** Over every history whose live bytes fit in 64 bits: bytes in use are the live bytes, in all
      and per tag; the peak is the high-water mark since the last reset; every tag's peak is at
      most the global peak, which is at most the sum of the tag peaks. */
  lemma {:induction false} EveryHistoryIsExact(ops: seq<Op>)
    requires Fits(ops)
    ensures LiveExact(After(ops)) && PeaksHold(After(ops))
    ensures After(ops).peak == HighWater(ops)
  {
    if ops != [] {
      var front, last := ops[..|ops| - 1], ops[|ops| - 1];
      assert forall k :: 0 <= k <= |front| ==> front[..k] == ops[..k];
      EveryHistoryIsExact(front);
      assert ops[..|ops|] == ops;
      StepKeepsExact(After(front), last);
    }
  }

  /** The condition is the exact one: the counter shows the live bytes throughout a history if
      and only if they fit. */
  lemma ExactIffFits(ops: seq<Op>)
    ensures (forall k :: 0 <= k <= |ops| ==> After(ops[..k]).bytesInUse == LiveBytes(After(ops[..k]).live))
            <==> Fits(ops)
  {
    if Fits(ops) {
      forall k | 0 <= k <= |ops| ensures After(ops[..k]).bytesInUse == LiveBytes(After(ops[..k]).live) {
        assert forall j :: 0 <= j <= k ==> ops[..k][..j] == ops[..j];
        EveryHistoryIsExact(ops[..k]);
      }
    }
  }

  // ---------- totals, with no condition at all ----------

  predicate TakesOver(s: State, op: Op) {
    op.Allocate? && s.tracking && op.address != 0 && op.size != 0 && op.address in s.live
  }

  /** Registrations that took over a live address since the last reset. */
  function Replacements(ops: seq<Op>): nat {
    if ops == [] then 0
    else MoreReplaced(After(ops[..|ops| - 1]), ops[|ops| - 1], Replacements(ops[..|ops| - 1]))
  }

  /** Each wrapped total is the wrapped sum of its per-tag parts. */
  ghost predicate SumsBalance(tags: map<Tag, TagStats>, total: u64, deallocated: u64, totalBytes: u64) {
    && total == Wrap64(Sum(tags, Count()))
    && deallocated == Wrap64(Sum(tags, Freed()))
    && totalBytes == Wrap64(Sum(tags, Total()))
  }

  /** Every registration is still live, was released, or was replaced. */
  ghost predicate CountsBalance(live: map<u64, Allocation>, active: u64, total: u64, deallocated: u64, replaced: nat) {
    0 !in live && active == |live| && total == Wrap64(|live| + deallocated + replaced)
  }

  ghost predicate TotalsBalance(s: State, replaced: nat) {
    && TagsKnown(s.live, s.tags)
    && SumsBalance(s.tags, s.total, s.deallocated, s.totalBytes)
    && CountsBalance(s.live, s.active, s.total, s.deallocated, replaced)
  }

  lemma {:induction false} SmallNumbersAreFew(xs: set<nat>, n: nat)
    requires forall x :: x in xs ==> x < n
    ensures |xs| <= n
  {
    if n > 0 {
      SmallNumbersAreFew(xs - {n - 1}, n - 1);
    } else {
      assert xs == {};
    }
  }

  /** There are fewer live allocations than 64-bit numbers, so their count never wraps. */
  lemma AddressesFit(m: map<u64, Allocation>)
    requires 0 !in m
    ensures |m| < TWO64
  {
    var xs: set<nat> := set x | x in m.Keys;
    assert |xs| == |m.Keys| by {
      SameSize(m.Keys, xs);
    }
    SmallNumbersAreFew(xs + {0}, TWO64);
  }

  lemma {:induction false} SameSize(a: set<u64>, b: set<nat>)
    requires forall x :: x in a <==> x in b
    ensures |a| == |b|
    decreases |a|
  {
    if a == {} {
      assert b == {};
    } else {
      var x :| x in a;
      SameSize(a - {x}, b - {x});
    }
  }

  /** Counting `n` more under one tag and in the total keeps the total the wrapped sum. */
  lemma TotalFollows(tags: map<Tag, TagStats>, t: Tag, stats: TagStats, f: TagStats -> nat, total: u64, n: u64)
    requires total == Wrap64(Sum(tags, f))
    requires f(stats) < TWO64 && f(if t in tags then tags[t] else NO_STATS) < TWO64 && f(NO_STATS) == 0
    requires f(stats) == Plus64(f(if t in tags then tags[t] else NO_STATS), n)
    ensures Plus64(total, n) == Wrap64(Sum(tags[t := stats], f))
  {
    var part: u64 := f(if t in tags then tags[t] else NO_STATS);
    SumUpdate(tags, f, t, stats);
    if t in tags {
      SumRemove(tags, f, t);
    }
    WrapShift(Sum(tags, f), part, n);
  }

  /** Wrapping one part of a sum leaves the wrapped sum right. */
  lemma WrapShift(sum: nat, part: u64, n: u64)
    ensures Wrap64(sum - part + Plus64(part, n)) == Plus64(Wrap64(sum), n)
  {
  }

  /** One tag's statistics counting `n` more registrations, `d` more releases and `b` more bytes. */
  lemma SumsFollow(tags: map<Tag, TagStats>, t: Tag, stats: TagStats, total: u64, deallocated: u64, totalBytes: u64,
                   n: u64, d: u64, b: u64)
    requires SumsBalance(tags, total, deallocated, totalBytes)
    requires var was := if t in tags then tags[t] else NO_STATS;
             && stats.allocations == Plus64(was.allocations, n)
             && stats.deallocations == Plus64(was.deallocations, d)
             && stats.totalBytes == Plus64(was.totalBytes, b)
    ensures SumsBalance(tags[t := stats], Plus64(total, n), Plus64(deallocated, d), Plus64(totalBytes, b))
  {
    TotalFollows(tags, t, stats, Count(), total, n);
    TotalFollows(tags, t, stats, Freed(), deallocated, d);
    TotalFollows(tags, t, stats, Total(), totalBytes, b);
  }

  lemma CountsAfterRemoval(live: map<u64, Allocation>, active: u64, total: u64, deallocated: u64, replaced: nat,
                           address: u64)
    requires CountsBalance(live, active, total, deallocated, replaced) && address in live
    ensures CountsBalance(live - {address}, Minus64(active, 1), total, deallocated, replaced + 1)
  {
  }

  lemma CountsAfterEntry(live: map<u64, Allocation>, active: u64, total: u64, deallocated: u64, replaced: nat,
                         address: u64, a: Allocation)
    requires CountsBalance(live, active, total, deallocated, replaced) && address !in live && address != 0
    ensures CountsBalance(live[address := a], Plus64(active, 1), Plus64(total, 1), deallocated, replaced)
  {
    var after := live[address := a];
    EntryAddsOne(live, address, a);
    AddressesFit(after);
    var registered := |live| + deallocated + replaced;
    CountersWrap(registered, 1);
    assert |after| + deallocated + replaced == registered + 1;
  }

  lemma EntryAddsOne(live: map<u64, Allocation>, address: u64, a: Allocation)
    requires address !in live
    ensures |live[address := a]| == |live| + 1
  {
    assert live[address := a].Keys == live.Keys + {address};
  }

  lemma CountsAfterRelease(live: map<u64, Allocation>, active: u64, total: u64, deallocated: u64, replaced: nat)
    requires CountsBalance(live, active, total, deallocated, replaced + 1)
    ensures CountsBalance(live, active, total, Plus64(deallocated, 1), replaced)
  {
  }

  lemma VacatedKeepsTotals(s: State, address: u64, replaced: nat)
    requires TotalsBalance(s, replaced) && address in s.live
    ensures TotalsBalance(Vacated(s, address), replaced + 1)
  {
    var t := s.live[address].tag;
    SumsFollow(s.tags, t, Vacated(s, address).tags[t], s.total, s.deallocated, s.totalBytes, 0, 0, 0);
    CountsAfterRemoval(s.live, s.active, s.total, s.deallocated, replaced, address);
  }

  lemma EnteredKeepsTotals(s: State, address: u64, a: Allocation, replaced: nat)
    requires TotalsBalance(s, replaced) && address !in s.live && address != 0
    ensures TotalsBalance(Entered(s, address, a), replaced)
  {
    SumsFollow(s.tags, a.tag, Entered(s, address, a).tags[a.tag], s.total, s.deallocated, s.totalBytes, 1, 0, a.size);
    CountsAfterEntry(s.live, s.active, s.total, s.deallocated, replaced, address, a);
  }

  lemma DeallocationKeepsTotals(s: State, t: Tag, replaced: nat)
    requires TotalsBalance(s, replaced + 1) && t in s.tags
    ensures TotalsBalance(s.(deallocated := Plus64(s.deallocated, 1),
                             tags := s.tags[t := s.tags[t].(deallocations := Plus64(s.tags[t].deallocations, 1))]),
                          replaced)
  {
    var stats := s.tags[t].(deallocations := Plus64(s.tags[t].deallocations, 1));
    SumsFollow(s.tags, t, stats, s.total, s.deallocated, s.totalBytes, 0, 1, 0);
    CountsAfterRelease(s.live, s.active, s.total, s.deallocated, replaced);
  }

  function MoreReplaced(s: State, op: Op, replaced: nat): nat {
    if op.Reset? then 0 else replaced + (if TakesOver(s, op) then 1 else 0)
  }

  lemma ReleasedKeepsTotals(s: State, op: Op, replaced: nat)
    requires TotalsBalance(s, replaced) && op.Release?
    ensures TotalsBalance(Step(s, op), MoreReplaced(s, op, replaced))
  {
    if s.tracking && op.address != 0 && op.address in s.live {
      VacatedKeepsTotals(s, op.address, replaced);
      DeallocationKeepsTotals(Vacated(s, op.address), s.live[op.address].tag, replaced);
    }
  }

  lemma AllocatedKeepsTotals(s: State, op: Op, replaced: nat)
    requires TotalsBalance(s, replaced) && op.Allocate?
    ensures TotalsBalance(Step(s, op), MoreReplaced(s, op, replaced))
  {
    if s.tracking && op.address != 0 && op.size != 0 {
      var a := Allocation(op.size, op.tag, op.owner, Plus64(s.nextId, 1));
      if op.address in s.live {
        VacatedKeepsTotals(s, op.address, replaced);
        EnteredKeepsTotals(Vacated(s, op.address).(nextId := a.id), op.address, a, replaced + 1);
      } else {
        EnteredKeepsTotals(s.(nextId := a.id), op.address, a, replaced);
      }
    }
  }

  lemma ResetBalances(tracking: bool)
    ensures TotalsBalance(INITIAL.(tracking := tracking), 0)
  {
  }

  lemma TrackKeepsTotals(s: State, op: Op, replaced: nat)
    requires TotalsBalance(s, replaced) && op.Track?
    ensures TotalsBalance(Step(s, op), MoreReplaced(s, op, replaced))
  {
  }

  lemma StepKeepsTotals(s: State, op: Op, replaced: nat)
    requires TotalsBalance(s, replaced)
    ensures TotalsBalance(Step(s, op), MoreReplaced(s, op, replaced))
  {
    if op.Allocate? {
      AllocatedKeepsTotals(s, op, replaced);
    } else if op.Release? {
      ReleasedKeepsTotals(s, op, replaced);
    } else if op.Track? {
      TrackKeepsTotals(s, op, replaced);
    } else {
      ResetBalances(s.tracking);
    }
  }

  /** Over every history, wrap-around included: active count is the number of live allocations,
      each total is the wrapped sum of its per-tag parts, and registrations are conserved. */
  lemma {:induction false} EveryHistoryBalances(ops: seq<Op>)
    ensures TotalsBalance(After(ops), Replacements(ops))
  {
    if ops == [] {
      ResetBalances(true);
    } else {
      var front := ops[..|ops| - 1];
      EveryHistoryBalances(front);
      StepKeepsTotals(After(front), ops[|ops| - 1], Replacements(front));
    }
  }

  // ---------- what each operation does ----------

  predicate Effective(s: State, address: u64, size: u64) {
    s.tracking && address != 0 && size != 0
  }

  /** Nothing else in the live map moves. */
  ghost predicate OthersStay(live: map<u64, Allocation>, after: map<u64, Allocation>, address: u64) {
    forall k :: k != address ==> (k in after <==> k in live) && (k in live ==> after[k] == live[k])
  }

  ghost predicate OtherTagsStay(tags: map<Tag, TagStats>, after: map<Tag, TagStats>, changed: set<Tag>) {
    forall t :: t !in changed ==> (t in after <==> t in tags) && (t in tags ==> after[t] == tags[t])
  }

  /** Taking from a counter and then adding to it. */
  lemma Moves(x: u64, taken: u64, added: u64)
    ensures Plus64(Minus64(x, taken), added) == (x - taken + added) % TWO64
    ensures Minus64(x, taken) == (x - taken) % TWO64 && Plus64(x, added) == (x + added) % TWO64
  {
  }

  lemma AllocatedCounts(s: State, address: u64, size: u64, tag: Tag, owner: string)
    requires Effective(s, address, size)
    ensures var s' := Allocated(s, address, size, tag, owner);
            && s'.nextId == (s.nextId + 1) % TWO64 && s'.total == (s.total + 1) % TWO64
            && s'.totalBytes == (s.totalBytes + size) % TWO64
  {
    Moves(s.total, 0, 1);
    Moves(s.totalBytes, 0, size);
    Moves(s.nextId, 0, 1);
  }

  lemma AllocatedInUse(s: State, address: u64, size: u64, tag: Tag, owner: string)
    requires Effective(s, address, size)
    ensures var s' := Allocated(s, address, size, tag, owner);
            var gone := if address in s.live then s.live[address].size else 0;
            && s'.active == (s.active - (if address in s.live then 1 else 0) + 1) % TWO64
            && s'.bytesInUse == (s.bytesInUse - gone + size) % TWO64
            && s'.peak == if s.peak >= s'.bytesInUse then s.peak else s'.bytesInUse
  {
    if address in s.live {
      Moves(s.bytesInUse, s.live[address].size, size);
      Moves(s.active, 1, 1);
    } else {
      Moves(s.bytesInUse, 0, size);
      Moves(s.active, 0, 1);
    }
  }

  /** A registration makes the address live with the size, tag and owner given and the next id, in
      place of what was live there, and moves each counter by what that adds and takes. */
  lemma AllocatedEffect(s: State, address: u64, size: u64, tag: Tag, owner: string)
    ensures !Effective(s, address, size) ==> Allocated(s, address, size, tag, owner) == s
    ensures Effective(s, address, size) ==>
              var s' := Allocated(s, address, size, tag, owner);
              var gone := if address in s.live then s.live[address].size else 0;
              && address in s'.live && OthersStay(s.live, s'.live, address)
              && s'.live[address] == Allocation(size, tag, owner, s'.nextId) && s'.nextId == (s.nextId + 1) % TWO64
              && s'.total == (s.total + 1) % TWO64 && s'.totalBytes == (s.totalBytes + size) % TWO64
              && s'.active == (s.active - (if address in s.live then 1 else 0) + 1) % TWO64
              && s'.bytesInUse == (s.bytesInUse - gone + size) % TWO64
              && s'.peak == (if s.peak >= s'.bytesInUse then s.peak else s'.bytesInUse)
              && s'.deallocated == s.deallocated && s'.tracking == s.tracking
  {
    if Effective(s, address, size) {
      AllocatedCounts(s, address, size, tag, owner);
      AllocatedInUse(s, address, size, tag, owner);
    }
  }

  /** A tag's statistics once an allocation is gone. */
  function StatsAfter(s: State, gone: Allocation, t: Tag): TagStats {
    var was := StatsOf(s, t);
    if t != gone.tag then was
    else was.(bytesInUse := if was.bytesInUse >= gone.size then was.bytesInUse - gone.size else 0)
  }

  /** A tag's statistics with one more registration. */
  function Entering(was: TagStats, size: u64): TagStats {
    var bytes := (was.bytesInUse + size) % TWO64;
    TagStats((was.allocations + 1) % TWO64, was.deallocations, bytes, if was.peak >= bytes then was.peak else bytes,
             (was.totalBytes + size) % TWO64)
  }

  lemma EnteringMeaning(was: TagStats, size: u64)
    ensures var bytes := Plus64(was.bytesInUse, size);
            Entering(was, size) == TagStats(Plus64(was.allocations, 1), was.deallocations, bytes,
                                            Max(was.peak, bytes), Plus64(was.totalBytes, size))
  {
    Moves(was.bytesInUse, 0, size);
    Moves(was.allocations, 0, 1);
    Moves(was.totalBytes, 0, size);
  }

  /** Its tag counts one more registration and the bytes; the tag of what was live there loses its
      bytes, down to zero at the lowest. */
  lemma AllocatedTags(s: State, address: u64, size: u64, tag: Tag, owner: string)
    requires Effective(s, address, size)
    ensures var s' := Allocated(s, address, size, tag, owner);
            var gone := if address in s.live then s.live[address] else Allocation(0, tag, owner, 0);
            && OtherTagsStay(s.tags, s'.tags, {tag, gone.tag})
            && tag in s'.tags && s'.tags[tag] == Entering(StatsAfter(s, gone, tag), size)
            && (gone.tag != tag ==> gone.tag in s'.tags && s'.tags[gone.tag] == StatsAfter(s, gone, gone.tag))
  {
    var gone := if address in s.live then s.live[address] else Allocation(0, tag, owner, 0);
    EnteringMeaning(StatsAfter(s, gone, tag), size);
  }

  /** A release of a live address takes exactly it out of the map, and its size out of the bytes in
      use and its tag's; one allocation fewer is active and one more released, in all and for the tag.
      Without tracking, or of an address that is not live, it changes nothing. */
  lemma ReleasedEffect(s: State, address: u64)
    ensures !(s.tracking && address != 0 && address in s.live) ==> Released(s, address) == s
    ensures s.tracking && address != 0 && address in s.live ==>
              var s', gone := Released(s, address), s.live[address];
              var was := StatsOf(s, gone.tag);
              && address !in s'.live && OthersStay(s.live, s'.live, address)
              && s'.active == (s.active - 1) % TWO64 && s'.deallocated == (s.deallocated + 1) % TWO64
              && s'.bytesInUse == (s.bytesInUse - gone.size) % TWO64
              && OtherTagsStay(s.tags, s'.tags, {gone.tag}) && gone.tag in s'.tags
              && s'.tags[gone.tag] ==
                   was.(deallocations := (was.deallocations + 1) % TWO64,
                        bytesInUse := if was.bytesInUse >= gone.size then was.bytesInUse - gone.size else 0)
              && s'.tracking == s.tracking && s'.nextId == s.nextId && s'.total == s.total
              && s'.totalBytes == s.totalBytes && s'.peak == s.peak
  {
  }

  // ---------- what is live after a history ----------

  /** Tracking is on unless it was last switched off; a reset does not touch the switch. */
  ghost predicate TracksAt(ops: seq<Op>, i: nat)
    requires i <= |ops|
  {
    || (forall k :: 0 <= k < i ==> !ops[k].Track?)
    || (exists k :: 0 <= k < i && ops[k] == Track(true) && forall j :: k < j < i ==> !ops[j].Track?)
  }

  lemma {:induction false} TrackingMeaning(ops: seq<Op>, i: nat)
    requires i <= |ops|
    ensures After(ops[..i]).tracking <==> TracksAt(ops, i)
  {
    if i > 0 {
      TrackingMeaning(ops, i - 1);
      assert ops[..i][..i - 1] == ops[..i - 1];
      if ops[i - 1].Track? {
        assert ops[i - 1] == Track(true) <==> TracksAt(ops, i);
      } else {
        assert TracksAt(ops, i) <==> TracksAt(ops, i - 1);
      }
    }
  }

  /** Operation `i` registers the address, for as long as nothing later does or ends it. */
  ghost predicate Registers(ops: seq<Op>, i: nat, address: u64) {
    i < |ops| && ops[i].Allocate? && ops[i].address == address && address != 0 && ops[i].size != 0 && TracksAt(ops, i)
  }

  ghost predicate Ends(ops: seq<Op>, i: nat, address: u64) {
    i < |ops| && (ops[i] == Reset || (ops[i] == Release(address) && TracksAt(ops, i)))
  }

  ghost predicate LiveSince(ops: seq<Op>, i: nat, address: u64) {
    Registers(ops, i, address) && forall j :: i < j < |ops| ==> !Registers(ops, j, address) && !Ends(ops, j, address)
  }

  lemma OneMoreOp(front: seq<Op>, op: Op, address: u64, i: nat)
    requires i < |front|
    ensures Registers(front + [op], i, address) == Registers(front, i, address)
    ensures Ends(front + [op], i, address) == Ends(front, i, address)
  {
    var ops := front + [op];
    assert forall k :: 0 <= k < i ==> ops[k] == front[k];
    assert TracksAt(ops, i) == TracksAt(front, i);
  }

  lemma SinceGrows(front: seq<Op>, op: Op, address: u64, i: nat)
    requires i < |front|
    ensures LiveSince(front + [op], i, address) <==>
            LiveSince(front, i, address)
            && !Registers(front + [op], |front|, address) && !Ends(front + [op], |front|, address)
  {
    forall j | i <= j < |front|
      ensures Registers(front + [op], j, address) == Registers(front, j, address)
      ensures Ends(front + [op], j, address) == Ends(front, j, address)
    {
      OneMoreOp(front, op, address, j);
    }
  }

  ghost predicate RecordedBy(a: Allocation, op: Op) {
    op.Allocate? && a.size == op.size && a.tag == op.tag && a.owner == op.owner
  }

  /** What one operation does to one address. */
  lemma StepLive(s: State, op: Op, address: u64)
    ensures var registers := op.Allocate? && op.address == address && Effective(s, address, op.size);
            var ends := op == Reset || (op == Release(address) && s.tracking && address != 0);
            && (registers ==> address in Step(s, op).live && RecordedBy(Step(s, op).live[address], op))
            && (ends ==> address !in Step(s, op).live)
            && (!registers && !ends ==>
                  (address in Step(s, op).live <==> address in s.live) &&
                  (address in s.live ==> Step(s, op).live[address] == s.live[address]))
  {
    match op {
      case Allocate(a, size, tag, owner) => AllocatedEffect(s, a, size, tag, owner);
      case Release(a) => ReleasedEffect(s, a);
      case _ =>
    }
  }

  /** Over every history: an address is live exactly when some registration of it was neither released,
      replaced nor reset since, and then with that registration's size, tag and owner. */
  lemma {:induction false} LiveIffRegistered(ops: seq<Op>, address: u64)
    ensures address in After(ops).live <==> exists i: nat :: LiveSince(ops, i, address)
    ensures forall i: nat :: LiveSince(ops, i, address) ==>
              address in After(ops).live && RecordedBy(After(ops).live[address], ops[i])
  {
    if ops != [] {
      var n := |ops| - 1;
      var front, op := ops[..n], ops[n];
      assert ops == front + [op];
      LiveIffRegistered(front, address);
      TrackingMeaning(ops, n);
      StepLive(After(front), op, address);
      forall i: nat | i < n
        ensures LiveSince(ops, i, address) <==>
                LiveSince(front, i, address) && !Registers(ops, n, address) && !Ends(ops, n, address)
      {
        SinceGrows(front, op, address, i);
      }
      if Registers(ops, n, address) {
        assert LiveSince(ops, n, address);
      } else if !Ends(ops, n, address) && address in After(front).live {
        var i: nat :| LiveSince(front, i, address);
        assert LiveSince(ops, i, address);
      }
    }
  }

  // ---------- the class ----------

  class MemoryManager {
    var tracking: bool
    var live: map<u64, Allocation>
    var tags: map<Tag, TagStats>
    var nextId: u64
    var active: u64
    var total: u64
    var deallocated: u64
    var bytesInUse: u64
    var peak: u64
    var totalBytes: u64

    function View(): State
      reads this
    {
      State(tracking, live, tags, nextId, active, total, deallocated, bytesInUse, peak, totalBytes)
    }

    constructor ()
      ensures View() == INITIAL
    {
      tracking, live, tags, nextId, active, total := true, map[], map[], 0, 0, 0;
      deallocated, bytesInUse, peak, totalBytes := 0, 0, 0, 0;
    }

    method RegisterAllocation(address: u64, size: u64, tag: Tag, owner: string)
      modifies this
      ensures View() == Allocated(old(View()), address, size, tag, owner)
    {
      if !tracking || address == 0 || size == 0 {
        return;
      }
      nextId := Plus64(nextId, 1);
      if address in live {
        TakeOut(address);
      }
      Enter(address, Allocation(size, tag, owner, nextId));
    }

    /** The branch for an address that is already live. */
    method TakeOut(address: u64)
      requires address in live
      modifies this
      ensures View() == Vacated(old(View()), address)
    {
      var oldSize, oldTag := live[address].size, live[address].tag;
      bytesInUse := Minus64(bytesInUse, oldSize);
      active := Minus64(active, 1);
      var stats := if oldTag in tags then tags[oldTag] else NO_STATS;
      tags := tags[oldTag :=
                     stats.(bytesInUse := if stats.bytesInUse >= oldSize then stats.bytesInUse - oldSize else 0)];
      live := live - {address};
    }

    method Enter(address: u64, a: Allocation)
      modifies this
      ensures View() == Entered(old(View()), address, a)
    {
      live := live[address := a];
      active := Plus64(active, 1);
      total := Plus64(total, 1);
      totalBytes := Plus64(totalBytes, a.size);
      bytesInUse := Plus64(bytesInUse, a.size);
      UpdatePeak(bytesInUse);
      var stats := if a.tag in tags then tags[a.tag] else NO_STATS;
      var tagBytes := Plus64(stats.bytesInUse, a.size);
      tags := tags[a.tag := TagStats(Plus64(stats.allocations, 1), stats.deallocations, tagBytes,
                                     Max(stats.peak, tagBytes), Plus64(stats.totalBytes, a.size))];
    }

    method UpdatePeak(current: u64)
      modifies this`peak
      ensures peak == Max(old(peak), current)
    {
      if current > peak {
        peak := current;
      }
    }

    method RegisterDeallocation(address: u64)
      modifies this
      ensures View() == Released(old(View()), address)
    {
      if !tracking || address == 0 || address !in live {
        return;
      }
      var size, tag := live[address].size, live[address].tag;
      live := live - {address};
      active := Minus64(active, 1);
      deallocated := Plus64(deallocated, 1);
      bytesInUse := Minus64(bytesInUse, size);
      var stats := if tag in tags then tags[tag] else NO_STATS;
      tags := tags[tag := stats.(deallocations := Plus64(stats.deallocations, 1),
                                 bytesInUse := if stats.bytesInUse >= size then stats.bytesInUse - size else 0)];
    }

    method ResetStatistics()
      modifies this
      ensures View() == INITIAL.(tracking := old(tracking))
    {
      live, tags, nextId, active, total := map[], map[], 0, 0, 0;
      deallocated, bytesInUse, peak, totalBytes := 0, 0, 0, 0;
    }

    /** Every live allocation, once, in the order the hash table iterates them. */
    method FindLeaks() returns (leaks: seq<(u64, Allocation)>)
      ensures |leaks| == |live|
      ensures forall i, j :: 0 <= i < j < |leaks| ==> leaks[i].0 != leaks[j].0
      ensures forall i :: 0 <= i < |leaks| ==> leaks[i].0 in live && live[leaks[i].0] == leaks[i].1
    {
      leaks := [];
      var left := live.Keys;
      while left != {}
        invariant left <= live.Keys && |leaks| + |left| == |live|
        invariant forall i :: 0 <= i < |leaks| ==>
                    leaks[i].0 in live && leaks[i].0 !in left && live[leaks[i].0] == leaks[i].1
        invariant forall i, j :: 0 <= i < j < |leaks| ==> leaks[i].0 != leaks[j].0
        decreases left
      {
        var k :| k in left;
        leaks := leaks + [(k, live[k])];
        left := left - {k};
      }
    }
  }
}
