/** The native crossmap: canonical and runtime hashes of each build, kept as two hash maps. */
module Crossmap {
  import opened Wrappers
  import opened Machine

  datatype Key = Key(hash: u64, build: u64)

  datatype Entry = Entry(canonical: u64, runtime: u64, build: u64, name: string) {
    function CanonicalKey(): Key { Key(canonical, build) }
    function RuntimeKey(): Key { Key(runtime, build) }
  }

  datatype Stats = Stats(entries: nat, translated: nat, misses: nat, collisions: nat)

  datatype CrossmapError = NullHash(name: string) | CanonicalCollision(name: string) | RuntimeCollision(name: string)

  datatype MapState = MapState(byCanonical: map<Key, Entry>, byRuntime: map<Key, Entry>, stats: Stats)

  const EMPTY := MapState(map[], map[], Stats(0, 0, 0, 0))

  // ---------- what each operation does ----------

  function Added(s: MapState, e: Entry): (MapState, Option<CrossmapError>) {
    if e.canonical == 0 || e.runtime == 0 then (s, Some(NullHash(e.name)))
    else if e.CanonicalKey() in s.byCanonical && s.byCanonical[e.CanonicalKey()].runtime != e.runtime then
      (s.(stats := s.stats.(collisions := s.stats.collisions + 1)), Some(CanonicalCollision(e.name)))
    else if e.RuntimeKey() in s.byRuntime && s.byRuntime[e.RuntimeKey()].canonical != e.canonical then
      (s.(stats := s.stats.(collisions := s.stats.collisions + 1)), Some(RuntimeCollision(e.name)))
    else
      var c := s.byCanonical[e.CanonicalKey() := e];
      (MapState(c, s.byRuntime[e.RuntimeKey() := e], s.stats.(entries := |c|)), None)
  }

  /** Adding in order, stopping after the first failure. */
  function AddedAll(s: MapState, es: seq<Entry>): (MapState, Option<CrossmapError>)
    decreases |es|
  {
    if es == [] then (s, None)
    else
      var (s', failure) := Added(s, es[0]);
      if failure.Some? then (s', failure) else AddedAll(s', es[1..])
  }

  function Invalidated(s: MapState, build: u64): MapState {
    var c := map k | k in s.byCanonical && k.build != build :: s.byCanonical[k];
    MapState(c, map k | k in s.byRuntime && k.build != build :: s.byRuntime[k], s.stats.(entries := |c|))
  }

  function Counted(s: MapState, found: bool): MapState {
    s.(stats := if found then s.stats.(translated := s.stats.translated + 1)
                else s.stats.(misses := s.stats.misses + 1))
  }

  function RuntimeOf(s: MapState, canonical: u64, build: u64): Option<u64> {
    if Key(canonical, build) in s.byCanonical then Some(s.byCanonical[Key(canonical, build)].runtime) else None
  }

  function CanonicalOf(s: MapState, runtime: u64, build: u64): Option<u64> {
    if Key(runtime, build) in s.byRuntime then Some(s.byRuntime[Key(runtime, build)].canonical) else None
  }

  // ---------- the bijection ----------

  /** Every entry of either map sits under its own key there and under its other key in the other. */
  ghost predicate Paired(c: map<Key, Entry>, r: map<Key, Entry>) {
    && (forall k :: k in c ==> c[k].CanonicalKey() == k && c[k].RuntimeKey() in r && r[c[k].RuntimeKey()] == c[k])
    && (forall k :: k in r ==> r[k].RuntimeKey() == k && r[k].CanonicalKey() in c && c[r[k].CanonicalKey()] == r[k])
  }

  ghost predicate Inv(s: MapState) {
    && Paired(s.byCanonical, s.byRuntime)
    && (forall k :: k in s.byCanonical ==> s.byCanonical[k].canonical != 0 && s.byCanonical[k].runtime != 0)
    && s.stats.entries == |s.byCanonical| == |s.byRuntime|
  }

  /** Translation is a bijection per build, in both directions. */
  lemma TranslationsInvert(s: MapState, x: u64, y: u64, build: u64)
    requires Inv(s)
    ensures RuntimeOf(s, x, build) == Some(y) <==> CanonicalOf(s, y, build) == Some(x)
  {
  }

  lemma {:induction false} PairedSameSize(c: map<Key, Entry>, r: map<Key, Entry>)
    requires Paired(c, r)
    ensures |c| == |r|
    decreases |c|
  {
    if c == map[] {
      assert r.Keys == {};
    } else {
      var k :| k in c;
      var rk := c[k].RuntimeKey();
      assert Paired(c - {k}, r - {rk});
      PairedSameSize(c - {k}, r - {rk});
      assert |c - {k}| == |c| - 1 && |r - {rk}| == |r| - 1 by {
        assert (c - {k}).Keys == c.Keys - {k} && (r - {rk}).Keys == r.Keys - {rk};
      }
    }
  }

  lemma AddStaysPaired(c: map<Key, Entry>, r: map<Key, Entry>, e: Entry)
    requires Paired(c, r)
    requires e.CanonicalKey() in c ==> c[e.CanonicalKey()].runtime == e.runtime
    requires e.RuntimeKey() in r ==> r[e.RuntimeKey()].canonical == e.canonical
    ensures Paired(c[e.CanonicalKey() := e], r[e.RuntimeKey() := e])
  {
  }

  /** On a paired state the second collision test never fires: a free canonical key means a free
      runtime key or a runtime collision, and a taken one with the same runtime is the same pair. */
  lemma AddKeepsInv(s: MapState, e: Entry)
    requires Inv(s)
    ensures Inv(Added(s, e).0)
    ensures Added(s, e).1.None? <==>
            && e.canonical != 0 && e.runtime != 0
            && (RuntimeOf(s, e.canonical, e.build) in {None, Some(e.runtime)})
            && (CanonicalOf(s, e.runtime, e.build) in {None, Some(e.canonical)})
    ensures Added(s, e).1.None? ==> RuntimeOf(Added(s, e).0, e.canonical, e.build) == Some(e.runtime)
    ensures Added(s, e).1.Some? ==> Added(s, e).0 == s.(stats := Added(s, e).0.stats)
  {
    TranslationsInvert(s, e.canonical, e.runtime, e.build);
    var s' := Added(s, e).0;
    if Added(s, e).1.None? {
      AddStaysPaired(s.byCanonical, s.byRuntime, e);
      PairedSameSize(s'.byCanonical, s'.byRuntime);
    }
  }

  lemma InvalidateKeepsInv(s: MapState, build: u64)
    requires Inv(s)
    ensures Inv(Invalidated(s, build))
    ensures forall x, b :: RuntimeOf(Invalidated(s, build), x, b) == if b == build then None else RuntimeOf(s, x, b)
  {
    var s' := Invalidated(s, build);
    assert Paired(s'.byCanonical, s'.byRuntime) by {
      forall k | k in s'.byCanonical ensures s'.byCanonical[k].RuntimeKey() in s'.byRuntime {
        assert s.byCanonical[k].RuntimeKey().build == k.build;
      }
      forall k | k in s'.byRuntime ensures s'.byRuntime[k].CanonicalKey() in s'.byCanonical {
        assert s.byRuntime[k].CanonicalKey().build == k.build;
      }
    }
    PairedSameSize(s'.byCanonical, s'.byRuntime);
  }

  lemma {:induction false} AddAllKeepsInv(s: MapState, es: seq<Entry>)
    requires Inv(s)
    ensures Inv(AddedAll(s, es).0)
    decreases |es|
  {
    if es != [] {
      AddKeepsInv(s, es[0]);
      if Added(s, es[0]).1.None? {
        AddAllKeepsInv(Added(s, es[0]).0, es[1..]);
      }
    }
  }

  /** A failing batch leaves the entries before the first bad one added, and no other change but
      that one's collision count. */
  lemma {:induction false} FailingBatchKeepsPrefix(s: MapState, es: seq<Entry>, k: nat)
    requires k < |es|
    requires AddedAll(s, es[..k]).1.None? && Added(AddedAll(s, es[..k]).0, es[k]).1.Some?
    ensures AddedAll(s, es) == Added(AddedAll(s, es[..k]).0, es[k])
    decreases |es|
  {
    if k > 0 {
      assert es[..k][0] == es[0] && es[..k][1..] == es[1..][..k - 1];
      FailingBatchKeepsPrefix(Added(s, es[0]).0, es[1..], k - 1);
    }
  }

  /** A batch that succeeds so far takes one more entry as a single addition would; one that failed
      takes none. */
  lemma {:induction false} BatchInTurn(s: MapState, es: seq<Entry>, e: Entry)
    ensures AddedAll(s, es + [e]) ==
            if AddedAll(s, es).1.Some? then AddedAll(s, es) else Added(AddedAll(s, es).0, e)
    ensures AddedAll(s, []) == (s, None)
    decreases |es|
  {
    if es == [] {
      assert es + [e] == [e] && [e][1..] == [];
    } else {
      assert (es + [e])[1..] == es[1..] + [e];
      BatchInTurn(Added(s, es[0]).0, es[1..], e);
    }
  }

  // ---------- whole runs ----------

  datatype Op =
    | Add(e: Entry)
    | AddBatch(es: seq<Entry>)
    | Translate(hash: u64, build: u64)
    | Untranslate(hash: u64, build: u64)
    | InvalidateBuild(build: u64)
    | Clear

  function Step(s: MapState, op: Op): MapState {
    match op
    case Add(e) => Added(s, e).0
    case AddBatch(es) => AddedAll(s, es).0
    case Translate(h, b) => Counted(s, RuntimeOf(s, h, b).Some?)
    case Untranslate(h, b) => Counted(s, CanonicalOf(s, h, b).Some?)
    case InvalidateBuild(b) => Invalidated(s, b)
    case Clear => EMPTY
  }

  function After(ops: seq<Op>): MapState {
    if ops == [] then EMPTY else Step(After(ops[..|ops| - 1]), ops[|ops| - 1])
  }

  /** Every reachable crossmap is a bijection with exact entry counts. */
  lemma {:induction false} EveryRunKeepsInv(ops: seq<Op>)
    ensures Inv(After(ops))
  {
    if ops != [] {
      var s, last := After(ops[..|ops| - 1]), ops[|ops| - 1];
      EveryRunKeepsInv(ops[..|ops| - 1]);
      match last {
        case Add(e) => AddKeepsInv(s, e);
        case AddBatch(es) => AddAllKeepsInv(s, es);
        case InvalidateBuild(b) => InvalidateKeepsInv(s, b);
        case _ =>
      }
    }
  }

  // ---------- the class ----------

  class NativeCrossmap {
    var byCanonical: map<Key, Entry>
    var byRuntime: map<Key, Entry>
    var stats: Stats

    function View(): MapState
      reads this
    {
      MapState(byCanonical, byRuntime, stats)
    }

    constructor ()
      ensures View() == EMPTY
    {
      byCanonical, byRuntime, stats := map[], map[], Stats(0, 0, 0, 0);
    }

    method Add(entry: Entry) returns (failure: Option<CrossmapError>)
      modifies this
      ensures (View(), failure) == Added(old(View()), entry)
      ensures var (ck, rk) := (Key(entry.canonical, entry.build), Key(entry.runtime, entry.build));
              && failure == (if entry.canonical == 0 || entry.runtime == 0 then Some(NullHash(entry.name))
                             else if ck in old(byCanonical) && old(byCanonical)[ck].runtime != entry.runtime
                             then Some(CanonicalCollision(entry.name))
                             else if rk in old(byRuntime) && old(byRuntime)[rk].canonical != entry.canonical
                             then Some(RuntimeCollision(entry.name)) else None)
              && byCanonical == (if failure.None? then old(byCanonical)[ck := entry] else old(byCanonical))
              && byRuntime == (if failure.None? then old(byRuntime)[rk := entry] else old(byRuntime))
      ensures var s := old(stats);
              stats == match failure
                       case None => Stats(|byCanonical|, s.translated, s.misses, s.collisions)
                       case Some(NullHash(_)) => s
                       case Some(_) => Stats(s.entries, s.translated, s.misses, s.collisions + 1)
    {
      if entry.canonical == 0 || entry.runtime == 0 {
        return Some(NullHash(entry.name));
      }
      var canonical := Key(entry.canonical, entry.build);
      var runtime := Key(entry.runtime, entry.build);
      if canonical in byCanonical && byCanonical[canonical].runtime != entry.runtime {
        stats := stats.(collisions := stats.collisions + 1);
        return Some(CanonicalCollision(entry.name));
      }
      if runtime in byRuntime && byRuntime[runtime].canonical != entry.canonical {
        stats := stats.(collisions := stats.collisions + 1);
        return Some(RuntimeCollision(entry.name));
      }
      byCanonical := byCanonical[canonical := entry];
      byRuntime := byRuntime[runtime := entry];
      stats := stats.(entries := |byCanonical|);
      return None;
    }

    method AddBatch(entries: seq<Entry>) returns (failure: Option<CrossmapError>)
      modifies this
      ensures (View(), failure) == AddedAll(old(View()), entries)
    {
      assert entries[0..] == entries;
      for i := 0 to |entries|
        invariant AddedAll(old(View()), entries) == AddedAll(View(), entries[i..])
      {
        assert entries[i..][1..] == entries[i + 1..];
        failure := Add(entries[i]);
        if failure.Some? {
          return;
        }
      }
      return None;
    }

    method ToRuntime(canonical: u64, build: u64) returns (r: Option<u64>)
      modifies this`stats
      ensures r == RuntimeOf(View(), canonical, build) && View() == Counted(old(View()), r.Some?)
      ensures var (k, s) := (Key(canonical, build), old(stats));
              && r == (if k in byCanonical then Some(byCanonical[k].runtime) else None)
              && stats == if r.Some? then Stats(s.entries, s.translated + 1, s.misses, s.collisions)
                          else Stats(s.entries, s.translated, s.misses + 1, s.collisions)
    {
      if Key(canonical, build) !in byCanonical {
        stats := stats.(misses := stats.misses + 1);
        return None;
      }
      stats := stats.(translated := stats.translated + 1);
      return Some(byCanonical[Key(canonical, build)].runtime);
    }

    method ToCanonical(runtime: u64, build: u64) returns (r: Option<u64>)
      modifies this`stats
      ensures r == CanonicalOf(View(), runtime, build) && View() == Counted(old(View()), r.Some?)
      ensures var (k, s) := (Key(runtime, build), old(stats));
              && r == (if k in byRuntime then Some(byRuntime[k].canonical) else None)
              && stats == if r.Some? then Stats(s.entries, s.translated + 1, s.misses, s.collisions)
                          else Stats(s.entries, s.translated, s.misses + 1, s.collisions)
    {
      if Key(runtime, build) !in byRuntime {
        stats := stats.(misses := stats.misses + 1);
        return None;
      }
      stats := stats.(translated := stats.translated + 1);
      return Some(byRuntime[Key(runtime, build)].canonical);
    }

    method InvalidateBuild(build: u64)
      modifies this
      ensures View() == Invalidated(old(View()), build)
      ensures forall k :: k in byCanonical <==> k in old(byCanonical) && k.build != build
      ensures forall k :: k in byRuntime <==> k in old(byRuntime) && k.build != build
      ensures (forall k :: k in byCanonical ==> byCanonical[k] == old(byCanonical)[k])
              && (forall k :: k in byRuntime ==> byRuntime[k] == old(byRuntime)[k])
    {
      byCanonical := map k | k in byCanonical && k.build != build :: byCanonical[k];
      byRuntime := map k | k in byRuntime && k.build != build :: byRuntime[k];
      stats := stats.(entries := |byCanonical|);
    }

    method Clear()
      modifies this
      ensures View() == EMPTY
    {
      byCanonical, byRuntime, stats := map[], map[], Stats(0, 0, 0, 0);
    }

    /** The entries in whatever order the hash table iterates them. */
    method Snapshot() returns (es: seq<Entry>)
      requires Inv(View())
      ensures Lists(es, byCanonical)
    {
      es := [];
      var left := byCanonical.Keys;
      while left != {}
        invariant left <= byCanonical.Keys
        invariant forall i :: 0 <= i < |es| ==>
                    es[i].CanonicalKey() in byCanonical && es[i].CanonicalKey() !in left &&
                    byCanonical[es[i].CanonicalKey()] == es[i]
        invariant forall k :: k in byCanonical && k !in left ==> byCanonical[k] in es
        invariant forall i, j :: 0 <= i < j < |es| ==> es[i].CanonicalKey() != es[j].CanonicalKey()
        decreases left
      {
        var k :| k in left;
        es := es + [byCanonical[k]];
        left := left - {k};
      }
    }
  }

  /** `es` lists the entries of the canonical map, each once, in some order. */
  ghost predicate Lists(es: seq<Entry>, c: map<Key, Entry>) {
    && (forall i :: 0 <= i < |es| ==> es[i].CanonicalKey() in c && c[es[i].CanonicalKey()] == es[i])
    && (forall k :: k in c ==> c[k] in es)
    && DistinctKeys(es)
  }

  ghost predicate DistinctKeys(es: seq<Entry>) {
    forall i, j :: 0 <= i < j < |es| ==> es[i].CanonicalKey() != es[j].CanonicalKey()
  }
}
