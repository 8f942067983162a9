/** The pattern cache: absolute addresses keyed by module and pattern name. */
module PatternCache {
  import opened Wrappers
  import opened Machine

  datatype CacheKey = CacheKey(moduleName: string, name: string, fingerprint: u64) {
    function StableKey(): string {
      KeyText(moduleName, name)
    }
  }

  function KeyText(moduleName: string, name: string): string {
    moduleName + "::" + name
  }

  datatype CacheEntry = CacheEntry(key: CacheKey, address: u64, moduleBase: u64, relativeOffset: u64, hits: u64)

  type Entries = map<string, CacheEntry>

  // ---------- what each operation does to the entries ----------

  function NewEntry(key: CacheKey, address: u64, moduleBase: u64): CacheEntry {
    CacheEntry(key, address, moduleBase, if address >= moduleBase then address - moduleBase else 0, 0)
  }

  function Stored(m: Entries, key: CacheKey, address: u64, moduleBase: u64): Entries {
    m[key.StableKey() := NewEntry(key, address, moduleBase)]
  }

  predicate Present(m: Entries, key: CacheKey) {
    key.StableKey() in m && m[key.StableKey()].key.fingerprint == key.fingerprint
  }

  function Lookup(m: Entries, key: CacheKey): Option<u64> {
    if Present(m, key) then Some(m[key.StableKey()].address) else None
  }

  function Touched(m: Entries, key: CacheKey): Entries {
    if Present(m, key)
    then var e := m[key.StableKey()]; m[key.StableKey() := e.(hits := Wrap64(e.hits + 1))]
    else m
  }

  function Erased(m: Entries, moduleName: string, name: string): Entries {
    m - {KeyText(moduleName, name)}
  }

  function WithoutModule(m: Entries, moduleName: string): Entries {
    map k | k in m && m[k].key.moduleName != moduleName :: m[k]
  }

  function WithoutStale(m: Entries, moduleName: string, validFingerprint: u64): Entries {
    map k | k in m && !(m[k].key.moduleName == moduleName && m[k].key.fingerprint != validFingerprint) :: m[k]
  }

  /** Every entry sits under its own stable key, with the offset that `Store` derives. */
  ghost predicate WellKeyed(m: Entries) {
    forall k :: k in m ==>
      && m[k].key.StableKey() == k
      && m[k].relativeOffset == NewEntry(m[k].key, m[k].address, m[k].moduleBase).relativeOffset
  }

  /** `es` lists the entries of `m`, each once, in some order. */
  ghost predicate Lists(es: seq<CacheEntry>, m: Entries) {
    && (forall e :: e in es ==> e.key.StableKey() in m && m[e.key.StableKey()] == e)
    && (forall k :: k in m ==> m[k] in es)
    && (forall i, j :: 0 <= i < j < |es| ==> es[i].key.StableKey() != es[j].key.StableKey())
  }

  // ---------- when the stable key is injective ----------

  lemma {:induction false} PrefixShapes(a: string, b: string, x: string, y: string)
    requires a + x == b + y && |a| <= |b|
    ensures a <= b
  {
    assert a == (a + x)[..|a|] == (b + y)[..|a|] == b[..|a|];
  }

  /** Two different modules can produce the same stable key for some pattern names exactly when
      one module name with its separator starts the other with its separator. */
  lemma CollisionCondition(m1: string, m2: string)
    requires m1 != m2
    ensures (exists n1, n2 :: KeyText(m1, n1) == KeyText(m2, n2)) <==> m1 + "::" <= m2 + "::" || m2 + "::" <= m1 + "::"
  {
    forall n1, n2 | KeyText(m1, n1) == KeyText(m2, n2)
      ensures m1 + "::" <= m2 + "::" || m2 + "::" <= m1 + "::"
    {
      assert (m1 + "::") + n1 == (m2 + "::") + n2;
      if |m1| <= |m2| {
        PrefixShapes(m1 + "::", m2 + "::", n1, n2);
      } else {
        PrefixShapes(m2 + "::", m1 + "::", n2, n1);
      }
    }
    if m1 + "::" <= m2 + "::" {
      CollisionWitness(m1, m2);
    } else if m2 + "::" <= m1 + "::" {
      CollisionWitness(m2, m1);
    }
  }

  lemma CollisionWitness(m1: string, m2: string)
    requires m1 + "::" <= m2 + "::"
    ensures KeyText(m1, (m2 + "::")[|m1| + 2..]) == KeyText(m2, "")
  {
  }

  /** Such a collision hands out an address stored for another module. */
  lemma CollisionServesForeignAddress(m: Entries, m1: string, m2: string, fingerprint: u64, address: u64, base: u64)
    requires m1 != m2 && m1 + "::" <= m2 + "::"
    ensures exists n1, n2 ::
              Lookup(Stored(m, CacheKey(m1, n1, fingerprint), address, base), CacheKey(m2, n2, fingerprint)) ==
                Some(address)
  {
    CollisionWitness(m1, m2);
    var k1, k2 := CacheKey(m1, (m2 + "::")[|m1| + 2..], fingerprint), CacheKey(m2, "", fingerprint);
    assert k1.StableKey() == k2.StableKey();
    assert Lookup(Stored(m, k1, address, base), k2) == Some(address);
  }

  /** Module names whose stable keys never meet. */
  ghost predicate Unambiguous(modules: set<string>) {
    forall a, b :: a in modules && b in modules && a != b ==> !(a + "::" <= b + "::")
  }

  lemma StableKeyInjective(modules: set<string>, k1: CacheKey, k2: CacheKey)
    requires Unambiguous(modules) && k1.moduleName in modules && k2.moduleName in modules
    requires k1.StableKey() == k2.StableKey()
    ensures k1.moduleName == k2.moduleName && k1.name == k2.name
  {
    var m1, m2 := k1.moduleName, k2.moduleName;
    if m1 != m2 {
      assert KeyText(m1, k1.name) == KeyText(m2, k2.name);
      CollisionCondition(m1, m2);
    }
    assert k1.name == k1.StableKey()[|m1| + 2..];
    assert k2.name == k2.StableKey()[|m2| + 2..];
  }

  lemma PrefixNeedsColon(a: string, b: string)
    requires a + "::" <= b + "::"
    ensures a == b || ':' in b
  {
    var x, y := a + "::", b + "::";
    assert x[|a|] == y[|a|] == ':';
    if |a| == |b| {
      assert a == x[..|a|] && b == y[..|a|];
    } else {
      assert y[|a|] == b[|a|];
    }
  }

  /** File names without a colon are unambiguous. */
  lemma ColonFreeIsUnambiguous(modules: set<string>)
    requires forall a :: a in modules ==> ':' !in a
    ensures Unambiguous(modules)
  {
    forall a, b | a in modules && b in modules && a != b
      ensures !(a + "::" <= b + "::")
    {
      if a + "::" <= b + "::" {
        PrefixNeedsColon(a, b);
      }
    }
  }

  // ---------- entry by entry ----------

  /** Every entry but the one under this key stays as it is. */
  ghost predicate OthersStay(before: Entries, after: Entries, k: string) {
    forall x :: x != k ==> (x in after <==> x in before) && (x in before ==> after[x] == before[x])
  }

  // ---------- the class ----------

  class PatternCache {
    var entries: Entries

    ghost predicate Valid()
      reads this
    {
      WellKeyed(entries)
    }

    constructor ()
      ensures Valid() && entries == map[]
    {
      entries := map[];
    }

    method Store(key: CacheKey, address: u64, moduleBase: u64)
      requires Valid()
      modifies this
      ensures Valid() && entries == Stored(old(entries), key, address, moduleBase)
      ensures var k := key.moduleName + "::" + key.name;
              && k in entries && OthersStay(old(entries), entries, k)
              && entries[k].key == key && entries[k].address == address && entries[k].moduleBase == moduleBase
              && entries[k].hits == 0
              && entries[k].relativeOffset == if address < moduleBase then 0 else address - moduleBase
    {
      var offset := if address >= moduleBase then address - moduleBase else 0;
      entries := entries[key.StableKey() := CacheEntry(key, address, moduleBase, offset, 0)];
    }

    method Find(key: CacheKey) returns (r: Option<u64>)
      requires Valid()
      modifies this
      ensures Valid() && r == Lookup(old(entries), key) && entries == Touched(old(entries), key)
      ensures var k := key.moduleName + "::" + key.name;
              && OthersStay(old(entries), entries, k) && (k in entries <==> k in old(entries))
              && (r.Some? <==> k in old(entries) && old(entries)[k].key.fingerprint == key.fingerprint)
              && (r.Some? ==> r.value == old(entries)[k].address &&
                              entries[k] == old(entries)[k].(hits := (old(entries)[k].hits + 1) % TWO64))
              && (r.None? ==> entries == old(entries))
    {
      var k := key.StableKey();
      if k !in entries || entries[k].key.fingerprint != key.fingerprint {
        return None;
      }
      entries := entries[k := entries[k].(hits := Wrap64(entries[k].hits + 1))];
      return Some(entries[k].address);
    }

    method Contains(key: CacheKey) returns (r: bool)
      ensures r <==> Lookup(entries, key).Some?
      ensures r <==> exists k :: k == key.moduleName + "::" + key.name && k in entries &&
                                 entries[k].key.fingerprint == key.fingerprint
    {
      var k := key.StableKey();
      return k in entries && entries[k].key.fingerprint == key.fingerprint;
    }

    method Invalidate(moduleName: string, name: string)
      requires Valid()
      modifies this
      ensures Valid() && entries == Erased(old(entries), moduleName, name)
      ensures moduleName + "::" + name !in entries && OthersStay(old(entries), entries, moduleName + "::" + name)
    {
      entries := entries - {KeyText(moduleName, name)};
    }

    method InvalidateModule(moduleName: string)
      requires Valid()
      modifies this
      ensures Valid() && entries == WithoutModule(old(entries), moduleName)
      ensures forall k :: k in entries <==> k in old(entries) && old(entries)[k].key.moduleName != moduleName
      ensures forall k :: k in entries ==> entries[k] == old(entries)[k]
    {
      entries := map k | k in entries && entries[k].key.moduleName != moduleName :: entries[k];
    }

    method InvalidateFingerprint(moduleName: string, validFingerprint: u64)
      requires Valid()
      modifies this
      ensures Valid() && entries == WithoutStale(old(entries), moduleName, validFingerprint)
      ensures forall k :: k in entries <==>
                (k in old(entries) && (old(entries)[k].key.moduleName == moduleName ==>
                                         old(entries)[k].key.fingerprint == validFingerprint))
      ensures forall k :: k in entries ==> entries[k] == old(entries)[k]
    {
      entries := map k | k in entries &&
        !(entries[k].key.moduleName == moduleName && entries[k].key.fingerprint != validFingerprint) :: entries[k];
    }

    method Clear()
      modifies this
      ensures Valid() && entries == map[]
    {
      entries := map[];
    }

    /** The entries in an arbitrary order, as the hash table iterates them. */
    method Snapshot() returns (es: seq<CacheEntry>)
      requires Valid()
      ensures Lists(es, entries)
    {
      es := [];
      var left := entries.Keys;
      while left != {}
        invariant left <= entries.Keys
        invariant forall e :: e in es ==>
                    var k := e.key.StableKey(); k in entries && k !in left && entries[k] == e
        invariant forall k :: k in entries && k !in left ==> entries[k] in es
        invariant forall i, j :: 0 <= i < j < |es| ==> es[i].key.StableKey() != es[j].key.StableKey()
        decreases left
      {
        var k :| k in left;
        assert forall i :: 0 <= i < |es| ==> es[i] in es;
        es := es + [entries[k]];
        left := left - {k};
      }
    }
  }
}
