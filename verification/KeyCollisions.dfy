/** Module names whose stable keys can meet: there, and only there, the cache hands one module's address
    to another. */
module KeyCollisions {
  import opened Wrappers
  import opened Machine
  import opened PatternCache
  import opened PatternSearch
  import opened BatchScanner
  import opened CacheTransparency
  import opened OneSectionImage
  import Scanner

  /** Where the stable keys of two modules meet, the second module's resolve answers with the address
      that the first module's resolve stored: past the fingerprint sweep, as the fingerprints are the
      same, and past the image-range test. */
  lemma CollidingResolve(scan: Scan, image1: Image, req1: Request, image2: Image, req2: Request)
    requires KeyOf(image1, req1).StableKey() == KeyOf(image2, req2).StableKey()
    requires image1.info.name != image2.info.name && image1.info.fingerprint == image2.info.fingerprint
    requires scan(image1, req1).Success? && Usable(image2, req2, scan(image1, req1).value.address)
    ensures Cached(scan, Cached(scan, map[], image1, req1).1, image2, req2).0 ==
            Success(Resolution(req2.name, scan(image1, req1).value.address, true, Scanner.NO_STATS))
  {
    var m := Cached(scan, map[], image1, req1).1;
    assert WithoutStale(map[], image1.info.name, image1.info.fingerprint) == map[];
    assert m == Stored(map[], KeyOf(image1, req1), scan(image1, req1).value.address, image1.info.base);
    assert WithoutStale(m, image2.info.name, image2.info.fingerprint) == m;
  }

  /** Ten readable bytes at address 1 in every module; the request with the empty name asks for the
      second of them, every other request for the first. */
  ghost function FirstOrSecondByte(modules: set<string>, scan: Scan): World {
    World(modules,
          (name: string, fingerprint: u64) => Image(OneSection(name, 1, 10, fingerprint), _ => 0),
          name => ByteAt(name, if name == "" then 1 else 0),
          scan)
  }

  /** The run that fills the cache: one resolve in the module `a`. */
  ghost function Resolves(modules: set<string>, scan: Scan, a: string, b: string, fingerprint: u64): seq<CacheUse>
    requires a + "::" <= b + "::"
  {
    var w := FirstOrSecondByte(modules, scan);
    [Resolving(w.images(a, fingerprint), w.requests((b + "::")[|a| + 2..]))]
  }

  /** After it, a resolve in the module `b` gives a wrong answer. */
  ghost predicate MisledBy(scan: Scan, modules: set<string>, a: string, b: string, fingerprint: u64)
    requires a + "::" <= b + "::"
  {
    var w := FirstOrSecondByte(modules, scan);
    var uses := Resolves(modules, scan, a, b, fingerprint);
    var (image, req) := (w.images(b, fingerprint), w.requests(""));
    && AllKnown(w, uses) && Known(w, image, req)
    && !AnswersAlike(After(scan, map[], uses), w, image, req)
  }

  lemma SameLengthSameName(a: string, b: string)
    requires a + "::" <= b + "::"
    ensures |a| <= |b| && (|a| == |b| ==> a == b)
  {
    if |a| == |b| {
      assert a == (a + "::")[..|a|] == (b + "::")[..|a|] == b;
    }
  }

  lemma CollisionMisleads(scan: Scan, modules: set<string>, a: string, b: string, fingerprint: u64)
    requires FindsBytes(scan)
    requires a in modules && b in modules && a != b && a + "::" <= b + "::"
    ensures MisledBy(scan, modules, a, b, fingerprint)
  {
    var w := FirstOrSecondByte(modules, scan);
    var n := (b + "::")[|a| + 2..];
    var image1, image2, req1, req2 := w.images(a, fingerprint), w.images(b, fingerprint), w.requests(n), w.requests("");
    SameLengthSameName(a, b);
    CollisionWitness(a, b);
    assert FindsByte(scan, image1, n, 0) && FindsByte(scan, image2, "", 1);
    CollidingResolve(scan, image1, req1, image2, req2);
    var uses := Resolves(modules, scan, a, b, fingerprint);
    assert uses[..0] == [];
    assert After(scan, map[], uses) == Cached(scan, map[], image1, req1).1;
  }

  /** For the real scan: wherever two stable keys meet there is a run of one resolve after which a
      resolve in the other module gives a wrong address. */
  lemma ForeignAnswer(scan: Scan, modules: set<string>, a: string, b: string, fingerprint: u64)
    requires scan == Search
    requires a in modules && b in modules && a != b && a + "::" <= b + "::"
    ensures MisledBy(scan, modules, a, b, fingerprint)
  {
    SearchFindsBytes(scan);
    CollisionMisleads(scan, modules, a, b, fingerprint);
  }

  /** Every cache that resolves and removals can have filled, in any world of these modules, leaves
      every answer alone. */
  ghost predicate RunsStayTransparent(scan: Scan, modules: set<string>) {
    forall w: World, uses ::
      w.modules == modules && w.scan == scan && AllKnown(w, uses) ==> Transparent(After(scan, map[], uses), w)
  }

  ghost predicate AgreeingAreTransparent(scan: Scan, modules: set<string>) {
    forall w: World, m :: w.modules == modules && w.scan == scan && Agrees(m, w) ==> Transparent(m, w)
  }

  lemma UnambiguousIsEnough(scan: Scan, modules: set<string>)
    requires Unambiguous(modules)
    ensures AgreeingAreTransparent(scan, modules)
  {
    forall w: World, m | w.modules == modules && w.scan == scan && Agrees(m, w) ensures Transparent(m, w) {
      AgreeingIsHarmless(m, w);
      forall image, req | Known(w, image, req) ensures AnswersAlike(m, w, image, req) {
        CachedIsTransparent(m, w, image, req);
      }
    }
  }

  lemma FilledAgree(scan: Scan, modules: set<string>)
    requires AgreeingAreTransparent(scan, modules)
    ensures RunsStayTransparent(scan, modules)
  {
    forall w: World, uses | w.modules == modules && w.scan == scan && AllKnown(w, uses)
      ensures Transparent(After(scan, map[], uses), w)
    {
      RunsAgree(map[], w, uses);
    }
  }

  lemma UnambiguousIsNeeded(scan: Scan, modules: set<string>)
    requires FindsBytes(scan) && !Unambiguous(modules)
    ensures !RunsStayTransparent(scan, modules)
  {
    var a, b :| a in modules && b in modules && a != b && a + "::" <= b + "::";
    CollisionMisleads(scan, modules, a, b, 0);
    var w := FirstOrSecondByte(modules, scan);
    var uses := Resolves(modules, scan, a, b, 0);
    assert w.modules == modules && w.scan == scan && AllKnown(w, uses);
    assert !Transparent(After(scan, map[], uses), w);
  }

  /** For the real scan, over all worlds of a set of modules: every cache that a run fills, and every
      cache of scanned addresses, is transparent exactly when the module names are unambiguous. */
  lemma TransparentIffUnambiguous(scan: Scan, modules: set<string>)
    requires scan == Search
    ensures RunsStayTransparent(scan, modules) <==> Unambiguous(modules)
    ensures AgreeingAreTransparent(scan, modules) <==> Unambiguous(modules)
  {
    SearchFindsBytes(scan);
    TransparentIffUnambiguousFor(scan, modules);
  }

  lemma TransparentIffUnambiguousFor(scan: Scan, modules: set<string>)
    requires FindsBytes(scan)
    ensures RunsStayTransparent(scan, modules) <==> Unambiguous(modules)
    ensures AgreeingAreTransparent(scan, modules) <==> Unambiguous(modules)
  {
    if Unambiguous(modules) {
      UnambiguousIsEnough(scan, modules);
    }
    if AgreeingAreTransparent(scan, modules) {
      FilledAgree(scan, modules);
    }
    if !Unambiguous(modules) {
      UnambiguousIsNeeded(scan, modules);
    }
  }
}
