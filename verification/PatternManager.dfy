/** The pattern manager: parallel resolution on a worker pool, with the cache file around it. */
module PatternManager {
  import opened Wrappers
  import opened Machine
  import opened PatternCache
  import opened PatternSearch
  import opened BatchScanner
  import Scanner
  import opened CachePersistence
  import CarriedCache
  import opened CacheTransparency
  import opened ParallelJobs
  import opened UndisturbedJobs

  class PatternManager {
    const cache: PatternCache
    const scan: Scan
    ghost const world: World

    /** What every operation needs and keeps, whatever the entries say. */
    ghost predicate Ready()
      reads cache
    {
      cache.Valid() && world.scan == scan && Unambiguous(world.modules) && Housed(cache.entries, world)
    }

    ghost predicate Valid()
      reads cache
    {
      Ready() && Harmless(cache.entries, world)
    }

    constructor (cache: PatternCache, ghost world: World)
      ensures this.cache == cache && this.scan == Search && this.world == world
    {
      this.cache := cache;
      this.scan := Search;
      this.world := world;
    }

    /** One locked region, or one stretch of lock-free scanning, of a worker. */
    method RunJobStep(image: Image, req: Request, job: Job) returns (next: Job)
      requires cache.Valid() && !job.Done?
      modifies cache
      ensures cache.Valid() && (cache.entries, next) == StepJob(scan, old(cache.entries), image, req, job)
    {
      match job {
        case Waiting =>
          cache.InvalidateFingerprint(image.info.name, image.info.fingerprint);
          next := Swept;
        case Swept =>
          var found := cache.Find(KeyOf(image, req));
          next := Looked(found);
        case Looked(Some(a)) =>
          next := if Usable(image, req, a) then Done(Success(Resolution(req.name, a, true, Scanner.NO_STATS)))
                  else Rejected;
        case Rejected =>
          cache.Invalidate(image.info.name, req.name);
          next := Looked(None);
        case Looked(None) =>
          var found := scan(image, req);
          next := if found.Failure? then Done(Failure(found.error)) else Scanned(found.value);
        case Scanned(f) =>
          cache.Store(KeyOf(image, req), f.address, image.info.base);
          next := Done(Success(Fresh(req, f)));
      }
    }

    /** One step of job `i`, or its exception. */
    method AdvanceJob(b: Batch, jobs: seq<Job>, i: nat, early: bool) returns (next: seq<Job>)
      requires Ready() && RequestsKnown(world, b) && |jobs| == |b.requests| && i < |jobs| && !jobs[i].Done?
      modifies cache
      ensures Ready()
      ensures var after := AfterJob(scan, System(old(cache.entries), jobs, [], None), b, i, early);
              next == after.jobs && cache.entries == after.cache
      ensures WithoutModule(cache.entries, b.image.info.name) == WithoutModule(old(cache.entries), b.image.info.name)
    {
      JobStepKeepsOthers(cache.entries, world, b.image, b.requests[i], jobs[i]);
      if i in b.throws && (early || StepJob(scan, cache.entries, b.image, b.requests[i], jobs[i]).1.Done?) {
        return jobs[i := Done(Thrown(b.requests[i]))];
      }
      var job := RunJobStep(b.image, b.requests[i], jobs[i]);
      next := jobs[i := job];
    }

    /** One turn of the gathering loop. */
    method GatherNext(jobs: seq<Job>, gathered: seq<Resolution>)
        returns (more: seq<Resolution>, answer: Option<Answer>)
      requires |gathered| < |jobs| ==> jobs[|gathered|].Done?
      ensures System(map[], jobs, more, answer) == AfterGather(System(map[], jobs, gathered, None))
    {
      var k := |gathered|;
      if k >= |jobs| {
        return gathered, Some(Success(gathered));
      }
      if jobs[k].result.Failure? {
        return gathered, Some(Failure(jobs[k].result.error));
      }
      return gathered + [jobs[k].result.value], None;
    }

    /** What the loops below keep: sane, harmless if it was trusted, on the way to what the cache at the
        start of the call calls for, and some work left. */
    ghost predicate Going(b: Batch, start: Entries, trusted: bool, s: System) {
      Sane(scan, b, s) && (trusted ==> Inv(world, b, s)) && OnTrack(scan, start, b, s) && 0 <= Work(s)
    }

    /** Any worker with an unfinished job makes a step. */
    method SomeWorker(b: Batch, jobs: seq<Job>, ghost gathered: seq<Resolution>, ghost start: Entries,
                      ghost trusted: bool)
        returns (next: seq<Job>)
      requires Ready() && RequestsKnown(world, b) && exists i :: 0 <= i < |jobs| && !jobs[i].Done?
      requires Going(b, start, trusted, System(cache.entries, jobs, gathered, None))
      modifies cache
      ensures Ready() && Going(b, start, trusted, System(cache.entries, next, gathered, None))
      ensures Work(System(cache.entries, next, gathered, None)) <
              Work(System(old(cache.entries), jobs, gathered, None))
      ensures WithoutModule(cache.entries, b.image.info.name) == WithoutModule(old(cache.entries), b.image.info.name)
    {
      ghost var s := System(cache.entries, jobs, gathered, None);
      var i :| 0 <= i < |jobs| && !jobs[i].Done?;
      var early: bool := *;
      JobStep(world, b, s, i, early);
      KnownNamesDecide(world, b);
      JobKeepsOnTrack(scan, start, b, s, i, early);
      next := AdvanceJob(b, jobs, i, early);
      assert System(cache.entries, next, gathered, None) == AfterJob(scan, s, b, i, early);
    }

    /** An arbitrary scheduler picks a worker or the gathering loop. */
    method Turn(b: Batch, jobs: seq<Job>, gathered: seq<Resolution>, ghost start: Entries, ghost trusted: bool)
        returns (next: seq<Job>, more: seq<Resolution>, answer: Option<Answer>)
      requires Ready() && RequestsKnown(world, b)
      requires Going(b, start, trusted, System(cache.entries, jobs, gathered, None))
      modifies cache
      ensures Ready() && Going(b, start, trusted, System(cache.entries, next, more, answer))
      ensures Work(System(cache.entries, next, more, answer)) < Work(System(old(cache.entries), jobs, gathered, None))
      ensures WithoutModule(cache.entries, b.image.info.name) == WithoutModule(old(cache.entries), b.image.info.name)
    {
      var k := |gathered|;
      var gather: bool := *;
      var unfinished := exists i :: 0 <= i < |jobs| && !jobs[i].Done?;
      if !unfinished || (gather && (k >= |jobs| || jobs[k].Done?)) {
        ghost var s := System(cache.entries, jobs, gathered, None);
        GatherStep(world, b, s);
        GatherKeepsOnTrack(scan, start, b, s);
        next := jobs;
        more, answer := GatherNext(jobs, gathered);
        assert System(cache.entries, next, more, answer) == AfterGather(s);
      } else {
        next := SomeWorker(b, jobs, gathered, start, trusted);
        more, answer := gathered, None;
      }
    }

    /** Submits one job per request, then lets an arbitrary scheduler pick among the workers and
        the gathering loop until the answer is known. */
    method SubmitAndGather(b: Batch) returns (r: Answer)
      requires Ready() && RequestsKnown(world, b)
      modifies cache
      ensures Ready() && (old(Valid()) ==> Valid())
      ensures SaneAnswer(scan, b, r)
      ensures old(Valid()) ==> SameAnswers(r, Expected(scan, b))
      ensures SameAnswers(r, Collected(AllWanted(scan, old(cache.entries), b)))
      ensures r.Success? ==> AllRemembered(cache.entries, b, r.value)
      ensures WithoutModule(cache.entries, b.image.info.name) == WithoutModule(old(cache.entries), b.image.info.name)
    {
      var jobs: seq<Job> := seq(|b.requests|, _ => Waiting);
      var gathered: seq<Resolution> := [];
      var answer: Option<Answer> := None;
      ghost var (start, trusted) := (cache.entries, Valid());
      StartsOnTrack(scan, b, System(start, jobs, [], None));
      while answer.None?
        invariant Ready() && Going(b, start, trusted, System(cache.entries, jobs, gathered, answer))
        invariant WithoutModule(cache.entries, b.image.info.name) ==
                  WithoutModule(old(cache.entries), b.image.info.name)
        decreases Work(System(cache.entries, jobs, gathered, answer))
      {
        jobs, gathered, answer := Turn(b, jobs, gathered, start, trusted);
      }
      AnswerOnTrack(scan, start, b, System(cache.entries, jobs, gathered, answer));
      return answer.value;
    }

    /** Jobs nobody waits for: they run for as long as they like. */
    method RunUnawaited(b: Batch)
      requires Ready() && RequestsKnown(world, b)
      modifies cache
      ensures Ready() && (old(Valid()) ==> Valid())
      ensures WithoutModule(cache.entries, b.image.info.name) == WithoutModule(old(cache.entries), b.image.info.name)
    {
      var jobs: seq<Job> := seq(|b.requests|, _ => Waiting);
      var running: bool := *;
      ghost var (start, trusted) := (cache.entries, Valid());
      StartsOnTrack(scan, b, System(start, jobs, [], None));
      while running && exists i :: 0 <= i < |jobs| && !jobs[i].Done?
        invariant Ready() && Going(b, start, trusted, System(cache.entries, jobs, [], None))
        invariant WithoutModule(cache.entries, b.image.info.name) ==
                  WithoutModule(old(cache.entries), b.image.info.name)
        decreases Work(System(cache.entries, jobs, [], None))
      {
        jobs := SomeWorker(b, jobs, [], start, trusted);
        running := *;
      }
    }

    /** Unless the submission is refused: a request that the cache serves is answered from it and any
        other as the scan answers it, without exceptions just as one after another through that cache;
        and a complete answer is all in the cache. */
    ghost predicate FollowsCache(start: Entries, now: Entries, b: Batch, refusedAt: Option<nat>, r: Answer) {
      !(refusedAt.Some? && refusedAt.value < |b.requests|) ==>
        && SameAnswers(r, Collected(AllWanted(scan, start, b)))
        && (b.throws == {} ==> SameAnswers(r, ResolveAll(scan, Some(start), b.image, b.requests).0))
        && (r.Success? ==> AllRemembered(now, b, r.value))
    }

    lemma FollowingCache(start: Entries, now: Entries, b: Batch, refusedAt: Option<nat>, r: Answer)
      requires NamesDecide(b) && SameAnswers(r, Collected(AllWanted(scan, start, b)))
      requires r.Success? ==> AllRemembered(now, b, r.value)
      ensures FollowsCache(start, now, b, refusedAt, r)
    {
      if b.throws == {} {
        SequentialIsWanted(scan, start, b);
        SameAnswersMeet(r, ResolveAll(scan, Some(start), b.image, b.requests).0, Collected(AllWanted(scan, start, b)));
      }
    }

    /** Resolves every request on the workers. A complete answer is followed by a save of the cache,
        and `saved` is the text it writes. If the executor refuses the submission at `refusedAt`, the
        exception leaves the call and the jobs before it run on. */
    method ResolveParallel(b: Batch, refusedAt: Option<nat>) returns (r: Answer, saved: Option<string>)
      requires Ready() && RequestsKnown(world, b)
      modifies cache
      ensures Ready() && (old(Valid()) ==> Valid())
      ensures var refused := refusedAt.Some? && refusedAt.value < |b.requests|;
              && (refused ==> r == Failure(SubmissionRefused))
              && (!refused ==> SaneAnswer(scan, b, r))
              && (!refused && old(Valid()) ==> SameAnswers(r, Expected(scan, b)))
      ensures FollowsCache(old(cache.entries), cache.entries, b, refusedAt, r)
      ensures saved.Some? <==> r.Success? && b.requests != []
      ensures saved.Some? ==> exists es :: Lists(es, cache.entries) && saved.value == SavedText(es)
      ensures WithoutModule(cache.entries, b.image.info.name) == WithoutModule(old(cache.entries), b.image.info.name)
    {
      if b.requests == [] {
        return Success([]), None;
      }
      if refusedAt.Some? && refusedAt.value < |b.requests| {
        RunUnawaited(b.(requests := b.requests[..refusedAt.value]));
        return Failure(SubmissionRefused), None;
      }
      r := SubmitAndGather(b);
      KnownNamesDecide(world, b);
      FollowingCache(old(cache.entries), cache.entries, b, refusedAt, r);
      if r.Failure? {
        return r, None;
      }
      var text := Save(cache);
      saved := Some(text);
    }

    /** The file's usable records for the module name scanned addresses. */
    ghost predicate FileHarmless(file: CacheFile, image: Image) {
      match Loading(file, image.info)
      case Body(records) => CarriedCache.RecordsHarmless(records, image.info, world)
      case _ => true
    }

    /** The cache after loading the file for the module. */
    ghost function Loaded(m: Entries, file: CacheFile, info: ModuleInfo): Entries {
      match Loading(file, info)
      case Body(records) => LoadRecords(m, info, records).0
      case _ => m
    }

    /** Loads what the cache file holds for the module, then resolves in parallel. Whatever the file
        holds the answer is sane; it is the expected one for every file but one that names a wrong
        address the request's validator accepts inside the module. The save that follows keeps the
        records of another module exactly when the cache held them before the call. */
    method ResolveModule(b: Batch, file: CacheFile, refusedAt: Option<nat>) returns (r: Answer, saved: Option<string>)
      requires Ready() && RequestsKnown(world, b) && b.image.info.name in world.modules
      modifies cache
      ensures Ready() && (old(Valid()) && FileHarmless(file, b.image) ==> Valid())
      ensures var refused := refusedAt.Some? && refusedAt.value < |b.requests|;
              && (refused ==> r == Failure(SubmissionRefused))
              && (!refused ==> SaneAnswer(scan, b, r))
              && (!refused && old(Valid()) && FileHarmless(file, b.image) ==> SameAnswers(r, Expected(scan, b)))
      ensures FollowsCache(Loaded(old(cache.entries), file, b.image.info), cache.entries, b, refusedAt, r)
      ensures saved.Some? <==> r.Success? && b.requests != []
      ensures saved.Some? ==> exists es :: Lists(es, cache.entries) && saved.value == SavedText(es)
      ensures saved.Some? && CleanNames(cache.entries) ==> forall other: ModuleInfo, record ::
                other.name != b.image.info.name ==>
                (FileHas(Contents(saved.value), other, record) <==> Holds(old(cache.entries), other, record))
    {
      ghost var content := Loading(file, b.image.info);
      if content.Body? {
        CarriedCache.LoadKeepsOthers(cache.entries, world, b.image.info, content.records);
        if Valid() && FileHarmless(file, b.image) {
          CarriedCache.LoadKeepsHarmless(cache.entries, world, b.image.info, content.records);
        }
      }
      var loaded := LoadForModule(cache, b.image.info, file);
      r, saved := ResolveParallel(b, refusedAt);
      if saved.Some? && CleanNames(cache.entries) {
        OthersInFile(old(cache.entries), cache.entries, b.image.info.name, saved.value);
      }
    }
  }
}
