/** Parallel pattern resolution as a protocol: one job per request, all sharing one cache, results
    gathered in request order. */
module ParallelJobs {
  import opened Wrappers
  import opened Machine
  import opened PatternCache
  import opened PatternSearch
  import opened BatchScanner
  import Scanner
  import opened CachePersistence
  import CarriedCache
  import opened CacheTransparency

  type Answer = Result<seq<Resolution>, ResolveError>

  // ---------- one worker job, cut at its accesses to the shared cache ----------

  datatype Job =
    | Waiting
    | Swept
    | Looked(cached: Option<u64>)
    | Rejected
    | Scanned(found: Found)
    | Done(result: Result<Resolution, ResolveError>)

  function StepJob(scan: Scan, m: Entries, image: Image, req: Request, job: Job): (Entries, Job)
    requires !job.Done?
  {
    var key := KeyOf(image, req);
    match job
    case Waiting => (WithoutStale(m, image.info.name, image.info.fingerprint), Swept)
    case Swept => (Touched(m, key), Looked(Lookup(m, key)))
    case Looked(Some(a)) =>
      if Usable(image, req, a) then (m, Done(Success(Resolution(req.name, a, true, Scanner.NO_STATS))))
      else (m, Rejected)
    case Rejected => (Erased(m, image.info.name, req.name), Looked(None))
    case Looked(None) =>
      (match scan(image, req)
       case Failure(e) => (m, Done(Failure(e)))
       case Success(f) => (m, Scanned(f)))
    case Scanned(f) => (Stored(m, key, f.address, image.info.base), Done(Success(Fresh(req, f))))
  }

  function JobWork(job: Job): nat {
    match job
    case Waiting => 6
    case Swept => 5
    case Looked(Some(_)) => 4
    case Rejected => 3
    case Looked(None) => 2
    case Scanned(_) => 1
    case Done(_) => 0
  }

  function RunAlone(scan: Scan, m: Entries, image: Image, req: Request, job: Job)
      : (Result<Resolution, ResolveError>, Entries)
    decreases JobWork(job)
  {
    if job.Done? then (job.result, m)
    else var (m', job') := StepJob(scan, m, image, req, job); RunAlone(scan, m', image, req, job')
  }

  /** Undisturbed, the steps of a job add up to one `ResolveOne`. */
  lemma AloneIsResolveOne(scan: Scan, m: Entries, image: Image, req: Request)
    ensures RunAlone(scan, m, image, req, Waiting) == Cached(scan, m, image, req)
  {
    var key := KeyOf(image, req);
    var swept := WithoutStale(m, image.info.name, image.info.fingerprint);
    var touched := Touched(swept, key);
    var looked := Looked(Lookup(swept, key));
    assert RunAlone(scan, m, image, req, Waiting) == RunAlone(scan, swept, image, req, Swept)
        == RunAlone(scan, touched, image, req, looked);
    match Lookup(swept, key) {
      case None =>
        ScanAlone(scan, swept, image, req);
      case Some(a) =>
        if !Usable(image, req, a) {
          var erased := Erased(touched, image.info.name, req.name);
          ScanAlone(scan, erased, image, req);
          assert RunAlone(scan, touched, image, req, looked) == RunAlone(scan, touched, image, req, Rejected)
              == RunAlone(scan, erased, image, req, Looked(None));
        }
    }
  }

  lemma ScanAlone(scan: Scan, m: Entries, image: Image, req: Request)
    ensures RunAlone(scan, m, image, req, Looked(None)) == Rescan(scan, m, image, req)
  {
  }

  // ---------- one call: its requests, its jobs and what they come to ----------

  /** The requests of one call and the jobs that end in an exception, say from a validator. */
  datatype Batch = Batch(image: Image, requests: seq<Request>, throws: set<nat>)

  function Thrown(req: Request): Result<Resolution, ResolveError> {
    Failure(WorkerFailed(req.name))
  }

  /** What a request comes to with no cache: the exception, or the scan's answer. */
  function Outcome(scan: Scan, b: Batch, i: nat): Result<Resolution, ResolveError>
    requires i < |b.requests|
  {
    if i in b.throws then Thrown(b.requests[i]) else Uncached(scan, b.image, b.requests[i])
  }

  /** Taking results in order up to the first failure. */
  function Collected(results: seq<Result<Resolution, ResolveError>>): Answer {
    if results == [] then Success([])
    else match results[0]
      case Failure(e) => Failure(e)
      case Success(r) => Prepend([r], Collected(results[1..]))
  }

  function Outcomes(scan: Scan, b: Batch): seq<Result<Resolution, ResolveError>> {
    seq(|b.requests|, i requires 0 <= i < |b.requests| => Outcome(scan, b, i))
  }

  /** The answer of resolving the requests one after another with no cache. */
  function Expected(scan: Scan, b: Batch): Answer {
    Collected(Outcomes(scan, b))
  }

  function UncachedResults(scan: Scan, image: Image, requests: seq<Request>): seq<Result<Resolution, ResolveError>> {
    seq(|requests|, i requires 0 <= i < |requests| => Uncached(scan, image, requests[i]))
  }

  function UncachedAll(scan: Scan, image: Image, requests: seq<Request>): Answer {
    ResolveAll(scan, None, image, requests).0
  }

  /** The sequential answer: the first failure, or all the resolutions in request order. */
  lemma {:induction false} UncachedAllMeaning(scan: Scan, image: Image, requests: seq<Request>, k: nat)
    requires k <= |requests|
    requires forall i :: 0 <= i < k ==> Uncached(scan, image, requests[i]).Success?
    requires k < |requests| ==> Uncached(scan, image, requests[k]).Failure?
    ensures var r := UncachedAll(scan, image, requests);
            if k < |requests| then r == Failure(Uncached(scan, image, requests[k]).error)
            else && r.Success? && |r.value| == k
                 && forall i :: 0 <= i < k ==> Success(r.value[i]) == Uncached(scan, image, requests[i])
  {
    if requests != [] && k > 0 {
      assert forall i :: 0 <= i < |requests| - 1 ==> requests[1..][i] == requests[i + 1];
      UncachedAllMeaning(scan, image, requests[1..], k - 1);
    }
  }

  lemma {:induction false} CollectedMeaning(results: seq<Result<Resolution, ResolveError>>, k: nat)
    requires k <= |results|
    requires forall i :: 0 <= i < k ==> results[i].Success?
    requires k < |results| ==> results[k].Failure?
    ensures var r := Collected(results);
            if k < |results| then r == Failure(results[k].error)
            else r.Success? && |r.value| == k && forall i :: 0 <= i < k ==> Success(r.value[i]) == results[i]
  {
    if results != [] && k > 0 {
      assert forall i :: 0 <= i < |results| - 1 ==> results[1..][i] == results[i + 1];
      CollectedMeaning(results[1..], k - 1);
    }
  }

  lemma {:induction false} UncachedIsCollected(scan: Scan, image: Image, requests: seq<Request>)
    ensures UncachedAll(scan, image, requests) == Collected(UncachedResults(scan, image, requests))
  {
    if requests != [] {
      UncachedIsCollected(scan, image, requests[1..]);
      assert UncachedResults(scan, image, requests)[1..] == UncachedResults(scan, image, requests[1..]);
    }
  }

  /** If no job throws, the expected answer is that of sequential uncached resolving. */
  lemma NothingThrown(scan: Scan, b: Batch)
    requires forall i :: i in b.throws ==> i >= |b.requests|
    ensures Expected(scan, b) == UncachedAll(scan, b.image, b.requests)
  {
    UncachedIsCollected(scan, b.image, b.requests);
    assert Outcomes(scan, b) == UncachedResults(scan, b.image, b.requests);
  }

  // ---------- the system of jobs, gatherer and other cache users ----------

  datatype System = System(cache: Entries, jobs: seq<Job>, gathered: seq<Resolution>, answer: Option<Answer>)

  ghost predicate Initial(s: System, b: Batch) {
    && |s.jobs| == |b.requests| && (forall i :: 0 <= i < |s.jobs| ==> s.jobs[i] == Waiting)
    && s.gathered == [] && s.answer == None
  }

  predicate JobCanStep(s: System, i: int) {
    0 <= i < |s.jobs| && !s.jobs[i].Done?
  }

  /** A job that throws does so instead of one of its steps, at the latest instead of its last. */
  function AfterJob(scan: Scan, s: System, b: Batch, i: int, early: bool): System
    requires |s.jobs| == |b.requests| && JobCanStep(s, i)
  {
    var (m', job') := StepJob(scan, s.cache, b.image, b.requests[i], s.jobs[i]);
    if i in b.throws && (early || job'.Done?) then s.(jobs := s.jobs[i := Done(Thrown(b.requests[i]))])
    else s.(cache := m', jobs := s.jobs[i := job'])
  }

  /** The gatherer waits for the future it has reached. */
  predicate GatherCanStep(s: System) {
    s.answer.None? && (|s.gathered| < |s.jobs| ==> s.jobs[|s.gathered|].Done?)
  }

  function AfterGather(s: System): System
    requires GatherCanStep(s)
  {
    if |s.gathered| >= |s.jobs| then s.(answer := Some(Success(s.gathered)))
    else match s.jobs[|s.gathered|].result
      case Failure(e) => s.(answer := Some(Failure(e)))
      case Success(r) => s.(gathered := s.gathered + [r])
  }

  /** Anything else that shares the cache may change it; if it is to be trusted, it keeps it
      harmless. */
  ghost predicate Interferes(w: World, trusted: bool, s: System, s': System) {
    (trusted ==> Harmless(s'.cache, w)) && s' == s.(cache := s'.cache)
  }

  ghost predicate Next(w: World, b: Batch, trusted: bool, s: System, s': System)
    requires |s.jobs| == |b.requests|
  {
    || (exists i, early :: JobCanStep(s, i) && s' == AfterJob(w.scan, s, b, i, early))
    || (GatherCanStep(s) && s' == AfterGather(s))
    || Interferes(w, trusted, s, s')
  }

  // ---------- what holds whatever the cache holds ----------

  /** A failure is the request's own; an address is the scan's, or one that the validator accepts
      inside the module. */
  ghost predicate SaneResult(scan: Scan, b: Batch, i: nat, r: Result<Resolution, ResolveError>)
    requires i < |b.requests|
  {
    match r
    case Failure(e) => Outcome(scan, b, i) == Failure(e)
    case Success(x) =>
      && i !in b.throws && x.name == b.requests[i].name
      && (Usable(b.image, b.requests[i], x.address) ||
          (scan(b.image, b.requests[i]).Success? && scan(b.image, b.requests[i]).value.address == x.address))
  }

  ghost predicate SaneJob(scan: Scan, b: Batch, i: nat, job: Job)
    requires i < |b.requests|
  {
    match job
    case Scanned(f) => scan(b.image, b.requests[i]) == Success(f)
    case Done(r) => SaneResult(scan, b, i, r)
    case _ => true
  }

  ghost predicate SaneAnswer(scan: Scan, b: Batch, r: Answer) {
    match r
    case Success(xs) => |xs| == |b.requests| && forall i :: 0 <= i < |xs| ==> SaneResult(scan, b, i, Success(xs[i]))
    case Failure(e) => exists i :: 0 <= i < |b.requests| && Outcome(scan, b, i) == Failure(e)
  }

  ghost predicate Sane(scan: Scan, b: Batch, s: System) {
    && |s.jobs| == |b.requests| && |s.gathered| <= |b.requests|
    && (forall i :: 0 <= i < |s.jobs| ==> SaneJob(scan, b, i, s.jobs[i]))
    && (forall i :: 0 <= i < |s.gathered| ==> SaneResult(scan, b, i, Success(s.gathered[i])))
    && (s.answer.Some? ==> SaneAnswer(scan, b, s.answer.value))
  }

  lemma JobKeepsSane(scan: Scan, s: System, b: Batch, i: int, early: bool)
    requires Sane(scan, b, s) && JobCanStep(s, i)
    ensures Sane(scan, b, AfterJob(scan, s, b, i, early))
  {
    assert SaneJob(scan, b, i, AfterJob(scan, s, b, i, early).jobs[i]);
  }

  lemma GatherKeepsSane(scan: Scan, s: System, b: Batch)
    requires Sane(scan, b, s) && GatherCanStep(s)
    ensures Sane(scan, b, AfterGather(s))
  {
    var k := |s.gathered|;
    assert k < |s.jobs| ==> SaneJob(scan, b, k, s.jobs[k]);
  }

  // ---------- what holds when the cache is harmless ----------

  ghost predicate JobOk(scan: Scan, b: Batch, i: nat, job: Job)
    requires i < |b.requests|
  {
    var req := b.requests[i];
    match job
    case Looked(Some(a)) =>
      Usable(b.image, req, a) ==> scan(b.image, req).Success? && scan(b.image, req).value.address == a
    case Scanned(f) => scan(b.image, req) == Success(f)
    case Done(r) => SameAnswer(r, Outcome(scan, b, i))
    case _ => true
  }

  ghost predicate Inv(w: World, b: Batch, s: System) {
    && Harmless(s.cache, w)
    && |s.jobs| == |b.requests| && |s.gathered| <= |b.requests|
    && (forall i :: 0 <= i < |s.jobs| ==> JobOk(w.scan, b, i, s.jobs[i]))
    && (forall i :: 0 <= i < |s.gathered| ==> SameAnswer(Success(s.gathered[i]), Outcome(w.scan, b, i)))
    && (s.answer.Some? ==> SameAnswers(s.answer.value, Expected(w.scan, b)))
  }

  /** Every request is this world's request of its name, for this world's image of the module. */
  ghost predicate RequestsKnown(w: World, b: Batch) {
    forall i :: 0 <= i < |b.requests| ==> Known(w, b.image, b.requests[i])
  }

  lemma StepKeepsHarmless(m: Entries, w: World, image: Image, req: Request, job: Job)
    requires Harmless(m, w) && Known(w, image, req) && !job.Done?
    requires job.Scanned? ==> w.scan(image, req) == Success(job.found)
    ensures Harmless(StepJob(w.scan, m, image, req, job).0, w)
  {
  }

  lemma JobStepKeepsOk(m: Entries, w: World, b: Batch, i: nat, job: Job)
    requires Unambiguous(w.modules) && Harmless(m, w) && i < |b.requests| && Known(w, b.image, b.requests[i])
    requires JobOk(w.scan, b, i, job) && !job.Done?
    ensures var job' := StepJob(w.scan, m, b.image, b.requests[i], job).1;
            (i in b.throws && job'.Done?) || JobOk(w.scan, b, i, job')
  {
    var req := b.requests[i];
    if job == Swept {
      var hit := Lookup(m, KeyOf(b.image, req));
      if hit.Some? && Usable(b.image, req, hit.value) {
        UsableHitIsScanned(m, w, b.image, req);
      }
    }
  }

  lemma JobKeepsInv(w: World, b: Batch, s: System, i: int, early: bool)
    requires Unambiguous(w.modules) && RequestsKnown(w, b) && Inv(w, b, s) && JobCanStep(s, i)
    ensures Inv(w, b, AfterJob(w.scan, s, b, i, early))
  {
    StepKeepsHarmless(s.cache, w, b.image, b.requests[i], s.jobs[i]);
    JobStepKeepsOk(s.cache, w, b, i, s.jobs[i]);
  }

  lemma GatherKeepsInv(w: World, b: Batch, s: System)
    requires Inv(w, b, s) && GatherCanStep(s)
    ensures Inv(w, b, AfterGather(s))
  {
    var k := |s.gathered|;
    assert forall i :: 0 <= i < k ==> Outcomes(w.scan, b)[i].Success?;
    if k == |b.requests| || s.jobs[k].result.Failure? {
      CollectedMeaning(Outcomes(w.scan, b), k);
    }
  }

  lemma StepKeepsInv(w: World, b: Batch, s: System, s': System)
    requires Unambiguous(w.modules) && RequestsKnown(w, b)
    requires Inv(w, b, s) && Next(w, b, true, s, s')
    ensures Inv(w, b, s')
  {
    if i, early :| JobCanStep(s, i) && s' == AfterJob(w.scan, s, b, i, early) {
      JobKeepsInv(w, b, s, i, early);
    } else if GatherCanStep(s) && s' == AfterGather(s) {
      GatherKeepsInv(w, b, s);
    }
  }

  lemma StepKeepsSane(w: World, b: Batch, trusted: bool, s: System, s': System)
    requires Sane(w.scan, b, s) && Next(w, b, trusted, s, s')
    ensures Sane(w.scan, b, s')
  {
    if i, early :| JobCanStep(s, i) && s' == AfterJob(w.scan, s, b, i, early) {
      JobKeepsSane(w.scan, s, b, i, early);
    } else if GatherCanStep(s) && s' == AfterGather(s) {
      GatherKeepsSane(w.scan, s, b);
    }
  }

  ghost predicate IsRun(w: World, b: Batch, trusted: bool, run: seq<System>) {
    && |run| > 0 && Initial(run[0], b) && (trusted ==> Harmless(run[0].cache, w))
    && (forall i :: 0 <= i < |run| ==> |run[i].jobs| == |b.requests|)
    && (forall i :: 0 <= i < |run| - 1 ==> Next(w, b, trusted, run[i], run[i + 1]))
  }

  /** For every interleaving of job steps, gathering and other cache users, the answer is the
      one sequential uncached resolving gives: its addresses in request order, or the failure of
      the lowest failing index, where a job that throws is one that fails. */
  lemma {:induction false} ParallelIsSequential(w: World, b: Batch, run: seq<System>, i: nat)
    requires Unambiguous(w.modules) && RequestsKnown(w, b)
    requires IsRun(w, b, true, run) && i < |run|
    ensures Inv(w, b, run[i])
    ensures run[i].answer.Some? ==> SameAnswers(run[i].answer.value, Expected(w.scan, b))
    ensures run[i].answer.Some? && b.throws == {} ==>
              SameAnswers(run[i].answer.value, UncachedAll(w.scan, b.image, b.requests))
  {
    if i > 0 {
      ParallelIsSequential(w, b, run, i - 1);
      assert Next(w, b, true, run[i - 1], run[i - 1 + 1]);
      StepKeepsInv(w, b, run[i - 1], run[i]);
    }
    if b.throws == {} {
      NothingThrown(w.scan, b);
    }
  }

  /** And whatever the cache holds and others do to it, an answer gives each request an address that
      is the scan's or accepted by its validator inside the module, or fails as some request does. */
  lemma {:induction false} ParallelIsSane(w: World, b: Batch, run: seq<System>, i: nat)
    requires IsRun(w, b, false, run) && i < |run|
    ensures Sane(w.scan, b, run[i])
  {
    if i > 0 {
      ParallelIsSane(w, b, run, i - 1);
      assert Next(w, b, false, run[i - 1], run[i - 1 + 1]);
      StepKeepsSane(w, b, false, run[i - 1], run[i]);
    }
  }

  // ---------- progress ----------

  function JobsWork(jobs: seq<Job>): nat {
    if jobs == [] then 0 else JobsWork(jobs[..|jobs| - 1]) + JobWork(jobs[|jobs| - 1])
  }

  function Work(s: System): int {
    JobsWork(s.jobs) + |s.jobs| - |s.gathered| + (if s.answer.None? then 1 else 0)
  }

  lemma {:induction false} JobsWorkUpdate(jobs: seq<Job>, i: nat, job: Job)
    requires i < |jobs|
    ensures JobsWork(jobs[i := job]) == JobsWork(jobs) - JobWork(jobs[i]) + JobWork(job)
  {
    var n := |jobs| - 1;
    if i < n {
      JobsWorkUpdate(jobs[..n], i, job);
      assert jobs[i := job][..n] == jobs[..n][i := job];
    } else {
      assert jobs[i := job][..n] == jobs[..n];
    }
  }

  lemma JobStepWork(s: System, scan: Scan, b: Batch, i: int, early: bool)
    requires |s.jobs| == |b.requests| && JobCanStep(s, i)
    ensures Work(AfterJob(scan, s, b, i, early)) < Work(s)
  {
    JobsWorkUpdate(s.jobs, i, AfterJob(scan, s, b, i, early).jobs[i]);
  }

  /** No schedule blocks or runs for ever: until there is an answer some step is possible, and
      every job or gather step uses up work that other cache users cannot give back. */
  lemma AlwaysProgress(w: World, b: Batch, s: System)
    requires Sane(w.scan, b, s)
    ensures s.answer.None? ==> GatherCanStep(s) || exists i :: JobCanStep(s, i)
    ensures forall i, early :: JobCanStep(s, i) ==> Work(AfterJob(w.scan, s, b, i, early)) < Work(s)
    ensures GatherCanStep(s) ==> 0 <= Work(AfterGather(s)) < Work(s)
    ensures forall trusted, s' :: Interferes(w, trusted, s, s') ==> Work(s') == Work(s)
  {
    if s.answer.None? && !GatherCanStep(s) {
      assert JobCanStep(s, |s.gathered|);
    }
    forall i, early | JobCanStep(s, i) ensures Work(AfterJob(w.scan, s, b, i, early)) < Work(s) {
      JobStepWork(s, w.scan, b, i, early);
    }
  }

  // ---------- the entries of other modules ----------

  lemma KeyOfOwnModule(m: Entries, w: World, image: Image, req: Request)
    requires Unambiguous(w.modules) && Housed(m, w) && Known(w, image, req)
    ensures var k := KeyOf(image, req).StableKey(); k in m ==> m[k].key.moduleName == image.info.name
  {
    var k := KeyOf(image, req).StableKey();
    if k in m {
      StableKeyInjective(w.modules, m[k].key, KeyOf(image, req));
    }
  }

  lemma TouchKeepsOthers(m: Entries, w: World, key: CacheKey)
    requires Housed(m, w) && (key.StableKey() in m ==> m[key.StableKey()].key.moduleName == key.moduleName)
    ensures Housed(Touched(m, key), w)
    ensures WithoutModule(Touched(m, key), key.moduleName) == WithoutModule(m, key.moduleName)
  {
    if Present(m, key) {
      var e := m[key.StableKey()];
      CarriedCache.ReplacingKeepsOthers(m, key.StableKey(), e.(hits := Wrap64(e.hits + 1)));
    }
  }

  lemma EraseKeepsOthers(m: Entries, w: World, moduleName: string, name: string)
    requires Housed(m, w)
    requires KeyText(moduleName, name) in m ==> m[KeyText(moduleName, name)].key.moduleName == moduleName
    ensures Housed(Erased(m, moduleName, name), w)
    ensures WithoutModule(Erased(m, moduleName, name), moduleName) == WithoutModule(m, moduleName)
  {
  }

  lemma SweepKeepsOthers(m: Entries, w: World, moduleName: string, fingerprint: u64)
    requires Housed(m, w)
    ensures Housed(WithoutStale(m, moduleName, fingerprint), w)
    ensures WithoutModule(WithoutStale(m, moduleName, fingerprint), moduleName) == WithoutModule(m, moduleName)
  {
  }

  /** A job's step changes entries of its own module only. */
  lemma JobStepKeepsOthers(m: Entries, w: World, image: Image, req: Request, job: Job)
    requires Unambiguous(w.modules) && Housed(m, w) && Known(w, image, req) && !job.Done?
    ensures Housed(StepJob(w.scan, m, image, req, job).0, w)
    ensures WithoutModule(StepJob(w.scan, m, image, req, job).0, image.info.name) == WithoutModule(m, image.info.name)
  {
    KeyOfOwnModule(m, w, image, req);
    match job {
      case Waiting => SweepKeepsOthers(m, w, image.info.name, image.info.fingerprint);
      case Swept => TouchKeepsOthers(m, w, KeyOf(image, req));
      case Rejected => EraseKeepsOthers(m, w, image.info.name, req.name);
      case Scanned(f) => CarriedCache.StoreKeepsOthers(m, w, KeyOf(image, req), f.address, image.info.base);
      case Looked(_) =>
    }
  }

  lemma GatherStep(w: World, b: Batch, s: System)
    requires Sane(w.scan, b, s) && GatherCanStep(s)
    ensures Sane(w.scan, b, AfterGather(s)) && 0 <= Work(AfterGather(s)) < Work(s)
    ensures Inv(w, b, s) ==> Inv(w, b, AfterGather(s))
  {
    GatherKeepsSane(w.scan, s, b);
    if Inv(w, b, s) {
      GatherKeepsInv(w, b, s);
    }
  }

  lemma JobStep(w: World, b: Batch, s: System, i: int, early: bool)
    requires Unambiguous(w.modules) && RequestsKnown(w, b) && Sane(w.scan, b, s) && JobCanStep(s, i)
    ensures var s' := AfterJob(w.scan, s, b, i, early); Sane(w.scan, b, s') && 0 <= Work(s') < Work(s)
    ensures Inv(w, b, s) ==> Inv(w, b, AfterJob(w.scan, s, b, i, early))
  {
    JobKeepsSane(w.scan, s, b, i, early);
    JobStepWork(s, w.scan, b, i, early);
    if Inv(w, b, s) {
      JobKeepsInv(w, b, s, i, early);
    }
  }

  /** Which records of other modules a saved cache leaves in the file. */
  lemma OthersInFile(before: Entries, now: Entries, moduleName: string, text: string)
    requires WithoutModule(before, moduleName) == WithoutModule(now, moduleName)
    requires WellKeyed(now) && CleanNames(now) && exists es :: Lists(es, now) && text == SavedText(es)
    ensures forall other: ModuleInfo, record :: other.name != moduleName ==>
              (FileHas(Contents(text), other, record) <==> Holds(before, other, record))
  {
    var es :| Lists(es, now) && text == SavedText(es);
    forall other: ModuleInfo, record | other.name != moduleName
      ensures FileHas(Contents(text), other, record) <==> Holds(before, other, record)
    {
      SavedRecordIff(now, es, other, record);
      HoldsForOthers(before, now, moduleName, other, record);
    }
  }
}
