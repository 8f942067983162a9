/** A parallel resolve nobody else disturbs: whatever the cache holds when it begins, each request is
    answered as one resolve through that cache would answer it, and what is answered is in the cache
    at the end. */
module UndisturbedJobs {
  import opened Wrappers
  import opened Machine
  import opened PatternCache
  import opened PatternSearch
  import opened BatchScanner
  import Scanner
  import opened CacheTransparency
  import opened ParallelJobs

  // ---------- what each request should come to ----------

  /** The cache's address for a request: the entry under its key, of this version of the module. */
  function AddressFor(m: Entries, image: Image, req: Request): Option<u64> {
    Lookup(m, KeyOf(image, req))
  }

  predicate Usably(image: Image, req: Request, cached: Option<u64>) {
    cached.Some? && Usable(image, req, cached.value)
  }

  /** The answer given what the cache held at the start. */
  function Wanted(scan: Scan, image: Image, req: Request, held: Option<u64>): Result<Resolution, ResolveError> {
    if Usably(image, req, held) then Success(Resolution(req.name, held.value, true, Scanner.NO_STATS))
    else Uncached(scan, image, req)
  }

  /** That is the answer of one resolve through that cache. */
  lemma WantedIsCached(scan: Scan, m: Entries, image: Image, req: Request)
    ensures Wanted(scan, image, req, AddressFor(m, image, req)) == Cached(scan, m, image, req).0
  {
    RememberedIsFound(m, image, req);
    CachedMeaning(scan, m, image, req);
    if Remembers(m, image, req) {
      UsableMeaning(image, req, m[image.info.name + "::" + req.name].address);
    }
  }

  function WantedOf(scan: Scan, start: Entries, b: Batch, i: nat): Result<Resolution, ResolveError>
    requires i < |b.requests|
  {
    if i in b.throws then Thrown(b.requests[i])
    else Wanted(scan, b.image, b.requests[i], AddressFor(start, b.image, b.requests[i]))
  }

  function AllWanted(scan: Scan, start: Entries, b: Batch): seq<Result<Resolution, ResolveError>> {
    seq(|b.requests|, i requires 0 <= i < |b.requests| => WantedOf(scan, start, b, i))
  }

  predicate IsWanted(want: Result<Resolution, ResolveError>, a: u64) {
    want.Success? && want.value.address == a
  }

  // ---------- one request ----------

  /** A start address in use stays; any other address in use is the wanted one. */
  predicate EntryOnTrack(image: Image, req: Request, held: Option<u64>, want: Result<Resolution, ResolveError>,
                         now: Option<u64>) {
    && (Usably(image, req, held) ==> now == held)
    && (Usably(image, req, now) ==> IsWanted(want, now.value))
  }

  ghost predicate JobOnTrack(scan: Scan, image: Image, req: Request, held: Option<u64>,
                             want: Result<Resolution, ResolveError>, job: Job) {
    match job
    case Looked(Some(a)) =>
      (Usably(image, req, held) ==> held == Some(a)) && (Usable(image, req, a) ==> IsWanted(want, a))
    case Looked(None) => !Usably(image, req, held)
    case Rejected => !Usably(image, req, held)
    case Scanned(f) => !Usably(image, req, held) && scan(image, req) == Success(f)
    case Done(r) => SameAnswer(r, want) || r == Thrown(req)
    case _ => true
  }

  /** What a job's step does to the cache's address for a request of the same module: only a job of
      the same request takes it out, and only one puts an address there. */
  function AddressAfter(req: Request, job: Job, other: Request, now: Option<u64>): Option<u64> {
    if req.name != other.name then now
    else match job
      case Rejected => None
      case Scanned(f) => Some(f.address)
      case _ => now
  }

  lemma SameKeySameName(image: Image, req: Request, other: Request)
    ensures KeyOf(image, req).StableKey() == KeyOf(image, other).StableKey() <==> req.name == other.name
  {
    var k, k' := KeyOf(image, req).StableKey(), KeyOf(image, other).StableKey();
    var n := |image.info.name| + 2;
    assert req.name == k[n..] && other.name == k'[n..];
  }

  lemma StepMovesAddress(scan: Scan, m: Entries, image: Image, req: Request, job: Job, other: Request)
    requires !job.Done?
    ensures AddressFor(StepJob(scan, m, image, req, job).0, image, other) ==
            AddressAfter(req, job, other, AddressFor(m, image, other))
  {
    SameKeySameName(image, req, other);
  }

  lemma StepMovesJob(scan: Scan, m: Entries, image: Image, req: Request, job: Job)
    requires !job.Done?
    ensures StepJob(scan, m, image, req, job).1 == NextJob(scan, image, req, AddressFor(m, image, req), job)
  {
  }

  /** A job's next state depends on the cache only through the address for its own request. */
  function NextJob(scan: Scan, image: Image, req: Request, now: Option<u64>, job: Job): Job
    requires !job.Done?
  {
    match job
    case Waiting => Swept
    case Swept => Looked(now)
    case Looked(Some(a)) =>
      if Usable(image, req, a) then Done(Success(Resolution(req.name, a, true, Scanner.NO_STATS))) else Rejected
    case Rejected => Looked(None)
    case Looked(None) =>
      (match scan(image, req) case Failure(e) => Done(Failure(e)) case Success(f) => Scanned(f))
    case Scanned(f) => Done(Success(Fresh(req, f)))
  }

  lemma OwnStepOnTrack(scan: Scan, image: Image, req: Request, held: Option<u64>, now: Option<u64>, job: Job)
    requires !job.Done?
    requires var want := Wanted(scan, image, req, held);
             EntryOnTrack(image, req, held, want, now) && JobOnTrack(scan, image, req, held, want, job)
    ensures var want := Wanted(scan, image, req, held);
            && EntryOnTrack(image, req, held, want, AddressAfter(req, job, req, now))
            && JobOnTrack(scan, image, req, held, want, NextJob(scan, image, req, now, job))
  {
  }

  // ---------- what is answered stays ----------

  /** A job with its answer in hand. */
  predicate Answering(image: Image, req: Request, job: Job) {
    match job
    case Looked(Some(a)) => Usable(image, req, a)
    case Done(r) => r.Success?
    case _ => false
  }

  /** A job that is yet to store, or fails the whole call. */
  predicate Owing(job: Job) {
    match job
    case Looked(None) => true
    case Scanned(_) => true
    case Done(r) => r.Failure?
    case _ => false
  }

  predicate Keeps(want: Result<Resolution, ResolveError>, now: Option<u64>) {
    now.Some? && IsWanted(want, now.value)
  }

  /** The step of a job of the same request: the wanted address stays, unless this job owes it. */
  lemma StepKeepsHeld(scan: Scan, image: Image, req: Request, held: Option<u64>, now: Option<u64>, job: Job)
    requires !job.Done?
    requires var want := Wanted(scan, image, req, held);
             EntryOnTrack(image, req, held, want, now) && JobOnTrack(scan, image, req, held, want, job)
    ensures var (want, now') := (Wanted(scan, image, req, held), AddressAfter(req, job, req, now));
            var job' := NextJob(scan, image, req, now, job);
            && (Keeps(want, now) || Owing(job) ==> Keeps(want, now') || Owing(job'))
            && (Answering(image, req, job') ==> Answering(image, req, job) || Keeps(want, now'))
  {
  }

  // ---------- all requests ----------

  ghost predicate RequestOnTrack(scan: Scan, start: Entries, b: Batch, s: System, i: nat)
    requires i < |b.requests| && |s.jobs| == |b.requests|
  {
    var (image, req) := (b.image, b.requests[i]);
    var held := AddressFor(start, image, req);
    var want := Wanted(scan, image, req, held);
    && EntryOnTrack(image, req, held, want, AddressFor(s.cache, image, req))
    && JobOnTrack(scan, image, req, held, want, s.jobs[i])
    && (s.jobs[i].Done? && i in b.throws ==> s.jobs[i].result == Thrown(req))
    && (s.jobs[i].Done? && i !in b.throws ==> SameAnswer(s.jobs[i].result, want))
    && (Answering(image, req, s.jobs[i]) ==> Keeps(want, AddressFor(s.cache, image, req)) || SomeoneOwes(b, s, i))
  }

  ghost predicate SomeoneOwes(b: Batch, s: System, i: nat)
    requires i < |b.requests| && |s.jobs| == |b.requests|
  {
    exists j :: 0 <= j < |s.jobs| && b.requests[j].name == b.requests[i].name && Owing(s.jobs[j])
  }

  /** The gatherer has the successes up to where it is, and answers with all of them or with the
      failure it has reached. */
  ghost predicate GatheredInOrder(s: System) {
    && |s.gathered| <= |s.jobs|
    && (forall i :: 0 <= i < |s.gathered| ==> s.jobs[i] == Done(Success(s.gathered[i])))
    && match s.answer
       case None => true
       case Some(Success(xs)) => xs == s.gathered && |xs| == |s.jobs|
       case Some(Failure(e)) => |s.gathered| < |s.jobs| && s.jobs[|s.gathered|] == Done(Failure(e))
  }

  ghost predicate OnTrack(scan: Scan, start: Entries, b: Batch, s: System) {
    && |s.jobs| == |b.requests| && GatheredInOrder(s)
    && forall i :: 0 <= i < |b.requests| ==> RequestOnTrack(scan, start, b, s, i)
  }

  lemma StartsOnTrack(scan: Scan, b: Batch, s: System)
    requires Initial(s, b)
    ensures OnTrack(scan, s.cache, b, s)
  {
  }

  lemma GatherKeepsOnTrack(scan: Scan, start: Entries, b: Batch, s: System)
    requires OnTrack(scan, start, b, s) && GatherCanStep(s)
    ensures OnTrack(scan, start, b, AfterGather(s))
  {
    var s' := AfterGather(s);
    forall i | 0 <= i < |b.requests| ensures RequestOnTrack(scan, start, b, s', i) {
      assert RequestOnTrack(scan, start, b, s, i);
    }
  }

  /** One request per pattern name. */
  ghost predicate NamesDecide(b: Batch) {
    forall i, j :: 0 <= i < |b.requests| && 0 <= j < |b.requests| && b.requests[i].name == b.requests[j].name ==>
      b.requests[i] == b.requests[j]
  }

  lemma KnownNamesDecide(w: World, b: Batch)
    requires RequestsKnown(w, b)
    ensures NamesDecide(b)
  {
    forall i, j | 0 <= i < |b.requests| && 0 <= j < |b.requests| && b.requests[i].name == b.requests[j].name
      ensures b.requests[i] == b.requests[j]
    {
      assert Known(w, b.image, b.requests[i]) && Known(w, b.image, b.requests[j]);
    }
  }

  lemma OwesStill(b: Batch, s: System, s': System, i: nat, j: nat)
    requires i < |b.requests| && j < |b.requests| && |s.jobs| == |s'.jobs| == |b.requests|
    requires s'.jobs == s.jobs[j := s'.jobs[j]] && SomeoneOwes(b, s, i)
    ensures SomeoneOwes(b, s', i) || (b.requests[j].name == b.requests[i].name && Owing(s.jobs[j]))
  {
    var p :| 0 <= p < |s.jobs| && b.requests[p].name == b.requests[i].name && Owing(s.jobs[p]);
    if p != j {
      assert s'.jobs[p] == s.jobs[p];
    }
  }

  /** A job that throws instead of making its step. */
  lemma ThrowKeepsRequest(scan: Scan, start: Entries, b: Batch, s: System, i: nat, j: nat)
    requires OnTrack(scan, start, b, s) && JobCanStep(s, j) && i < |b.requests| && j in b.throws
    ensures RequestOnTrack(scan, start, b, s.(jobs := s.jobs[j := Done(Thrown(b.requests[j]))]), i)
  {
    var s' := s.(jobs := s.jobs[j := Done(Thrown(b.requests[j]))]);
    assert RequestOnTrack(scan, start, b, s, i);
    if SomeoneOwes(b, s, i) {
      OwesStill(b, s, s', i, j);
      assert Owing(s'.jobs[j]);
    }
  }

  /** A step, seen from a request of another name. */
  lemma StepKeepsOtherRequest(scan: Scan, start: Entries, b: Batch, s: System, s': System, i: nat, j: nat)
    requires OnTrack(scan, start, b, s) && |s'.jobs| == |s.jobs| && i < |b.requests| && j < |b.requests|
    requires b.requests[i].name != b.requests[j].name && s'.jobs == s.jobs[j := s'.jobs[j]]
    requires AddressFor(s'.cache, b.image, b.requests[i]) == AddressFor(s.cache, b.image, b.requests[i])
    ensures RequestOnTrack(scan, start, b, s', i)
  {
    assert RequestOnTrack(scan, start, b, s, i);
    if SomeoneOwes(b, s, i) {
      OwesStill(b, s, s', i, j);
    }
  }

  /** A step, seen from its own request or another job of the same one. */
  lemma StepKeepsRequest(scan: Scan, start: Entries, b: Batch, s: System, s': System, i: nat, j: nat)
    requires OnTrack(scan, start, b, s) && JobCanStep(s, j) && |s'.jobs| == |s.jobs| && i < |b.requests|
    requires b.requests[i] == b.requests[j] && s'.jobs == s.jobs[j := s'.jobs[j]]
    requires var (req, now) := (b.requests[i], AddressFor(s.cache, b.image, b.requests[i]));
             && AddressFor(s'.cache, b.image, req) == AddressAfter(req, s.jobs[j], req, now)
             && s'.jobs[j] == NextJob(scan, b.image, req, now, s.jobs[j])
    requires j in b.throws ==> !s'.jobs[j].Done?
    ensures RequestOnTrack(scan, start, b, s', i)
  {
    var (image, req) := (b.image, b.requests[i]);
    var (held, now) := (AddressFor(start, image, req), AddressFor(s.cache, image, req));
    assert RequestOnTrack(scan, start, b, s, i) && RequestOnTrack(scan, start, b, s, j);
    OwnStepOnTrack(scan, image, req, held, now, s.jobs[j]);
    StepKeepsHeld(scan, image, req, held, now, s.jobs[j]);
    if SomeoneOwes(b, s, i) {
      OwesStill(b, s, s', i, j);
    }
    assert Owing(s'.jobs[j]) ==> SomeoneOwes(b, s', i);
  }

  lemma JobKeepsRequest(scan: Scan, start: Entries, b: Batch, s: System, i: nat, j: int, early: bool)
    requires NamesDecide(b) && OnTrack(scan, start, b, s) && JobCanStep(s, j) && i < |b.requests|
    ensures RequestOnTrack(scan, start, b, AfterJob(scan, s, b, j, early), i)
  {
    var s' := AfterJob(scan, s, b, j, early);
    if s' == s.(jobs := s.jobs[j := Done(Thrown(b.requests[j]))]) && j in b.throws {
      ThrowKeepsRequest(scan, start, b, s, i, j);
    } else {
      StepMovesAddress(scan, s.cache, b.image, b.requests[j], s.jobs[j], b.requests[i]);
      StepMovesJob(scan, s.cache, b.image, b.requests[j], s.jobs[j]);
      if b.requests[i].name == b.requests[j].name {
        StepKeepsRequest(scan, start, b, s, s', i, j);
      } else {
        StepKeepsOtherRequest(scan, start, b, s, s', i, j);
      }
    }
  }

  lemma JobKeepsOnTrack(scan: Scan, start: Entries, b: Batch, s: System, j: int, early: bool)
    requires NamesDecide(b) && OnTrack(scan, start, b, s) && JobCanStep(s, j)
    ensures OnTrack(scan, start, b, AfterJob(scan, s, b, j, early))
  {
    forall i | 0 <= i < |b.requests| ensures RequestOnTrack(scan, start, b, AfterJob(scan, s, b, j, early), i) {
      JobKeepsRequest(scan, start, b, s, i, j, early);
    }
  }

  // ---------- the answer ----------

  /** Every answered address is the cache's for its request. */
  ghost predicate AllRemembered(m: Entries, b: Batch, xs: seq<Resolution>) {
    |xs| == |b.requests| && forall i :: 0 <= i < |xs| ==> AddressFor(m, b.image, b.requests[i]) == Some(xs[i].address)
  }

  lemma SuccessIsRemembered(scan: Scan, start: Entries, b: Batch, s: System, i: nat)
    requires OnTrack(scan, start, b, s) && s.answer.Some? && s.answer.value.Success? && i < |b.requests|
    ensures i !in b.throws && SameAnswer(Success(s.gathered[i]), WantedOf(scan, start, b, i))
    ensures AddressFor(s.cache, b.image, b.requests[i]) == Some(s.gathered[i].address)
  {
    assert RequestOnTrack(scan, start, b, s, i);
    assert !SomeoneOwes(b, s, i);
  }

  /** The answer is what the requests come to through the starting cache, taken in order, and all of
      it is in the cache now. */
  lemma AnswerOnTrack(scan: Scan, start: Entries, b: Batch, s: System)
    requires OnTrack(scan, start, b, s) && s.answer.Some?
    ensures SameAnswers(s.answer.value, Collected(AllWanted(scan, start, b)))
    ensures s.answer.value.Success? ==> AllRemembered(s.cache, b, s.answer.value.value)
  {
    var (k, all) := (|s.gathered|, AllWanted(scan, start, b));
    forall i | 0 <= i < k ensures all[i].Success? && SameAnswer(Success(s.gathered[i]), all[i]) {
      assert RequestOnTrack(scan, start, b, s, i);
    }
    if s.answer.value.Success? {
      forall i | 0 <= i < k ensures AddressFor(s.cache, b.image, b.requests[i]) == Some(s.gathered[i].address) {
        SuccessIsRemembered(scan, start, b, s, i);
      }
    } else {
      assert RequestOnTrack(scan, start, b, s, k);
    }
    CollectedMeaning(all, k);
  }

  // ---------- the same requests one after another ----------

  /** What a whole resolve does to the cache's address for a request of the module. */
  lemma ResolveMovesAddress(scan: Scan, m: Entries, image: Image, req: Request, other: Request)
    ensures AddressFor(Cached(scan, m, image, req).1, image, other) ==
            var now := AddressFor(m, image, other);
            if req.name != other.name || Usably(image, req, now) then now
            else match scan(image, req) case Failure(_) => None case Success(f) => Some(f.address)
  {
    SameKeySameName(image, req, other);
  }

  lemma OneOfMany(scan: Scan, m: Entries, image: Image, req: Request, other: Request, held: Option<u64>)
    requires req.name == other.name ==> req == other
    requires EntryOnTrack(image, other, held, Wanted(scan, image, other, held), AddressFor(m, image, other))
    ensures var after := Cached(scan, m, image, req).1;
            EntryOnTrack(image, other, held, Wanted(scan, image, other, held), AddressFor(after, image, other))
    ensures req == other ==> SameAnswer(Cached(scan, m, image, req).0, Wanted(scan, image, req, held))
  {
    ResolveMovesAddress(scan, m, image, req, other);
    WantedIsCached(scan, m, image, req);
  }

  ghost predicate EntriesOnTrack(scan: Scan, start: Entries, b: Batch, m: Entries) {
    forall i :: 0 <= i < |b.requests| ==> EntryIsOnTrack(scan, start, b, m, i)
  }

  ghost predicate EntryIsOnTrack(scan: Scan, start: Entries, b: Batch, m: Entries, i: nat)
    requires i < |b.requests|
  {
    var (req, held) := (b.requests[i], AddressFor(start, b.image, b.requests[i]));
    EntryOnTrack(b.image, req, held, Wanted(scan, b.image, req, held), AddressFor(m, b.image, req))
  }

  lemma {:induction false} InTurnIsWanted(scan: Scan, start: Entries, b: Batch, m: Entries, k: nat)
    requires NamesDecide(b) && b.throws == {} && k <= |b.requests| && EntriesOnTrack(scan, start, b, m)
    ensures SameAnswers(ResolveAll(scan, Some(m), b.image, b.requests[k..]).0,
                        Collected(AllWanted(scan, start, b)[k..]))
    decreases |b.requests| - k
  {
    if k < |b.requests| {
      var (req, all) := (b.requests[k], AllWanted(scan, start, b));
      var after := Cached(scan, m, b.image, req).1;
      forall i | 0 <= i < |b.requests| ensures EntryIsOnTrack(scan, start, b, after, i) {
        assert EntryIsOnTrack(scan, start, b, m, i);
        OneOfMany(scan, m, b.image, req, b.requests[i], AddressFor(start, b.image, b.requests[i]));
      }
      assert EntryIsOnTrack(scan, start, b, m, k);
      OneOfMany(scan, m, b.image, req, req, AddressFor(start, b.image, req));
      InTurnIsWanted(scan, start, b, after, k + 1);
      assert b.requests[k..][1..] == b.requests[k + 1..] && all[k..][1..] == all[k + 1..];
      assert all[k..][0] == Wanted(scan, b.image, req, AddressFor(start, b.image, req));
    }
  }

  lemma SequentialIsWanted(scan: Scan, start: Entries, b: Batch)
    requires NamesDecide(b) && b.throws == {}
    ensures SameAnswers(ResolveAll(scan, Some(start), b.image, b.requests).0, Collected(AllWanted(scan, start, b)))
  {
    InTurnIsWanted(scan, start, b, start, 0);
    assert b.requests[0..] == b.requests && AllWanted(scan, start, b)[0..] == AllWanted(scan, start, b);
  }

  // ---------- whole runs ----------

  ghost predicate OwnStep(scan: Scan, b: Batch, s: System, s': System)
    requires |s.jobs| == |b.requests|
  {
    || (exists j, early :: JobCanStep(s, j) && s' == AfterJob(scan, s, b, j, early))
    || (GatherCanStep(s) && s' == AfterGather(s))
  }

  ghost predicate IsOwnRun(scan: Scan, b: Batch, run: seq<System>) {
    && |run| > 0 && Initial(run[0], b)
    && (forall i :: 0 <= i < |run| ==> |run[i].jobs| == |b.requests|)
    && (forall i :: 0 < i < |run| ==> OwnStep(scan, b, run[i - 1], run[i]))
  }

  lemma {:induction false} EveryOwnRunIsOnTrack(scan: Scan, b: Batch, run: seq<System>, i: nat)
    requires NamesDecide(b) && IsOwnRun(scan, b, run) && i < |run|
    ensures OnTrack(scan, run[0].cache, b, run[i])
  {
    if i == 0 {
      StartsOnTrack(scan, b, run[0]);
    } else {
      var s, s' := run[i - 1], run[i];
      EveryOwnRunIsOnTrack(scan, b, run, i - 1);
      assert OwnStep(scan, b, s, s');
      if j, early :| JobCanStep(s, j) && s' == AfterJob(scan, s, b, j, early) {
        JobKeepsOnTrack(scan, run[0].cache, b, s, j, early);
      } else {
        GatherKeepsOnTrack(scan, run[0].cache, b, s);
      }
    }
  }

  lemma SameAnswersMeet(r: Answer, r': Answer, expected: Answer)
    requires SameAnswers(r, expected) && SameAnswers(r', expected)
    ensures SameAnswers(r, r')
  {
  }

  /** Undisturbed and without exceptions, every interleaving answers as resolving the requests one after
      another through the same cache does, whatever the cache holds, right or wrong; and a complete
      answer leaves every address it names in the cache. */
  lemma ParallelIsCached(scan: Scan, b: Batch, run: seq<System>, i: nat)
    requires NamesDecide(b) && b.throws == {} && IsOwnRun(scan, b, run) && i < |run| && run[i].answer.Some?
    ensures SameAnswers(run[i].answer.value, ResolveAll(scan, Some(run[0].cache), b.image, b.requests).0)
    ensures run[i].answer.value.Success? ==> AllRemembered(run[i].cache, b, run[i].answer.value.value)
  {
    EveryOwnRunIsOnTrack(scan, b, run, i);
    AnswerOnTrack(scan, run[0].cache, b, run[i]);
    SequentialIsWanted(scan, run[0].cache, b);
    SameAnswersMeet(run[i].answer.value, ResolveAll(scan, Some(run[0].cache), b.image, b.requests).0,
                    Collected(AllWanted(scan, run[0].cache, b)));
  }
}
