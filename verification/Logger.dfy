/** The asynchronous logger as a protocol of atomic steps: any number of producers, one worker
    thread, and one thread that starts and stops the service. */
module Logger {
  import opened Wrappers

  datatype Record = Record(producer: nat, sequence: nat, message: string)

  /** Where the worker thread is. `Holding` is between taking a record and dispatching it, in the
      main loop or in the drain loop that follows it. */
  datatype Worker = NoThread | Looping | Holding(record: Record, draining: bool) | Draining | Exited

  /** Where the controlling thread is inside `Stop`. */
  datatype Control = Idle | Stopping | Joining

  /** `drawn` holds the records whose sequence number is taken but whose producer has not yet
      entered the locked region; `accepted` and `written` record what was pushed and dispatched. */
  datatype State = State(queue: seq<Record>, accepting: bool, sequence: nat, stopRequested: bool, worker: Worker,
                         control: Control, drawn: map<nat, Record>, accepted: seq<Record>, written: seq<Record>)

  const INITIAL := State([], false, 0, false, NoThread, Idle, map[], [], [])

  datatype Step =
    | Start
    | BeginStop
    | RequestStop
    | Join
    | Draw(producer: nat, message: string)
    | Offer(producer: nat)
    | WorkerTake
    | WorkerLeaveLoop
    | WorkerDispatch
    | WorkerExit

  predicate Enabled(s: State, step: Step) {
    match step
    case Start => s.control == Idle
    case BeginStop => s.control == Idle
    case RequestStop => s.control == Stopping
    case Join => s.control == Joining && s.worker == Exited
    case Draw(p, _) => p !in s.drawn
    case Offer(p) => p in s.drawn
    case WorkerTake => (s.worker == Looping || s.worker == Draining) && s.queue != []
    case WorkerLeaveLoop => s.worker == Looping && s.queue == [] && (s.stopRequested || !s.accepting)
    case WorkerDispatch => s.worker.Holding?
    case WorkerExit => s.worker == Draining && s.queue == []
  }

  function Next(s: State, step: Step): State
    requires Enabled(s, step)
  {
    match step
    case Start => if s.accepting then s else s.(accepting := true, worker := Looping, stopRequested := false)
    case BeginStop => if !s.accepting && s.worker == NoThread then s else s.(accepting := false, control := Stopping)
    case RequestStop => s.(stopRequested := true, control := Joining)
    case Join => s.(worker := NoThread, control := Idle)
    case Draw(p, text) => s.(sequence := s.sequence + 1, drawn := s.drawn[p := Record(p, s.sequence + 1, text)])
    case Offer(p) =>
      if s.accepting
      then s.(queue := s.queue + [s.drawn[p]], accepted := s.accepted + [s.drawn[p]], drawn := s.drawn - {p})
      else s.(drawn := s.drawn - {p})
    case WorkerTake => s.(queue := s.queue[1..], worker := Holding(s.queue[0], s.worker == Draining))
    case WorkerLeaveLoop => s.(worker := Draining)
    case WorkerDispatch =>
      s.(written := s.written + [s.worker.record], worker := if s.worker.draining then Draining else Looping)
    case WorkerExit => s.(worker := Exited)
  }

  // ---------- safety ----------

  function InHand(s: State): seq<Record> {
    if s.worker.Holding? then [s.worker.record] else []
  }

  ghost predicate Fifo(s: State) {
    s.accepted == s.written + InHand(s) + s.queue
  }

  ghost predicate Lifecycle(s: State) {
    && (s.accepting ==> s.control == Idle && !s.stopRequested &&
                        (s.worker == Looping || (s.worker.Holding? && !s.worker.draining)))
    && (!s.accepting && s.control == Idle ==> s.worker == NoThread && s.queue == [])
    && (s.control != Idle ==> s.worker != NoThread)
    && (s.worker == Exited ==> s.queue == [])
  }

  /** Sequence numbers are unique, and grow along each producer's accepted records. */
  ghost predicate Ordered(rs: seq<Record>) {
    forall i, j :: 0 <= i < j < |rs| ==>
      rs[i].sequence != rs[j].sequence && (rs[i].producer == rs[j].producer ==> rs[i].sequence < rs[j].sequence)
  }

  ghost predicate Sequenced(s: State) {
    && Ordered(s.accepted)
    && (forall i :: 0 <= i < |s.accepted| ==> s.accepted[i].sequence <= s.sequence)
    && (forall p :: p in s.drawn ==> s.drawn[p].producer == p && s.drawn[p].sequence <= s.sequence)
    && (forall p, q :: p in s.drawn && q in s.drawn && p != q ==> s.drawn[p].sequence != s.drawn[q].sequence)
    && (forall p, i :: p in s.drawn && 0 <= i < |s.accepted| ==>
          s.accepted[i].sequence != s.drawn[p].sequence &&
          (s.accepted[i].producer == p ==> s.accepted[i].sequence < s.drawn[p].sequence))
  }

  ghost predicate Inv(s: State) {
    Fifo(s) && Lifecycle(s) && Sequenced(s)
  }

  lemma StepKeepsFifo(s: State, step: Step)
    requires Fifo(s) && Enabled(s, step)
    requires step == Start || step == Join ==> !s.worker.Holding? || (step == Start && s.accepting)
    ensures Fifo(Next(s, step))
  {
  }

  lemma StepKeepsLifecycle(s: State, step: Step)
    requires Lifecycle(s) && Enabled(s, step)
    ensures Lifecycle(Next(s, step))
  {
  }

  lemma DrawKeepsSequenced(s: State, p: nat, text: string)
    requires Sequenced(s) && Enabled(s, Draw(p, text))
    ensures Sequenced(Next(s, Draw(p, text)))
  {
  }

  lemma OfferKeepsSequenced(s: State, p: nat)
    requires Sequenced(s) && Enabled(s, Offer(p))
    ensures Sequenced(Next(s, Offer(p)))
  {
  }

  lemma StepKeepsSequenced(s: State, step: Step)
    requires Sequenced(s) && Enabled(s, step)
    ensures Sequenced(Next(s, step))
  {
    match step {
      case Draw(p, text) => DrawKeepsSequenced(s, p, text);
      case Offer(p) => OfferKeepsSequenced(s, p);
      case _ =>
    }
  }

  lemma StepKeepsInv(s: State, step: Step)
    requires Inv(s) && Enabled(s, step)
    ensures Inv(Next(s, step))
  {
    StepKeepsFifo(s, step);
    StepKeepsLifecycle(s, step);
    StepKeepsSequenced(s, step);
  }

  function After(steps: seq<Step>): Option<State> {
    if steps == [] then Some(INITIAL)
    else match After(steps[..|steps| - 1])
      case None => None
      case Some(s) => if Enabled(s, steps[|steps| - 1]) then Some(Next(s, steps[|steps| - 1])) else None
  }

  lemma {:induction false} EveryRunKeepsInv(steps: seq<Step>)
    requires After(steps).Some?
    ensures Inv(After(steps).value)
  {
    if steps != [] {
      EveryRunKeepsInv(steps[..|steps| - 1]);
      StepKeepsInv(After(steps[..|steps| - 1]).value, steps[|steps| - 1]);
    }
  }

  /** Exactly once and in accept order: in every reachable state what was written is a prefix of
      what was accepted, and once `Stop` has returned it is all of it. */
  lemma AcceptedIsWrittenInOrder(steps: seq<Step>)
    requires After(steps).Some?
    ensures var s := After(steps).value;
            && s.accepted == s.written + InHand(s) + s.queue
            && (s.control == Idle && !s.accepting ==> s.written == s.accepted && s.queue == [])
  {
    EveryRunKeepsInv(steps);
  }

  /** What the sinks receive: no sequence number twice, and each producer's in increasing order. */
  lemma WrittenIsOrdered(steps: seq<Step>)
    requires After(steps).Some?
    ensures Ordered(After(steps).value.written)
  {
    EveryRunKeepsInv(steps);
    var s := After(steps).value;
    assert forall i :: 0 <= i < |s.written| ==> s.written[i] == s.accepted[i];
  }

  // ---------- what the records are ----------

  function DrawsIn(steps: seq<Step>): nat {
    if steps == [] then 0 else DrawsIn(steps[..|steps| - 1]) + if steps[|steps| - 1].Draw? then 1 else 0
  }

  /** This step drew the record: its producer logged its message, as the so-many-th of all. */
  predicate DrawnAt(steps: seq<Step>, r: Record, i: nat) {
    i < |steps| && steps[i] == Draw(r.producer, r.message) && r.sequence == DrawsIn(steps[..i + 1])
  }

  ghost predicate WasLogged(steps: seq<Step>, r: Record) {
    exists i: nat :: DrawnAt(steps, r, i)
  }

  lemma StillLogged(steps: seq<Step>, r: Record)
    requires steps != [] && WasLogged(steps[..|steps| - 1], r)
    ensures WasLogged(steps, r)
  {
    var front := steps[..|steps| - 1];
    var i: nat :| DrawnAt(front, r, i);
    assert front[..i + 1] == steps[..i + 1];
    assert DrawnAt(steps, r, i);
  }

  lemma JustLogged(steps: seq<Step>, r: Record)
    requires steps != [] && steps[|steps| - 1] == Draw(r.producer, r.message) && r.sequence == DrawsIn(steps)
    ensures WasLogged(steps, r)
  {
    assert steps[..|steps|] == steps;
    assert DrawnAt(steps, r, |steps| - 1);
  }

  ghost predicate AllLogged(steps: seq<Step>, s: State) {
    && s.sequence == DrawsIn(steps)
    && (forall r :: r in s.accepted ==> WasLogged(steps, r))
    && (forall p :: p in s.drawn ==> s.drawn[p].producer == p && WasLogged(steps, s.drawn[p]))
  }

  /** A step hands over the records there are; only a draw makes a new one. */
  lemma RecordsOfStep(s: State, step: Step)
    requires Enabled(s, step)
    ensures forall r :: r in Next(s, step).accepted ==> r in s.accepted || exists p :: p in s.drawn && s.drawn[p] == r
    ensures forall p :: p in Next(s, step).drawn ==>
              (p in s.drawn && Next(s, step).drawn[p] == s.drawn[p]) || (step.Draw? && step.producer == p)
    ensures Next(s, step).sequence == s.sequence + if step.Draw? then 1 else 0
  {
  }

  lemma LoggedStep(steps: seq<Step>, s: State)
    requires steps != [] && AllLogged(steps[..|steps| - 1], s) && Enabled(s, steps[|steps| - 1])
    ensures AllLogged(steps, Next(s, steps[|steps| - 1]))
  {
    var front, last := steps[..|steps| - 1], steps[|steps| - 1];
    RecordsOfStep(s, last);
    forall r | WasLogged(front, r) ensures WasLogged(steps, r) {
      StillLogged(steps, r);
    }
    if last.Draw? {
      JustLogged(steps, Next(s, last).drawn[last.producer]);
    }
  }

  lemma {:induction false} EveryRecordWasLogged(steps: seq<Step>)
    requires After(steps).Some?
    ensures AllLogged(steps, After(steps).value)
  {
    if steps != [] {
      EveryRecordWasLogged(steps[..|steps| - 1]);
      LoggedStep(steps, After(steps[..|steps| - 1]).value);
    }
  }

  /** What the sinks receive was logged: producer, message and number are those of one `Log` call. */
  lemma WrittenWereLogged(steps: seq<Step>, i: nat)
    requires After(steps).Some? && i < |After(steps).value.written|
    ensures exists k: nat ::
              var r := After(steps).value.written[i];
              k < |steps| && steps[k] == Draw(r.producer, r.message) && r.sequence == DrawsIn(steps[..k + 1])
  {
    EveryRecordWasLogged(steps);
    EveryRunKeepsInv(steps);
    var s := After(steps).value;
    assert s.accepted[i] == s.written[i];
    assert WasLogged(steps, s.written[i]);
    var k: nat :| DrawnAt(steps, s.written[i], k);
  }

  // ---------- order across producers ----------

  /** The sequence numbers as the sinks see them go up. */
  ghost predicate Rising(rs: seq<Record>) {
    forall i, j :: 0 <= i < j < |rs| ==> rs[i].sequence < rs[j].sequence
  }

  ghost predicate DrawsOnly(steps: seq<Step>, producers: set<nat>) {
    forall i :: 0 <= i < |steps| && steps[i].Draw? ==> steps[i].producer in producers
  }

  lemma AfterOneMore(steps: seq<Step>, step: Step, s: State)
    requires After(steps) == Some(s) && Enabled(s, step)
    ensures After(steps + [step]) == Some(Next(s, step))
  {
  }

  /** Two producers draw numbers and enter the lock in the opposite order. */
  lemma OvertakenProducer(p: nat, q: nat) returns (steps: seq<Step>)
    requires p != q
    ensures DrawsOnly(steps, {p, q})
    ensures After(steps) == Some(State([Record(q, 2, "b"), Record(p, 1, "a")], true, 2, false, Looping, Idle, map[],
                                       [Record(q, 2, "b"), Record(p, 1, "a")], []))
  {
    var r0, r1 := Record(p, 1, "a"), Record(q, 2, "b");
    var s0 := INITIAL.(accepting := true, worker := Looping);
    AfterOneMore([], Start, INITIAL);
    AfterOneMore([] + [Start], Draw(p, "a"), s0);
    var s1 := s0.(sequence := 1, drawn := map[p := r0]);
    AfterOneMore([] + [Start] + [Draw(p, "a")], Draw(q, "b"), s1);
    var s2 := s0.(sequence := 2, drawn := map[p := r0, q := r1]);
    assert Next(s1, Draw(q, "b")) == s2;
    var drawn := [] + [Start] + [Draw(p, "a")] + [Draw(q, "b")];
    AfterOneMore(drawn, Offer(q), s2);
    var s3 := s0.(sequence := 2, drawn := map[p := r0], queue := [r1], accepted := [r1]);
    assert Next(s2, Offer(q)) == s3;
    AfterOneMore(drawn + [Offer(q)], Offer(p), s3);
    assert Next(s3, Offer(p)) == s0.(sequence := 2, drawn := map[], queue := [r1, r0], accepted := [r1, r0]);
    steps := drawn + [Offer(q)] + [Offer(p)];
  }

  /** Between any two producers the order may differ: the number is drawn before the lock is
      taken. */
  lemma NotOrderedAcrossProducers(p: nat, q: nat)
    requires p != q
    ensures exists steps :: After(steps).Some? && DrawsOnly(steps, {p, q}) && var w := After(steps).value.written;
                            |w| == 2 && w[0].sequence > w[1].sequence
  {
    var steps := OvertakenProducer(p, q);
    var s := After(steps).value;
    var s1 := Next(s, WorkerTake);
    AfterOneMore(steps, WorkerTake, s);
    var s2 := Next(s1, WorkerDispatch);
    AfterOneMore(steps + [WorkerTake], WorkerDispatch, s1);
    var s3 := Next(s2, WorkerTake);
    AfterOneMore(steps + [WorkerTake] + [WorkerDispatch], WorkerTake, s2);
    AfterOneMore(steps + [WorkerTake] + [WorkerDispatch] + [WorkerTake], WorkerDispatch, s3);
    var all := steps + [WorkerTake] + [WorkerDispatch] + [WorkerTake] + [WorkerDispatch];
    assert DrawsOnly(all, {p, q});
    var w := After(all).value.written;
    assert w[0].sequence == 2 && w[1].sequence == 1;
  }

  /** Every record accepted or on its way comes from a producer that drew. */
  lemma {:induction false} RecordsComeFromDraws(steps: seq<Step>, producers: set<nat>)
    requires After(steps).Some? && DrawsOnly(steps, producers)
    ensures var s := After(steps).value;
            && (forall p :: p in s.drawn ==> p in producers)
            && (forall i :: 0 <= i < |s.accepted| ==> s.accepted[i].producer in producers)
  {
    if steps != [] {
      var front, last := steps[..|steps| - 1], steps[|steps| - 1];
      RecordsComeFromDraws(front, producers);
      EveryRunKeepsInv(front);
      assert last == steps[|steps| - 1];
    }
  }

  lemma OneProducerRises(steps: seq<Step>, producers: set<nat>)
    requires After(steps).Some? && DrawsOnly(steps, producers)
    requires forall p, q :: p in producers && q in producers ==> p == q
    ensures Rising(After(steps).value.written)
  {
    var s := After(steps).value;
    EveryRunKeepsInv(steps);
    WrittenIsOrdered(steps);
    RecordsComeFromDraws(steps, producers);
    assert forall i :: 0 <= i < |s.written| ==> s.written[i] == s.accepted[i];
  }

  lemma AtMostOneMember(xs: set<nat>)
    ensures |xs| <= 1 <==> forall p, q :: p in xs && q in xs ==> p == q
  {
    if |xs| <= 1 {
      forall p, q | p in xs && q in xs ensures p == q {
        assert |xs - {p}| == |xs| - 1;
        assert xs - {p} == {};
      }
    } else {
      var p :| p in xs;
      assert |xs - {p}| >= 1;
      var q :| q in xs - {p};
    }
  }

  /** When global order holds: the sinks see rising sequence numbers in every run of a set of
      producers exactly when the set has at most one producer. */
  lemma RisingIffOneProducer(producers: set<nat>)
    ensures (forall steps :: After(steps).Some? && DrawsOnly(steps, producers) ==> Rising(After(steps).value.written))
            <==> |producers| <= 1
  {
    AtMostOneMember(producers);
    if |producers| <= 1 {
      forall steps | After(steps).Some? && DrawsOnly(steps, producers) ensures Rising(After(steps).value.written) {
        OneProducerRises(steps, producers);
      }
    } else {
      var p, q :| p in producers && q in producers && p != q;
      NotOrderedAcrossProducers(p, q);
      var steps :| After(steps).Some? && DrawsOnly(steps, {p, q}) && var w := After(steps).value.written;
                   |w| == 2 && w[0].sequence > w[1].sequence;
      assert DrawsOnly(steps, producers);
    }
  }

  // ---------- the drain ends ----------

  predicate IsWorkerStep(step: Step) {
    step == WorkerTake || step == WorkerLeaveLoop || step == WorkerDispatch || step == WorkerExit
  }

  function DrainWork(s: State): nat {
    3 * |s.queue| + match s.worker
                    case Looping => 3
                    case Holding(_, draining) => if draining then 3 else 4
                    case Draining => 2
                    case Exited => 1
                    case NoThread => 0
  }

  /** Once the service stops accepting, the worker is never blocked before it has exited, each of
      its steps uses up work, and nobody else can add any. */
  lemma DrainEnds(s: State, step: Step)
    requires Inv(s) && !s.accepting && s.control != Idle
    ensures s.worker != Exited ==> exists w :: IsWorkerStep(w) && Enabled(s, w)
    ensures Enabled(s, step) && IsWorkerStep(step) ==> DrainWork(Next(s, step)) < DrainWork(s)
    ensures Enabled(s, step) ==> DrainWork(Next(s, step)) <= DrainWork(s) && !Next(s, step).accepting
  {
    if s.worker == Looping {
      assert Enabled(s, if s.queue == [] then WorkerLeaveLoop else WorkerTake);
    } else if s.worker == Draining {
      assert Enabled(s, if s.queue == [] then WorkerExit else WorkerTake);
    } else if s.worker.Holding? {
      assert Enabled(s, WorkerDispatch);
    }
  }

  // ---------- the class ----------

  class LoggerService {
    var queue: seq<Record>
    var accepting: bool
    var sequence: nat
    var stopRequested: bool
    var worker: Worker
    var control: Control
    var drawn: map<nat, Record>
    var sinks: seq<Record>
    ghost var accepted: seq<Record>

    ghost function View(): State
      reads this
    {
      State(queue, accepting, sequence, stopRequested, worker, control, drawn, accepted, sinks)
    }

    constructor ()
      ensures View() == INITIAL
    {
      queue, accepting, sequence, stopRequested := [], false, 0, false;
      worker, control, drawn, sinks, accepted := NoThread, Idle, map[], [], [];
    }

    method StartService()
      requires Enabled(View(), Start)
      modifies this
      ensures View() == Next(old(View()), Start)
    {
      if accepting {
        return;
      }
      accepting := true;
      worker := Looping;
      stopRequested := false;
    }

    /** The first half of `Log`: the number is drawn outside the lock. */
    method DrawSequence(producer: nat, message: string)
      requires Enabled(View(), Draw(producer, message))
      modifies this
      ensures View() == Next(old(View()), Draw(producer, message))
      ensures sequence == old(sequence) + 1 && drawn == old(drawn)[producer := Record(producer, sequence, message)]
    {
      sequence := sequence + 1;
      drawn := drawn[producer := Record(producer, sequence, message)];
    }

    /** The locked half of `Log`. */
    method OfferRecord(producer: nat)
      requires Enabled(View(), Offer(producer))
      modifies this
      ensures View() == Next(old(View()), Offer(producer))
      ensures queue == if accepting then old(queue) + [old(drawn)[producer]] else old(queue)
      ensures accepting == old(accepting) && drawn == old(drawn) - {producer}
    {
      var record := drawn[producer];
      drawn := drawn - {producer};
      if !accepting {
        return;
      }
      queue := queue + [record];
      accepted := accepted + [record];
    }

    method TakeFront()
      requires Enabled(View(), WorkerTake)
      modifies this
      ensures View() == Next(old(View()), WorkerTake)
      ensures worker.Holding? && [worker.record] + queue == old(queue) && sinks == old(sinks)
    {
      worker := Holding(queue[0], worker == Draining);
      queue := queue[1..];
    }

    method Dispatch()
      requires Enabled(View(), WorkerDispatch)
      modifies this
      ensures View() == Next(old(View()), WorkerDispatch)
      ensures sinks == old(sinks) + [old(worker).record] && queue == old(queue) && !worker.Holding?
    {
      sinks := sinks + [worker.record];
      worker := if worker.draining then Draining else Looping;
    }

    /** The worker's second loop, run to its end. */
    method Drain()
      requires Inv(View()) && worker == Draining
      modifies this
      ensures Inv(View()) && worker == Exited
      ensures sinks == old(accepted) && accepted == old(accepted)
      ensures control == old(control) && drawn == old(drawn) && sequence == old(sequence)
    {
      while queue != []
        invariant Inv(View()) && worker == Draining
        invariant accepted == old(accepted) && control == old(control)
        invariant drawn == old(drawn) && sequence == old(sequence)
        decreases |queue|
      {
        StepKeepsInv(View(), WorkerTake);
        TakeFront();
        StepKeepsInv(View(), WorkerDispatch);
        Dispatch();
      }
      worker := Exited;
      assert sinks + [] + queue == sinks;
    }

    method BeginStopService()
      requires Enabled(View(), BeginStop)
      modifies this
      ensures View() == Next(old(View()), BeginStop)
    {
      if !accepting && worker == NoThread {
        return;
      }
      accepting := false;
      control := Stopping;
    }

    method RequestWorkerStop()
      requires Enabled(View(), RequestStop)
      modifies this
      ensures View() == Next(old(View()), RequestStop)
    {
      stopRequested := true;
      control := Joining;
    }

    method JoinWorker()
      requires Enabled(View(), Join)
      modifies this
      ensures View() == Next(old(View()), Join)
    {
      worker := NoThread;
      control := Idle;
    }
  }
}
