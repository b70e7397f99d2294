/** What every run of the request pipeline guarantees. */
module PipelineResults {
  import opened Pipeline

  // ---------------------------------------------------------------- flush barrier

  lemma {:induction false} SameGeneration(input: seq<Request>, h: nat, f: nat)
    requires h <= f <= |input| && forall k :: h <= k < f ==> input[k].kind != Flush
    ensures Gen(input, f) == Gen(input, h)
    decreases f
  {
    if h < f {
      SameGeneration(input, h, f - 1);
    }
  }

  /** When a flush calls the device, every write and trim decoded since the preceding flush has been
      applied; in particular the first flush after a write never runs before that write. */
  lemma {:induction false} FlushBarrier(states: seq<State>, actions: seq<Action>, i: nat, p: nat, h: nat)
    requires Run(states, actions) && i < |states| && p < |states[i].log|
    requires var s := states[i]; s.log[p] < |s.input| && s.input[s.log[p]].kind == Flush && h < s.log[p]
    requires var s := states[i]; s.input[h].kind.Write? || s.input[h].kind == Trim
    requires var s := states[i]; forall k :: h <= k < s.log[p] ==> s.input[k].kind != Flush
    ensures h in states[i].log[..p]
  {
    var s := states[i];
    RunInv(states, actions, i);
    SameGeneration(s.input, h, s.log[p]);
    assert Barrier(s.input, s.log);
    hide Inv, Gen;
  }

  // ---------------------------------------------------------------- replies and shutdown

  lemma AllTaken(s: State)
    requires Inv(s) && s.back.closed
    ensures Lo(s.front) == s.front.next
    ensures forall i :: 0 <= i < s.front.next ==> i in Out(s.back)
  {
    assert EndsOk(s) && FrontOk(s) && WorkersOk(s);
    assert s.workers[0] == Exited;
    forall i | 0 <= i < s.front.next ensures i in Out(s.back) {
      assert !SomeoneOwes(s, i);
    }
  }

  /** The requests that the device is called for. */
  const DEVICE_CALLS := {Read(true), Write(true), Flush, Trim}

  /** The response queue, and then the device, are closed only after every decoded request has been
      executed exactly once and has been queued for reply exactly once. */
  lemma {:induction false} ClosedAfterAllExecuted(states: seq<State>, actions: seq<Action>, i: nat)
    requires Run(states, actions) && i < |states|
    requires states[i].back.closed || states[i].main == Finished
    ensures var s := states[i];
            && NoDup(s.log) && NoDup(Out(s.back))
            && s.front.next <= |s.input|
            && (forall r: nat :: r in Out(s.back) <==> r < s.front.next)
            && (forall r: nat :: r in s.log <==> r < s.front.next && s.input[r].kind in DEVICE_CALLS)
            && (forall r: nat :: r in s.held <==> r < s.front.next && s.input[r].kind == Write(false))
  {
    var s := states[i];
    RunInv(states, actions, i);
    assert Shape(s) && EndsOk(s);
    AllTaken(s);
    LocksLeft(s);
    assert OutOk(s) && LogOk(s) && FrontOk(s);
    hide Inv, Out, Shape, Gen;
  }

  /** Once everybody has exited, only unaligned writes hold their locks. */
  lemma LocksLeft(s: State)
    requires Inv(s) && Lo(s.front) == s.front.next && forall w :: 0 <= w < |s.workers| ==> s.workers[w] == Exited
    ensures s.front.next <= |s.input|
    ensures forall r: nat :: r in s.held <==> r < s.front.next && s.input[r].kind == Write(false)
  {
    assert LocksOk(s);
    hide Inv, Gen;
  }

  /** Once the writer is done, every decoded request has been answered once, under its own handle,
      although request and response objects are reused. */
  lemma {:induction false} OneReplyEach(states: seq<State>, actions: seq<Action>, i: nat)
    requires Run(states, actions) && i < |states| && states[i].back.writer == Done
    ensures var s := states[i]; var ids := WrittenIds(s.back.written);
            && s.front.next <= |s.input| && NoDup(ids) && (forall r: nat :: r in ids <==> r < s.front.next)
            && forall k :: 0 <= k < |ids| ==>
                 ids[k] < |s.input| && s.back.written[k].1 == Answer(s.input[ids[k]].handle, s.input[ids[k]].kind)
  {
    var s := states[i];
    RunInv(states, actions, i);
    assert Shape(s) && EndsOk(s) && RespsOk(s) && FrontOk(s);
    ClosedAfterAllExecuted(states, actions, i);
    assert Out(s.back) == WrittenIds(s.back.written);
    hide Inv, Out, Shape, Gen, Run;
  }

  /** In every run, at most 64 requests and 32 replies are queued. */
  lemma {:induction false} QueuesAreBounded(states: seq<State>, actions: seq<Action>, i: nat)
    requires Run(states, actions) && i < |states|
    ensures |states[i].front.queue| <= 64 && |states[i].back.queue| <= 32
  {
    if i > 0 {
      QueuesAreBounded(states, actions, i - 1);
      var s, a := states[i - 1], actions[i - 1];
      assert Can(s, a) && states[i - 1 + 1] == Do(s, a);
      hide Run;
    }
  }

  // ---------------------------------------------------------------- pooled objects

  /** Somebody holds the request object, or it is back in its pool. */
  ghost predicate ReqKnown(s: State, ref: nat) {
    || ref in s.reqs.free
    || (s.front.reader.Enqueuing? && s.front.reader.job.ref == ref)
    || (exists k :: 0 <= k < |s.front.queue| && s.front.queue[k].ref == ref)
    || (exists w :: 0 <= w < |s.workers| && HoldsReq(s.workers[w]) && s.workers[w].ref == ref)
  }

  predicate HoldsResp(x: Worker) {
    x.Busy? && x.stage != Recycle
  }

  ghost predicate RespKnown(s: State, ref: nat) {
    || ref in s.resps.free
    || (s.back.writer.Writing? && s.back.writer.reply.ref == ref)
    || (exists k :: 0 <= k < |s.back.queue| && s.back.queue[k].ref == ref)
    || (exists w :: 0 <= w < |s.workers| && HoldsResp(s.workers[w]) && s.workers[w].rref == ref)
  }

  ghost predicate PoolsOk(s: State) {
    && (forall ref :: ref in s.reqs.owner ==> ReqKnown(s, ref))
    && (forall ref :: ref in s.resps.owner ==> RespKnown(s, ref))
  }

  lemma PoolsRead(s: State, a: ReaderAction)
    requires PoolsOk(s) && CanRead(s, a)
    ensures PoolsOk(DoRead(s, a))
  {
    var s' := DoRead(s, a);
    forall ref | ref in s'.reqs.owner ensures ReqKnown(s', ref) {
      if ref in s.reqs.owner && ReqKnown(s, ref) {
        if k :| 0 <= k < |s.front.queue| && s.front.queue[k].ref == ref {
          assert s'.front.queue[k].ref == ref;
        }
        if w :| 0 <= w < |s.workers| && HoldsReq(s.workers[w]) && s.workers[w].ref == ref {
          assert HoldsReq(s'.workers[w]);
        }
        if a.Enqueue? {
          assert s'.front.queue[|s.front.queue|] == s.front.reader.job;
        }
      }
    }
    forall ref | ref in s'.resps.owner ensures RespKnown(s', ref) {
      assert RespKnown(s, ref);
    }
  }

  lemma PoolsEnd(s: State, a: EndAction)
    requires PoolsOk(s) && CanEnd(s, a)
    ensures PoolsOk(DoEnd(s, a))
  {
    var s' := DoEnd(s, a);
    forall ref | ref in s'.reqs.owner ensures ReqKnown(s', ref) {
      assert ReqKnown(s, ref);
    }
    forall ref | ref in s'.resps.owner ensures RespKnown(s', ref) {
      assert RespKnown(s, ref);
      if k :| 0 <= k < |s.back.queue| && s.back.queue[k].ref == ref {
        assert a.WriterTake? && k > 0 ==> s'.back.queue[k - 1].ref == ref;
      }
    }
  }

  lemma ReqsWork(s: State, w: nat, a: WorkerAction, ref: nat)
    requires CanWork(s, w, a) && ReqKnown(s, ref)
    ensures ReqKnown(DoWork(s, w, a), ref)
  {
    var s' := DoWork(s, w, a);
    if k :| 0 <= k < |s.front.queue| && s.front.queue[k].ref == ref {
      assert a.Take? && k > 0 ==> s'.front.queue[k - 1].ref == ref;
      assert a.Take? && k == 0 ==> HoldsReq(s'.workers[w]) && s'.workers[w].ref == ref;
    }
    if v :| 0 <= v < |s.workers| && HoldsReq(s.workers[v]) && s.workers[v].ref == ref {
      assert v != w ==> s'.workers[v] == s.workers[v];
      assert v == w ==> ref in s'.reqs.free || (HoldsReq(s'.workers[w]) && s'.workers[w].ref == ref);
    }
  }

  lemma RespsWork(s: State, w: nat, a: WorkerAction, ref: nat)
    requires CanWork(s, w, a) && (RespKnown(s, ref) || (a.Take? && a.rref == ref))
    ensures RespKnown(DoWork(s, w, a), ref)
  {
    var s' := DoWork(s, w, a);
    assert a.Take? ==> HoldsResp(s'.workers[w]) && s'.workers[w].rref == a.rref;
    assert a.Send? || a.SendBlocked? ==> s'.back.queue[|s.back.queue|].ref == s.workers[w].rref;
    if k :| 0 <= k < |s.back.queue| && s.back.queue[k].ref == ref {
      assert s'.back.queue[k].ref == ref;
    }
    if v :| 0 <= v < |s.workers| && HoldsResp(s.workers[v]) && s.workers[v].rref == ref {
      assert v != w ==> s'.workers[v] == s.workers[v];
      assert v == w && !a.Send? && !a.SendBlocked? ==> HoldsResp(s'.workers[w]) && s'.workers[w].rref == ref;
    }
  }

  lemma PoolsWork(s: State, w: nat, a: WorkerAction)
    requires PoolsOk(s) && CanWork(s, w, a)
    ensures PoolsOk(DoWork(s, w, a))
  {
    var s' := DoWork(s, w, a);
    assert s'.reqs.owner == s.reqs.owner;
    assert s'.resps.owner == if a.Take? then s.resps.owner[a.rref := s.front.queue[0].idx] else s.resps.owner;
    hide ReqKnown, RespKnown, DoWork;
    forall ref | ref in s'.reqs.owner ensures ReqKnown(s', ref) {
      ReqsWork(s, w, a, ref);
    }
    forall ref | ref in s'.resps.owner ensures RespKnown(s', ref) {
      RespsWork(s, w, a, ref);
    }
  }

  lemma {:induction false} PoolsInRuns(states: seq<State>, actions: seq<Action>, i: nat)
    requires Run(states, actions) && i < |states|
    ensures PoolsOk(states[i])
  {
    hide PoolsOk, CanRead, CanWork, CanEnd, DoRead, DoWork, DoEnd;
    if i == 0 {
      NoPoolsYet(states[0]);
    } else {
      PoolsInRuns(states, actions, i - 1);
      var s, a := states[i - 1], actions[i - 1];
      assert Can(s, a) && states[i - 1 + 1] == Do(s, a);
      hide Run;
      match a
      case ByReader(r) => PoolsRead(s, r);
      case ByWorker(w, x) => PoolsWork(s, w, x);
      case ByEnd(e) => PoolsEnd(s, e);
    }
  }

  lemma NoPoolsYet(s: State)
    requires Init(s)
    ensures PoolsOk(s)
  {}

  /** Conservation: when the pipeline is over, every request and response object is back in its pool. */
  lemma {:induction false} ObjectsReturned(states: seq<State>, actions: seq<Action>, i: nat)
    requires Run(states, actions) && i < |states| && states[i].back.writer == Done
    ensures states[i].reqs.free == states[i].reqs.owner.Keys && states[i].resps.free == states[i].resps.owner.Keys
  {
    var s := states[i];
    RunInv(states, actions, i);
    PoolsInRuns(states, actions, i);
    assert Shape(s) && EndsOk(s) && FrontOk(s) && WorkersOk(s) && ReqsOk(s) && RespsOk(s);
    assert s.workers[0] == Exited;
    hide Inv, Shape, Gen, Run;
    forall ref | ref in s.reqs.owner ensures ref in s.reqs.free {
      assert ReqKnown(s, ref);
    }
    forall ref | ref in s.resps.owner ensures ref in s.resps.free {
      assert RespKnown(s, ref);
    }
    assert s.reqs.free == s.reqs.owner.Keys;
    assert s.resps.free == s.resps.owner.Keys;
  }

  // ---------------------------------------------------------------- termination

  function WorkerWeight(x: Worker): nat {
    match x
    case Exited => 0
    case Idle => 1
    case Busy(stage, _, _, _) =>
      match stage
      case Exec => 12
      case FlushNow => 11
      case Finish => 10
      case Respond => 9
      case Blocked => 8
      case Recycle => 3
  }

  function WorkersWeight(ws: seq<Worker>): nat {
    if ws == [] then 0 else WorkerWeight(ws[0]) + WorkersWeight(ws[1..])
  }

  lemma {:induction false} WeightUpdate(ws: seq<Worker>, w: nat, x: Worker)
    requires w < |ws|
    ensures WorkersWeight(ws[w := x]) == WorkersWeight(ws) - WorkerWeight(ws[w]) + WorkerWeight(x)
    decreases w
  {
    if w == 0 {
      assert ws[0 := x][1..] == ws[1..];
    } else {
      assert ws[w := x][1..] == ws[1..][w - 1 := x];
      WeightUpdate(ws[1..], w - 1, x);
    }
  }

  /** An upper bound on the steps that remain. */
  function Remaining(s: State): int {
    20 * (|s.input| - s.front.next)
    + (match s.front.reader case Reading => 1 case Enqueuing(_) => 16 case Stopped => 0)
    + 13 * |s.front.queue| + WorkersWeight(s.workers) + 4 * |s.back.queue|
    + (match s.back.writer case Waiting => 1 case Writing(_) => 4 case Done => 0)
    + (match s.main case WaitCancel => 3 case WaitWorkers => 2 case CloseDevice => 1 case Finished => 0)
    + (if s.cancelled then 0 else 1)
  }

  lemma ReadDecreases(s: State, a: ReaderAction)
    requires CanRead(s, a)
    ensures Remaining(DoRead(s, a)) < Remaining(s)
  {
    assert DoRead(s, a).workers == s.workers;
    hide WorkersWeight;
  }

  lemma EndDecreases(s: State, a: EndAction)
    requires CanEnd(s, a)
    ensures Remaining(DoEnd(s, a)) < Remaining(s)
  {
    assert DoEnd(s, a).workers == s.workers;
    hide WorkersWeight;
  }

  lemma WorkDecreases(s: State, w: nat, a: WorkerAction)
    requires CanWork(s, w, a)
    ensures Remaining(DoWork(s, w, a)) < Remaining(s)
  {
    WorkFrame(s, w, a);
    WeightUpdate(s.workers, w, Worked(s, w, a));
    hide WorkersWeight;
    assert |WorkEffect(s, w, a).back.queue| == |s.back.queue| + if a.Send? || a.SendBlocked? then 1 else 0;
    hide WorkEffect;
  }

  /** Every step brings the end nearer. */
  lemma {:induction false} StepDecreases(s: State, a: Action)
    requires Can(s, a)
    ensures Remaining(Do(s, a)) < Remaining(s)
  {
    match a
    case ByReader(r) => ReadDecreases(s, r);
    case ByWorker(w, x) => WorkDecreases(s, w, x);
    case ByEnd(e) => EndDecreases(s, e);
  }

  lemma {:induction false} StepsAreCounted(states: seq<State>, actions: seq<Action>, i: nat)
    requires Run(states, actions) && i < |states|
    ensures i + Remaining(states[i]) <= Remaining(states[0])
  {
    hide Remaining, Can, Do;
    if i > 0 {
      StepsAreCounted(states, actions, i - 1);
      assert Can(states[i - 1], actions[i - 1]) && states[i - 1 + 1] == Do(states[i - 1], actions[i - 1]);
      StepDecreases(states[i - 1], actions[i - 1]);
    }
  }

  lemma RemainingIsNat(s: State)
    requires s.front.next <= |s.input|
    ensures 0 <= Remaining(s)
  {}

  /** No run is longer than the requests and workers it began with allow. */
  lemma {:induction false} RunsAreBounded(states: seq<State>, actions: seq<Action>)
    requires Run(states, actions)
    ensures |actions| <= Remaining(states[0])
  {
    StepsAreCounted(states, actions, |actions|);
    RunInv(states, actions, |actions|);
    assert Shape(states[|actions|]) && FrontOk(states[|actions|]);
    hide Run, Inv, FrontOk, Shape;
    RemainingIsNat(states[|actions|]);
  }

  // ---------------------------------------------------------------- deadlock

  /** No unaligned write is followed by a flush among the first `n` requests. */
  ghost predicate NoLeak(input: seq<Request>, n: nat) {
    n <= |input| && forall h, f :: 0 <= h < f < n && input[h].kind == Write(false) ==> input[f].kind != Flush
  }

  predicate Over(s: State) {
    s.main == Finished && s.back.writer == Done
  }

  lemma FreshRef<T>(p: Pool<T>) returns (ref: nat)
    ensures p.Offers(ref)
  {
    ref := Fresh(p.owner.Keys);
  }

  lemma Fresh(used: set<nat>) returns (n: nat)
    ensures n !in used
  {
    n := Above(used);
    assert n in used ==> n < n;
  }

  lemma {:induction false} Above(used: set<nat>) returns (n: nat)
    ensures forall x :: x in used ==> x < n
  {
    if used == {} {
      n := 0;
    } else {
      var x :| x in used;
      var m := Above(used - {x});
      n := if m <= x then x + 1 else m;
      forall y | y in used ensures y < n {
        assert y != x ==> y in used - {x};
      }
    }
  }

  /** The reader can always go on, unless the request queue is full. */
  lemma ReaderMoves(s: State) returns (a: ReaderAction)
    requires FrontOk(s) && s.front.reader != Stopped && (s.front.reader.Enqueuing? ==> |s.front.queue| < REQ_QUEUE)
    ensures CanRead(s, a)
  {
    hide Gen;
    if s.front.reader.Enqueuing? {
      a := Enqueue;
    } else if s.front.next == |s.input| {
      a := ReadFail;
    } else {
      var ref := FreshRef(s.reqs);
      a := Decode(ref);
    }
  }

  /** The writer can go on whenever there is something to write. */
  lemma WriterMoves(s: State) returns (a: EndAction)
    requires RespsOk(s) && EndsOk(s) && (s.back.queue != [] || s.back.writer.Writing?)
    ensures CanEnd(s, a) && (a.WriterTake? || a.WriterWrite?)
  {
    if s.back.writer.Writing? {
      assert RespHolds(s, s.back.writer.reply.idx, s.back.writer.reply.ref);
      a := WriterWrite;
    } else {
      a := WriterTake;
    }
  }

  /** A busy worker can go on, unless it executes a flush or waits for a full response queue. */
  lemma WorkerMoves(s: State, w: nat) returns (a: WorkerAction)
    requires ReqsOk(s) && w < |s.workers| && s.workers[w].Busy?
    requires s.workers[w].stage == Blocked ==> |s.back.queue| < RESP_QUEUE
    requires s.workers[w].stage == Exec ==> s.workers[w].idx < |s.input| && s.input[s.workers[w].idx].kind != Flush
    ensures CanWork(s, w, a) && !a.Exit?
  {
    hide Gen;
    var x := s.workers[w];
    assert x.stage != Blocked ==> ReqHolds(s, x.idx, x.ref);
    a := match x.stage
         case Exec => Execute
         case FlushNow => FlushRun
         case Finish => FinishUp
         case Respond => if |s.back.queue| < RESP_QUEUE then Send else SendFull
         case Blocked => SendBlocked
         case Recycle => PutReq;
  }

  /** A flush that cannot take its lock waits for a request that some worker can finish: everything
      decoded before it has left the queue. */
  lemma {:induction false} FlushWaitsForAWorker(s: State, w: nat) returns (v: nat, a: WorkerAction)
    requires Inv(s) && NoLeak(s.input, s.front.next) && w < |s.workers| && s.workers[w].Busy?
             && s.workers[w].stage == Exec
    ensures CanWork(s, v, a) && !a.Exit?
  {
    var x := s.workers[w];
    hide Inv, FrontOk, WorkersOk, ReqsOk, LocksOk, Gen, NoLeak;
    TakenRequest(s, w);
    if s.input[x.idx].kind != Flush || Unlocked(s, s.reqs.mem[x.ref].gen) {
      v, a := w, Execute;
    } else {
      var h :| h in s.held && h <= |s.input| && Gen(s.input, h) == Gen(s.input, x.idx);
      HolderWorks(s, h, x.idx);
      v :| 0 <= v < |s.workers| && Works(s.workers[v], h);
      a := WorkerMoves(s, v);
    }
  }

  lemma TakenRequest(s: State, w: nat)
    requires Inv(s) && w < |s.workers| && s.workers[w].Busy? && s.workers[w].stage == Exec
    ensures FrontOk(s) && WorkersOk(s) && ReqsOk(s) && LocksOk(s)
    ensures ReqHolds(s, s.workers[w].idx, s.workers[w].ref) && s.workers[w].idx < Lo(s.front)
  {
    hide OutOk, RespsOk, LogOk, FlushesOk, Barrier, Gen;
  }

  /** A taken flush and a held lock of its generation: some worker is about to give the lock back. */
  lemma HolderWorks(s: State, h: nat, f: nat)
    requires LocksOk(s) && NoLeak(s.input, s.front.next) && h in s.held && f < Lo(s.front) && s.input[f].kind == Flush
    requires h <= |s.input| && Gen(s.input, h) == Gen(s.input, f)
    ensures SomeoneWorks(s.workers, h)
  {
    hide Gen, SomeoneWorks;
    Earlier(s.input, h, f, s.front.next);
    assert Unlocks(s.input[h].kind);
  }

  /** Two requests of one generation, one of them its flush: the flush is the later one. */
  lemma {:induction false} Earlier(input: seq<Request>, h: nat, f: nat, n: nat)
    requires f < n <= |input| && h < n && h != f && input[f].kind == Flush && Gen(input, h) == Gen(input, f)
    ensures h < f
  {
    if f < h {
      assert Gen(input, f + 1) == Gen(input, f) + 1;
      GenMonotone(input, f + 1, h);
    }
  }

  lemma {:induction false} GenMonotone(input: seq<Request>, i: nat, j: nat)
    requires i <= j <= |input|
    ensures Gen(input, i) <= Gen(input, j)
    decreases j
  {
    if i < j {
      GenMonotone(input, i, j - 1);
    }
  }

  /** Some worker can go on while one of them has not exited, nothing waits to be written, and the
      reader is stopped or stands before a full queue. */
  lemma SomeWorkerMoves(s: State, w: nat) returns (v: nat, a: WorkerAction)
    requires Inv(s) && NoLeak(s.input, s.front.next) && w < |s.workers| && s.workers[w] != Exited && s.back.queue == []
    requires s.front.closed || s.front.queue != []
    ensures CanWork(s, v, a)
  {
    assert ReqsOk(s);
    v := w;
    if s.workers[w] == Idle {
      var rref := FreshRef(s.resps);
      a := if s.front.queue != [] then Take(rref) else Exit;
    } else if s.workers[w].stage == Exec {
      v, a := FlushWaitsForAWorker(s, w);
    } else {
      hide Inv;
      a := WorkerMoves(s, w);
    }
  }

  /** Some decoded request has not been answered yet. */
  ghost predicate InFlight(s: State) {
    || s.front.reader.Enqueuing? || s.front.queue != [] || s.back.queue != [] || s.back.writer.Writing?
    || exists w :: 0 <= w < |s.workers| && s.workers[w].Busy?
  }

  /** A step that serves requests already decoded. */
  predicate Serves(a: Action) {
    a == ByReader(Enqueue) || (a.ByWorker? && !a.a.Exit?) || a == ByEnd(WriterTake) || a == ByEnd(WriterWrite)
  }

  /** No deadlock among the requests in flight, whatever else happens or does not: neither new input nor
      a shutdown is needed for the next step. */
  lemma {:induction false} InFlightMoves(s: State) returns (a: Action)
    requires Inv(s) && NoLeak(s.input, s.front.next) && InFlight(s)
    ensures Can(s, a) && Serves(a)
  {
    assert Shape(s) && RespsOk(s) && ReqsOk(s) && EndsOk(s) && WorkersOk(s);
    hide Inv, Shape, FrontOk, EndsOk, RespsOk, ReqsOk, NoLeak;
    if s.front.reader.Enqueuing? && |s.front.queue| < REQ_QUEUE {
      a := ByReader(Enqueue);
    } else if s.back.queue != [] || s.back.writer.Writing? {
      hide WorkersOk;
      var e := WriterMoves(s);
      a := ByEnd(e);
    } else if exists w :: 0 <= w < |s.workers| && s.workers[w].Busy? {
      hide WorkersOk;
      var w :| 0 <= w < |s.workers| && s.workers[w].Busy?;
      var v, x := BusyMoves(s, w);
      a := ByWorker(v, x);
    } else {
      assert s.workers[0] == Idle;
      var rref := FreshRef(s.resps);
      a := ByWorker(0, Take(rref));
    }
  }

  lemma BusyMoves(s: State, w: nat) returns (v: nat, a: WorkerAction)
    requires Inv(s) && ReqsOk(s) && NoLeak(s.input, s.front.next) && w < |s.workers| && s.workers[w].Busy?
             && s.back.queue == []
    ensures CanWork(s, v, a) && !a.Exit?
  {
    hide Inv, NoLeak;
    if s.workers[w].stage == Exec {
      hide ReqsOk;
      v, a := FlushWaitsForAWorker(s, w);
    } else {
      v := w;
      a := WorkerMoves(s, w);
    }
  }

  /** Shutdown goes on once every worker has exited. */
  lemma ShutdownMoves(s: State) returns (a: EndAction)
    requires FrontOk(s) && WorkersOk(s) && EndsOk(s) && s.back.queue == [] && !s.back.writer.Writing? && !Over(s)
    requires forall w :: 0 <= w < |s.workers| ==> s.workers[w] == Exited
    ensures CanEnd(s, a)
  {
    hide Gen;
    assert s.workers[0] == Exited;
    a := match s.main
         case WaitCancel => MainWake
         case WaitWorkers => MainCloseResp
         case CloseDevice => MainCloseDevice
         case Finished => WriterExit;
  }

  /** No deadlock: until everything is over, some step is possible. */
  lemma {:induction false} NeverStuck(s: State) returns (a: Action)
    requires Inv(s) && NoLeak(s.input, s.front.next) && !Over(s)
    ensures Can(s, a)
  {
    assert Shape(s) && RespsOk(s);
    assert s.front.closed == (s.front.reader == Stopped);
    hide Inv, FrontOk, WorkersOk, EndsOk, RespsOk, CanRead, CanWork, CanEnd, Over;
    if s.front.reader != Stopped && (s.front.reader.Enqueuing? ==> |s.front.queue| < REQ_QUEUE) {
      var r := ReaderMoves(s);
      a := ByReader(r);
    } else if s.back.queue != [] || s.back.writer.Writing? {
      var e := WriterMoves(s);
      a := ByEnd(e);
    } else if exists w :: 0 <= w < |s.workers| && s.workers[w] != Exited {
      var w :| 0 <= w < |s.workers| && s.workers[w] != Exited;
      var v, x := SomeWorkerMoves(s, w);
      a := ByWorker(v, x);
    } else {
      var e := ShutdownMoves(s);
      a := ByEnd(e);
    }
  }

  // ---------------------------------------------------------------- a leaked lock

  lemma {:induction false} FirstFlush(input: seq<Request>, h: nat, f: nat) returns (g: nat)
    requires h < f < |input| && input[h].kind != Flush && input[f].kind == Flush
    ensures h < g <= f && input[g].kind == Flush && Gen(input, g) == Gen(input, h)
    decreases f
  {
    if exists k :: h < k < f && input[k].kind == Flush {
      var k :| h < k < f && input[k].kind == Flush;
      g := FirstFlush(input, h, k);
    } else {
      g := f;
      SameGeneration(input, h, f);
    }
  }

  /** An unaligned write never gives its lock back: the next flush is never executed, and neither the
      response queue nor the device is ever closed. */
  lemma {:induction false} LeakBlocksFlush(s: State, h: nat, f: nat)
    requires Inv(s) && h < f < s.front.next && s.front.next <= |s.input|
    requires s.input[h].kind == Write(false) && s.input[f].kind == Flush && Gen(s.input, h) == Gen(s.input, f)
    ensures f !in s.log && !s.back.closed && s.main != Finished
  {
    assert Shape(s) && EndsOk(s) && LogOk(s);
    ExecutedBefore(s, h, f);
    ClosedMeansExecuted(s, f);
    hide Inv, Gen, Out;
  }

  lemma ExecutedBefore(s: State, h: nat, f: nat)
    requires Inv(s) && h < f < |s.input| && LocksForFlush(s.input[h].kind) && s.input[f].kind == Flush
    requires Gen(s.input, h) == Gen(s.input, f)
    ensures f in s.log ==> h in s.log
  {
    assert Barrier(s.input, s.log);
    hide Inv, Gen;
    if f in s.log {
      var p :| 0 <= p < |s.log| && s.log[p] == f;
      assert h in s.log[..p];
    }
  }

  lemma ClosedMeansExecuted(s: State, f: nat)
    requires Inv(s) && f < s.front.next <= |s.input| && Executes(s.input[f].kind)
    ensures s.back.closed ==> f in s.log
  {
    assert LogOk(s);
    if s.back.closed {
      AllTaken(s);
      assert f in Out(s.back);
    }
    hide Inv, Gen, Out;
  }

  /** A run that cannot go on has shut everything down exactly when no unaligned write was followed by
      a flush among the requests it decoded. Every run comes to such an end (see RunsAreBounded). */
  lemma {:induction false} ShutdownExactlyWithoutLeak(states: seq<State>, actions: seq<Action>)
    requires Run(states, actions) && forall a: Action :: !Can(states[|actions|], a)
    ensures var s := states[|actions|];
            Over(s) <==> NoLeak(s.input, s.front.next)
  {
    var s := states[|actions|];
    RunInv(states, actions, |actions|);
    if NoLeak(s.input, s.front.next) && !Over(s) {
      var a := NeverStuck(s);
      assert false;
    }
    if Over(s) && !NoLeak(s.input, s.front.next) {
      assert Shape(s) && FrontOk(s);
      var h, f :| 0 <= h < f < s.front.next && s.input[h].kind == Write(false) && s.input[f].kind == Flush;
      var g := FirstFlush(s.input, h, f);
      LeakBlocksFlush(s, h, g);
      assert false;
    }
  }

  // ---------------------------------------------------------------- nobody is forgotten

  /** Everything up to the end of the stream, or up to a disconnect, has been decoded. */
  predicate ReadAll(s: State) {
    s.front.reader == Stopped
      && (s.front.next == |s.input| || (s.front.next < |s.input| && s.input[s.front.next].kind == Disconnect))
  }

  lemma ReaderStep(s: State, a: Action)
    requires Can(s, a) && a != ByEnd(Cancel) && (s.cancelled || s.front.reader == Stopped ==> ReadAll(s))
    ensures var s' := Do(s, a); s'.input == s.input && (s'.cancelled || s'.front.reader == Stopped ==> ReadAll(s'))
  {
    match a
    case ByReader(r) =>
    case ByWorker(w, x) =>
      WorkFrame(s, w, x);
      hide WorkEffect;
    case ByEnd(e) =>
  }

  /** Unless somebody cancels, the reader stops only at the end of the stream or at a disconnect. */
  lemma {:induction false} ReaderReadsAll(states: seq<State>, actions: seq<Action>, i: nat)
    requires Run(states, actions) && i < |states| && forall k :: 0 <= k < i ==> actions[k] != ByEnd(Cancel)
    ensures var s := states[i];
            s.input == states[0].input && (s.cancelled || s.front.reader == Stopped ==> ReadAll(s))
  {
    hide Can, Do, ReadAll;
    if i > 0 {
      ReaderReadsAll(states, actions, i - 1);
      assert Can(states[i - 1], actions[i - 1]) && states[i - 1 + 1] == Do(states[i - 1], actions[i - 1]);
      ReaderStep(states[i - 1], actions[i - 1]);
    }
  }

  /** From end to end: a run that nobody cancels, and that cannot go on, has served exactly the requests
      before the first disconnect, each with one reply under its own handle and, by its kind, with one
      device call or none; unless an unaligned write came before a flush. */
  lemma {:induction false} EveryRequestServed(states: seq<State>, actions: seq<Action>)
    requires Run(states, actions) && (forall a: Action :: !Can(states[|actions|], a))
    requires forall k :: 0 <= k < |actions| ==> actions[k] != ByEnd(Cancel)
    requires NoLeak(states[0].input, |states[0].input|)
    ensures var s, input := states[|actions|], states[0].input;
            var n, ids := s.front.next, WrittenIds(s.back.written);
            && n <= |input| && (n < |input| ==> input[n].kind == Disconnect)
            && (forall r :: 0 <= r < n ==> input[r].kind != Disconnect)
            && NoDup(ids) && (forall r: nat :: r in ids <==> r < n)
            && (forall k :: 0 <= k < |ids| ==>
                  ids[k] < n && s.back.written[k].1 == Answer(input[ids[k]].handle, input[ids[k]].kind))
            && NoDup(s.log) && (forall r: nat :: r in s.log <==> r < n && input[r].kind in DEVICE_CALLS)
  {
    var n, s := |actions|, states[|actions|];
    ReaderReadsAll(states, actions, n);
    RunInv(states, actions, n);
    assert Shape(s) && FrontOk(s) && EndsOk(s);
    ShutdownExactlyWithoutLeak(states, actions);
    OneReplyEach(states, actions, n);
    ClosedAfterAllExecuted(states, actions, n);
    hide Run, Inv, Gen, Shape, Can;
  }

  /** The reader's own RLock never blocks: no flush has the reader's current mutex. */
  lemma {:induction false} ReaderNeverBlocks(s: State, f: nat)
    requires FrontOk(s) && f < s.front.next && s.input[f].kind == Flush
    ensures Gen(s.input, f) < s.front.gen
  {
    assert Gen(s.input, f + 1) == Gen(s.input, f) + 1;
    hide Gen;
    GenMonotone(s.input, f + 1, s.front.next);
  }

  // ---------------------------------------------------------------- making runs

  /** Runs begin with any input and any positive number of workers. */
  lemma {:induction false} AnyStart(input: seq<Request>, n: nat) returns (s: State)
    requires n >= 1
    ensures s.input == input && |s.workers| == n && Run([s], [])
  {
    s := State(input, false, WaitCancel, Front(0, 0, Reading, [], false), seq(n, _ => Idle),
               Back([], false, Waiting, []), {}, [], Pool(map[], {}, map[]), Pool(map[], {}, map[]));
  }

  /** Extends a run by one step. */
  lemma Extend(states: seq<State>, actions: seq<Action>, a: Action) returns (states': seq<State>, actions': seq<Action>)
    requires Run(states, actions) && Can(states[|actions|], a)
    ensures Run(states', actions') && |actions'| == |actions| + 1 && states'[|actions'|] == Do(states[|actions|], a)
  {
    states', actions' := states + [Do(states[|actions|], a)], actions + [a];
    forall i | 0 <= i < |actions'| ensures Can(states'[i], actions'[i])
      && states'[i + 1] == Do(states'[i], actions'[i]) {
      assert i < |actions| ==> states'[i] == states[i] && states'[i + 1] == states[i + 1] && actions'[i] == actions[i];
    }
  }

  /** Decodes and queues the next request into a new object. */
  lemma Admit(states: seq<State>, actions: seq<Action>) returns (states': seq<State>, actions': seq<Action>)
    requires Run(states, actions)
    requires var s := states[|actions|]; s.front.reader == Reading && |s.front.queue| < REQ_QUEUE
    requires var s := states[|actions|]; s.front.next < |s.input|
    requires var s := states[|actions|]; s.front.next !in s.reqs.owner && s.input[s.front.next].kind != Disconnect
    ensures Run(states', actions')
    ensures var s, n := states[|actions|], states[|actions|].front.next; var r := s.input[n];
            states'[|actions'|] == s.(
              front := s.front.(next := n + 1, gen := if r.kind == Flush then s.front.gen + 1 else s.front.gen, queue :=
                  s.front.queue + [Job(n, n)]),
              held := if LocksForFlush(r.kind) then s.held + {n} else s.held,
              reqs := s.reqs.Get(n, n).Fill(n, Decoded(r, s.front.gen)))
  {
    var n := states[|actions|].front.next;
    hide Run;
    states', actions' := Extend(states, actions, ByReader(Decode(n)));
    states', actions' := Extend(states', actions', ByReader(Enqueue));
  }
}
