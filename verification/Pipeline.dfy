/** The NBD request pipeline of reqproc.go as a transition system: one reader, any number of workers,
    one writer, two bounded FIFO queues, pooled request and response objects, and a flush barrier that
    gives each generation of writes its own RWMutex. */
module Pipeline {
  const REQ_QUEUE := 64
  const RESP_QUEUE := 32

  datatype Kind = Read(aligned: bool) | Write(aligned: bool) | Flush | Trim | Disconnect | Unknown

  datatype Request = Request(kind: Kind, handle: nat)

  /** A decoded request object: the request and the generation of its flush mutex. */
  datatype Decoded = Decoded(request: Request, gen: nat)

  /** What response.Set keeps of a request. */
  datatype Answer = Answer(handle: nat, kind: Kind)

  /** A request or reply in flight: its place in the stream and the pooled object that holds it. */
  datatype Job = Job(idx: nat, ref: nat)

  /** A sync.Pool and the objects that came from it. `owner`: the request each was last used for. */
  datatype Pool<T> = Pool(mem: map<nat, T>, free: set<nat>, owner: map<nat, nat>)
  {
    /** A returned object, or a new one. */
    predicate Offers(ref: nat) {
      ref in free || ref !in owner
    }

    function Get(ref: nat, idx: nat): Pool<T> {
      this.(free := free - {ref}, owner := owner[ref := idx])
    }

    function Put(ref: nat): Pool<T> {
      this.(free := free + {ref})
    }

    function Fill(ref: nat, x: T): Pool<T> {
      this.(mem := mem[ref := x])
    }
  }

  datatype Reader = Reading | Enqueuing(job: Job) | Stopped

  /** readStrmWorker and the request queue. */
  datatype Front = Front(next: nat, gen: nat, reader: Reader, queue: seq<Job>, closed: bool)

  datatype Stage = Exec | FlushNow | Finish | Respond | Blocked | Recycle

  /** A busy worker holds a request object `ref` and a response object `rref`. */
  datatype Worker = Idle | Busy(stage: Stage, idx: nat, ref: nat, rref: nat) | Exited

  datatype Writer = Waiting | Writing(reply: Job) | Done

  /** The response queue, writeStrmWorker, and what has been written to the client. */
  datatype Back = Back(queue: seq<Job>, closed: bool, writer: Writer, written: seq<(nat, Answer)>)

  datatype Main = WaitCancel | WaitWorkers | CloseDevice | Finished

  /** `held`: requests that hold the read lock of their generation. `log`: device calls, in order. */
  datatype State = State(
    input: seq<Request>, cancelled: bool, main: Main, front: Front, workers: seq<Worker>, back: Back,
    held: set<nat>, log: seq<nat>, reqs: Pool<Decoded>, resps: Pool<Answer>)

  /** The generation of a position in the stream: the number of flushes before it. */
  function Gen(input: seq<Request>, i: nat): nat
    requires i <= |input|
  {
    if i == 0 then 0 else Gen(input, i - 1) + (if input[i - 1].kind == Flush then 1 else 0)
  }

  predicate LocksForFlush(k: Kind) {
    k.Write? || k == Trim
  }

  /** Requests that reach the device. */
  predicate Executes(k: Kind) {
    match k
    case Read(aligned) => aligned
    case Write(aligned) => aligned
    case Flush => true
    case Trim => true
    case _ => false
  }

  /** execute registers the RUnlock only after the alignment check. */
  predicate Unlocks(k: Kind) {
    k == Write(true) || k == Trim
  }

  /** No request of generation `g` holds the read lock. */
  predicate Unlocked(s: State, g: nat) {
    forall h :: h in s.held && h <= |s.input| ==> Gen(s.input, h) != g
  }

  // ---------------------------------------------------------------- reader: reqproc.go:73-112

  datatype ReaderAction = ReadStop | ReadFail | Decode(ref: nat) | Enqueue

  predicate CanRead(s: State, a: ReaderAction) {
    match a
    case ReadStop => s.front.reader == Reading && s.cancelled
    case ReadFail => s.front.reader == Reading && s.front.next == |s.input|
    case Decode(ref) => s.front.reader == Reading && s.front.next < |s.input| && s.reqs.Offers(ref)
    case Enqueue => s.front.reader.Enqueuing? && |s.front.queue| < REQ_QUEUE
  }

  function DoRead(s: State, a: ReaderAction): State
    requires CanRead(s, a)
  {
    var f := s.front;
    match a
    case ReadStop => s.(front := f.(reader := Stopped, closed := true))
    case ReadFail => s.(front := f.(reader := Stopped, closed := true), cancelled := true)
    case Decode(ref) =>
      var r := s.input[f.next];
      if r.kind == Disconnect then s.(front := f.(reader := Stopped, closed := true), cancelled := true)
      else
        s.(front := f.(next := f.next + 1, gen := if r.kind == Flush then f.gen + 1 else f.gen,
                       reader := Enqueuing(Job(f.next, ref))),
           held := if LocksForFlush(r.kind) then s.held + {f.next} else s.held,
           reqs := s.reqs.Get(ref, f.next).Fill(ref, Decoded(r, f.gen)))
    case Enqueue => s.(front := f.(queue := f.queue + [f.reader.job], reader := Reading))
  }

  // ---------------------------------------------------------------- workers: reqproc.go:157-233

  datatype WorkerAction =
    Take(rref: nat) | Exit | Execute | FlushRun | FinishUp | Send | SendFull | SendBlocked | PutReq

  predicate CanWork(s: State, w: nat, a: WorkerAction) {
    && w < |s.workers|
    && var x := s.workers[w];
       match a
       case Take(rref) => x == Idle && s.front.queue != [] && s.resps.Offers(rref)
       case Exit => x == Idle && s.front.queue == [] && s.front.closed
       case Execute =>
         x.Busy? && x.stage == Exec && x.ref in s.reqs.mem &&
         (s.reqs.mem[x.ref].request.kind == Flush ==> Unlocked(s, s.reqs.mem[x.ref].gen))
       case FlushRun => x.Busy? && x.stage == FlushNow
       case FinishUp => x.Busy? && x.stage == Finish && x.ref in s.reqs.mem
       case Send => x.Busy? && x.stage == Respond && |s.back.queue| < RESP_QUEUE
       case SendFull => x.Busy? && x.stage == Respond && |s.back.queue| >= RESP_QUEUE
       case SendBlocked => x.Busy? && x.stage == Blocked && |s.back.queue| < RESP_QUEUE
       case PutReq => x.Busy? && x.stage == Recycle
  }

  /** The worker after its step. */
  function Worked(s: State, w: nat, a: WorkerAction): Worker
    requires CanWork(s, w, a)
  {
    var x := s.workers[w];
    match a
    case Take(rref) => Busy(Exec, s.front.queue[0].idx, s.front.queue[0].ref, rref)
    case Exit => Exited
    case Execute => x.(stage := if s.reqs.mem[x.ref].request.kind == Flush then FlushNow else Finish)
    case FlushRun => x.(stage := Finish)
    case FinishUp => x.(stage := Respond)
    case Send => x.(stage := Recycle)
    case SendFull => x.(stage := Blocked)
    case SendBlocked => Idle
    case PutReq => Idle
  }

  /** Everything else after the worker's step. */
  function WorkEffect(s: State, w: nat, a: WorkerAction): State
    requires CanWork(s, w, a)
  {
    var x := s.workers[w];
    match a
    case Take(rref) => s.(front := s.front.(queue := s.front.queue[1..]), resps :=
        s.resps.Get(rref, s.front.queue[0].idx))
    case Exit => s
    case Execute =>
      var k := s.reqs.mem[x.ref].request.kind;
      if k != Flush && Executes(k) then s.(log := s.log + [x.idx]) else s
    case FlushRun => s.(log := s.log + [x.idx])
    case FinishUp =>
      var r := s.reqs.mem[x.ref].request;
      s.(resps := s.resps.Fill(x.rref, Answer(r.handle, r.kind)), held :=
          if Unlocks(r.kind) then s.held - {x.idx} else s.held)
    case Send => s.(back := s.back.(queue := s.back.queue + [Job(x.idx, x.rref)]))
    case SendFull => s.(reqs := s.reqs.Put(x.ref))
    case SendBlocked => s.(back := s.back.(queue := s.back.queue + [Job(x.idx, x.rref)]))
    case PutReq => s.(reqs := s.reqs.Put(x.ref))
  }

  // ---------------------------------------------------------------- writer and main: reqproc.go:63-70, 114-155

  datatype EndAction = Cancel | WriterTake | WriterWrite | WriterExit | MainWake | MainCloseResp | MainCloseDevice

  predicate CanEnd(s: State, a: EndAction) {
    match a
    case Cancel => !s.cancelled
    case WriterTake => s.back.writer == Waiting && s.back.queue != []
    case WriterWrite => s.back.writer.Writing? && s.back.writer.reply.ref in s.resps.mem
    case WriterExit => s.back.writer == Waiting && s.back.queue == [] && s.back.closed
    case MainWake => s.main == WaitCancel && s.cancelled
    case MainCloseResp => s.main == WaitWorkers && forall w :: 0 <= w < |s.workers| ==> s.workers[w] == Exited
    case MainCloseDevice => s.main == CloseDevice
  }

  function DoEnd(s: State, a: EndAction): State
    requires CanEnd(s, a)
  {
    var b := s.back;
    match a
    case Cancel => s.(cancelled := true)
    case WriterTake => s.(back := b.(writer := Writing(b.queue[0]), queue := b.queue[1..]))
    case WriterWrite =>
      s.(back := b.(writer := Waiting, written := b.written + [(b.writer.reply.idx, s.resps.mem[b.writer.reply.ref])]),
         resps := s.resps.Put(b.writer.reply.ref))
    case WriterExit => s.(back := b.(writer := Done))
    case MainWake => s.(main := WaitWorkers)
    case MainCloseResp => s.(main := CloseDevice, back := b.(closed := true))
    case MainCloseDevice => s.(main := Finished)
  }

  // ---------------------------------------------------------------- runs

  datatype Action = ByReader(r: ReaderAction) | ByWorker(w: nat, a: WorkerAction) | ByEnd(e: EndAction)

  predicate Can(s: State, a: Action) {
    match a
    case ByReader(r) => CanRead(s, r)
    case ByWorker(w, x) => CanWork(s, w, x)
    case ByEnd(e) => CanEnd(s, e)
  }

  function DoWork(s: State, w: nat, a: WorkerAction): State
    requires CanWork(s, w, a)
  {
    WorkEffect(s, w, a).(workers := s.workers[w := Worked(s, w, a)])
  }

  function Do(s: State, a: Action): State
    requires Can(s, a)
  {
    match a
    case ByReader(r) => DoRead(s, r)
    case ByWorker(w, x) => DoWork(s, w, x)
    case ByEnd(e) => DoEnd(s, e)
  }

  predicate Init(s: State) {
    && !s.cancelled && s.main == WaitCancel && s.front == Front(0, 0, Reading, [], false)
    && |s.workers| >= 1 && (forall w :: 0 <= w < |s.workers| ==> s.workers[w] == Idle)
    && s.back == Back([], false, Waiting, []) && s.held == {} && s.log == []
    && s.reqs == Pool(map[], {}, map[]) && s.resps == Pool(map[], {}, map[])
  }

  ghost predicate Run(states: seq<State>, actions: seq<Action>) {
    && |states| == |actions| + 1 && Init(states[0])
    && forall i :: 0 <= i < |actions| ==> Can(states[i], actions[i]) && states[i + 1] == Do(states[i], actions[i])
  }

  // ---------------------------------------------------------------- invariant

  /** The first request that has not yet been taken by a worker: everything before it has left the queue. */
  function Lo(f: Front): int {
    (if f.reader.Enqueuing? then f.next - 1 else f.next) - |f.queue|
  }

  /** The stream, the reader and the queue: positions are consecutive. */
  ghost predicate FrontOk(s: State) {
    var f := s.front;
    && f.next <= |s.input| && f.gen == Gen(s.input, f.next) && 0 <= Lo(f)
    && (forall i :: 0 <= i < f.next ==> s.input[i].kind != Disconnect)
    && (f.reader.Enqueuing? ==> f.reader.job.idx == f.next - 1)
    && (forall k :: 0 <= k < |f.queue| ==> f.queue[k].idx == Lo(f) + k)
    && f.closed == (f.reader == Stopped) && (f.closed ==> s.cancelled)
  }

  /** Busy workers hold different requests, all of which have left the queue. */
  ghost predicate WorkersOk(s: State) {
    && |s.workers| >= 1
    && (forall w :: 0 <= w < |s.workers| && s.workers[w].Busy? ==> s.workers[w].idx < Lo(s.front))
    && (forall v, w :: 0 <= v < |s.workers| && 0 <= w < |s.workers| && v != w ==>
          s.workers[v].Busy? && s.workers[w].Busy? ==> s.workers[v].idx != s.workers[w].idx)
    && (forall w :: 0 <= w < |s.workers| && s.workers[w] == Exited ==> s.front.closed && s.front.queue == [])
  }

  /** Shutdown goes in order: workers, response queue, device. */
  ghost predicate EndsOk(s: State) {
    && (s.main != WaitCancel ==> s.cancelled)
    && s.back.closed == (s.main == CloseDevice || s.main == Finished)
    && (s.back.closed ==> forall w :: 0 <= w < |s.workers| ==> s.workers[w] == Exited)
    && (s.back.writer == Done ==> s.back.closed && s.back.queue == [])
  }

  /** What a worker's step leaves alone. */
  lemma WorkFrame(s: State, w: nat, a: WorkerAction)
    requires CanWork(s, w, a)
    ensures var e := WorkEffect(s, w, a);
            && e.input == s.input && e.cancelled == s.cancelled && e.main == s.main && e.workers == s.workers
            && e.front == (if a.Take? then s.front.(queue := s.front.queue[1..]) else s.front)
            && e.back == s.back.(queue := e.back.queue)
  {}

  lemma WorkedFrame(s: State, w: nat, a: WorkerAction)
    requires CanWork(s, w, a)
    ensures var x, x' := s.workers[w], Worked(s, w, a);
            && x != Exited && (x' == Exited <==> a.Exit?)
            && (x'.Busy? ==> if a.Take? then x'.idx == s.front.queue[0].idx else x.Busy? && x' == x.(stage := x'.stage))
  {}

  lemma FrontReadKept(s: State, a: ReaderAction)
    requires FrontOk(s) && CanRead(s, a)
    ensures FrontOk(DoRead(s, a))
  {}

  lemma FrontWorkKept(s: State, w: nat, a: WorkerAction)
    requires FrontOk(s) && CanWork(s, w, a)
    ensures FrontOk(DoWork(s, w, a))
  {
    WorkFrame(s, w, a);
    hide WorkEffect;
  }

  lemma WorkersReadKept(s: State, a: ReaderAction)
    requires WorkersOk(s) && CanRead(s, a)
    requires forall w :: 0 <= w < |s.workers| && s.workers[w] == Exited ==> s.front.reader == Stopped
    ensures WorkersOk(DoRead(s, a))
  {}

  lemma WorkersWorkKept(s: State, w: nat, a: WorkerAction)
    requires FrontOk(s) && WorkersOk(s) && CanWork(s, w, a)
    ensures WorkersOk(DoWork(s, w, a))
  {
    WorkFrame(s, w, a);
    WorkedFrame(s, w, a);
    hide WorkEffect, Worked;
  }

  /** The structural part of the invariant. */
  ghost predicate Shape(s: State) {
    FrontOk(s) && WorkersOk(s) && EndsOk(s)
  }

  lemma ShapeKept(s: State, a: Action)
    requires Shape(s) && Can(s, a)
    ensures Shape(Do(s, a))
  {
    match a
    case ByReader(r) =>
      FrontReadKept(s, r);
      WorkersReadKept(s, r);
      assert DoRead(s, r).back == s.back && DoRead(s, r).main == s.main && DoRead(s, r).workers == s.workers;
      hide CanRead, FrontOk, WorkersOk;
    case ByWorker(w, x) =>
      FrontWorkKept(s, w, x);
      WorkersWorkKept(s, w, x);
      WorkFrame(s, w, x);
      WorkedFrame(s, w, x);
      hide WorkEffect, Worked, FrontOk, WorkersOk;
    case ByEnd(e) =>
  }

  // ---------------------------------------------------------------- one reply per request

  function JobIds(q: seq<Job>): (r: seq<nat>)
    ensures |r| == |q|
  {
    seq(|q|, i requires 0 <= i < |q| => q[i].idx)
  }

  function WrittenIds(q: seq<(nat, Answer)>): (r: seq<nat>)
    ensures |r| == |q|
  {
    seq(|q|, i requires 0 <= i < |q| => q[i].0)
  }

  /** The replies sent so far, in the order in which they were queued. */
  function Out(b: Back): seq<nat> {
    WrittenIds(b.written) + (if b.writer.Writing? then [b.writer.reply.idx] else []) + JobIds(b.queue)
  }

  ghost predicate NoDup(q: seq<nat>) {
    forall i, j :: 0 <= i < j < |q| ==> q[i] != q[j]
  }

  /** The worker still owes the reply for request `i`. */
  predicate Owes(x: Worker, i: nat) {
    x.Busy? && x.stage != Recycle && x.idx == i
  }

  ghost predicate SomeoneOwes(s: State, i: nat) {
    exists w :: 0 <= w < |s.workers| && Owes(s.workers[w], i)
  }

  /** A request that has left the queue is owed by one worker or has been replied to once, not both. */
  ghost predicate OutOk(s: State) {
    && NoDup(Out(s.back))
    && (forall i :: i in Out(s.back) ==> i < Lo(s.front) && !SomeoneOwes(s, i))
    && (forall i :: 0 <= i < Lo(s.front) ==> i in Out(s.back) || SomeoneOwes(s, i))
  }

  lemma OutEndKept(s: State, a: EndAction)
    requires CanEnd(s, a)
    ensures Out(DoEnd(s, a).back) == Out(s.back)
  {
    var b, b' := s.back, DoEnd(s, a).back;
    if a.WriterTake? {
      assert JobIds(b.queue) == [b.queue[0].idx] + JobIds(b'.queue);
    } else if a.WriterWrite? {
      assert WrittenIds(b'.written) == WrittenIds(b.written) + [b.writer.reply.idx];
    }
  }

  lemma OutWorkKept(s: State, w: nat, a: WorkerAction)
    requires CanWork(s, w, a)
    ensures Out(DoWork(s, w, a).back) == Out(s.back) + (if a.Send? || a.SendBlocked? then [s.workers[w].idx] else [])
  {
    if a.Send? || a.SendBlocked? {
      var q := s.back.queue + [Job(s.workers[w].idx, s.workers[w].rref)];
      assert JobIds(q) == JobIds(s.back.queue) + [s.workers[w].idx];
    }
  }

  /** How a worker's step changes who owes what. */
  lemma OwesAfter(s: State, w: nat, a: WorkerAction, i: nat)
    requires FrontOk(s) && WorkersOk(s) && CanWork(s, w, a)
    ensures SomeoneOwes(DoWork(s, w, a), i) <==>
            (SomeoneOwes(s, i) && !((a.Send? || a.SendBlocked?) && i == s.workers[w].idx)) || (a.Take?
              && i == Lo(s.front))
  {
    var s' := DoWork(s, w, a);
    WorkFrame(s, w, a);
    if SomeoneOwes(s, i) {
      var v :| 0 <= v < |s.workers| && Owes(s.workers[v], i);
      assert v != w ==> s'.workers[v] == s.workers[v];
      assert v == w ==> Owes(s'.workers[w], i) || a.Send? || a.SendBlocked?;
    }
    if SomeoneOwes(s', i) {
      var v :| 0 <= v < |s'.workers| && Owes(s'.workers[v], i);
      assert v != w ==> s'.workers[v] == s.workers[v];
      assert v == w ==> Owes(s.workers[w], i) || a.Take?;
    }
    if a.Take? {
      assert Owes(s'.workers[w], Lo(s.front));
    }
    hide WorkEffect;
  }

  lemma OutKept(s: State, a: Action)
    requires Shape(s) && OutOk(s) && Can(s, a)
    ensures OutOk(Do(s, a))
  {
    match a
    case ByReader(r) =>
      assert DoRead(s, r).back == s.back && DoRead(s, r).workers == s.workers && Lo(DoRead(s, r).front) == Lo(s.front);
      assert forall i: nat :: SomeoneOwes(DoRead(s, r), i) <==> SomeoneOwes(s, i);
      hide DoRead, Out, SomeoneOwes, Shape, CanRead;
    case ByWorker(w, x) =>
      OutWorkKept(s, w, x);
      WorkFrame(s, w, x);
      forall i: nat ensures SomeoneOwes(DoWork(s, w, x), i) <==>
            (SomeoneOwes(s, i) && !((x.Send? || x.SendBlocked?) && i == s.workers[w].idx)) || (x.Take?
              && i == Lo(s.front)) {
        OwesAfter(s, w, x, i);
      }
      if x.Send? || x.SendBlocked? {
        assert Owes(s.workers[w], s.workers[w].idx);
        assert SomeoneOwes(s, s.workers[w].idx);
      }
      hide WorkEffect, Worked, Out, SomeoneOwes;
    case ByEnd(e) =>
      OutEndKept(s, e);
      assert forall i: nat :: SomeoneOwes(DoEnd(s, e), i) <==> SomeoneOwes(s, i);
      assert DoEnd(s, e).front == s.front;
      hide DoEnd, Out, SomeoneOwes;
  }

  // ---------------------------------------------------------------- pooled objects

  predicate HoldsReq(x: Worker) {
    x.Busy? && x.stage != Blocked
  }

  /** The request object `ref` holds request `idx` and nothing else. */
  ghost predicate ReqHolds(s: State, idx: nat, ref: nat) {
    && idx < |s.input| && ref in s.reqs.owner && s.reqs.owner[ref] == idx
    && ref in s.reqs.mem && s.reqs.mem[ref] == Decoded(s.input[idx], Gen(s.input, idx))
  }

  /** No request object is reused while someone holds it. */
  ghost predicate ReqsOk(s: State) {
    && (s.front.reader.Enqueuing? ==> ReqHolds(s, s.front.reader.job.idx, s.front.reader.job.ref))
    && (forall k :: 0 <= k < |s.front.queue| ==> ReqHolds(s, s.front.queue[k].idx, s.front.queue[k].ref))
    && (forall w :: 0 <= w < |s.workers| && HoldsReq(s.workers[w]) ==> ReqHolds(s, s.workers[w].idx, s.workers[w].ref))
    && (forall ref :: ref in s.reqs.free ==>
          && ref in s.reqs.owner && s.reqs.owner[ref] < Lo(s.front)
          && forall w :: 0 <= w < |s.workers| && HoldsReq(s.workers[w]) ==> s.workers[w].idx != s.reqs.owner[ref])
  }

  lemma ReqsReadKept(s: State, a: ReaderAction)
    requires FrontOk(s) && WorkersOk(s) && ReqsOk(s) && CanRead(s, a)
    ensures ReqsOk(DoRead(s, a))
  {
    if a.Decode? && s.input[s.front.next].kind != Disconnect {
      hide Gen;
      var s' := DoRead(s, a);
      assert forall k :: 0 <= k < |s.front.queue| ==>
               s.front.queue[k].ref != a.ref && ReqHolds(s', s.front.queue[k].idx, s.front.queue[k].ref);
      assert forall w :: 0 <= w < |s.workers| && HoldsReq(s.workers[w]) ==>
               s.workers[w].ref != a.ref && ReqHolds(s', s.workers[w].idx, s.workers[w].ref);
      assert Lo(s'.front) == Lo(s.front);
    } else if a.Enqueue? {
      var s' := DoRead(s, a);
      forall k | 0 <= k < |s'.front.queue| ensures ReqHolds(s', s'.front.queue[k].idx, s'.front.queue[k].ref) {
        assert k < |s.front.queue| ==> ReqHolds(s, s.front.queue[k].idx, s.front.queue[k].ref);
      }
    }
  }

  lemma ReqsWorkKept(s: State, w: nat, a: WorkerAction)
    requires FrontOk(s) && WorkersOk(s) && ReqsOk(s) && CanWork(s, w, a)
    ensures ReqsOk(DoWork(s, w, a))
  {
    hide Gen;
    WorkFrame(s, w, a);
    var s' := DoWork(s, w, a);
    assert s'.reqs.owner == s.reqs.owner && s'.reqs.mem == s.reqs.mem;
    assert s'.reqs.free == s.reqs.free + (if a.SendFull? || a.PutReq? then {s.workers[w].ref} else {});
    forall v | 0 <= v < |s'.workers|
      && HoldsReq(s'.workers[v]) ensures ReqHolds(s', s'.workers[v].idx, s'.workers[v].ref) {
      assert v != w ==> s'.workers[v] == s.workers[v];
      assert v == w && !a.Take? ==>
               HoldsReq(s.workers[w]) && s'.workers[w] == s.workers[w].(stage := s'.workers[w].stage);
      assert v == w && a.Take? ==> ReqHolds(s, s.front.queue[0].idx, s.front.queue[0].ref);
    }
    hide WorkEffect;
  }

  ghost predicate RespOwned(s: State, idx: nat, ref: nat) {
    ref in s.resps.owner && s.resps.owner[ref] == idx
  }

  /** The response object carries the reply to request `idx`. */
  ghost predicate RespHolds(s: State, idx: nat, ref: nat) {
    && RespOwned(s, idx, ref) && idx < |s.input|
    && ref in s.resps.mem && s.resps.mem[ref] == Answer(s.input[idx].handle, s.input[idx].kind)
  }

  predicate Answered(x: Worker) {
    x.Busy? && (x.stage == Respond || x.stage == Blocked)
  }

  /** No response object is reused before it is written, and each carries its own request's handle. */
  ghost predicate RespsOk(s: State) {
    && (forall w :: 0 <= w < |s.workers| && s.workers[w].Busy? && s.workers[w].stage != Recycle ==>
          RespOwned(s, s.workers[w].idx, s.workers[w].rref))
    && (forall w :: 0 <= w < |s.workers| && Answered(s.workers[w]) ==>
         RespHolds(s, s.workers[w].idx, s.workers[w].rref))
    && (forall k :: 0 <= k < |s.back.queue| ==> RespHolds(s, s.back.queue[k].idx, s.back.queue[k].ref))
    && (s.back.writer.Writing? ==> RespHolds(s, s.back.writer.reply.idx, s.back.writer.reply.ref))
    && (forall ref :: ref in s.resps.free ==> ref in s.resps.owner && s.resps.owner[ref] in WrittenIds(s.back.written))
    && (forall k :: 0 <= k < |s.back.written| ==>
          var (idx, answer) := s.back.written[k];
          idx < |s.input| && answer == Answer(s.input[idx].handle, s.input[idx].kind))
  }

  /** A reply that has been written is nowhere else any more. */
  lemma WrittenIsGone(s: State, i: nat)
    requires OutOk(s) && i in WrittenIds(s.back.written)
    ensures forall k :: 0 <= k < |s.back.queue| ==> s.back.queue[k].idx != i
    ensures s.back.writer.Writing? ==> s.back.writer.reply.idx != i
    ensures forall w :: 0 <= w < |s.workers| ==> !Owes(s.workers[w], i)
  {
    var ids, q, out := WrittenIds(s.back.written), s.back.queue, Out(s.back);
    var j :| 0 <= j < |ids| && ids[j] == i;
    assert out[j] == i;
    forall k | 0 <= k < |q| ensures q[k].idx != i {
      assert out[|out| - |q| + k] == q[k].idx;
    }
    assert s.back.writer.Writing? ==> out[|ids|] == s.back.writer.reply.idx;
    assert !SomeoneOwes(s, i);
  }

  lemma RespsTakeKept(s: State, w: nat, rref: nat)
    requires FrontOk(s) && WorkersOk(s) && OutOk(s) && RespsOk(s) && CanWork(s, w, Take(rref))
    ensures RespsOk(DoWork(s, w, Take(rref)))
  {
    var s' := DoWork(s, w, Take(rref));
    if rref in s.resps.free {
      WrittenIsGone(s, s.resps.owner[rref]);
    }
    hide Out, OutOk, FrontOk;
    forall v | 0 <= v < |s.workers| && v != w && s.workers[v].Busy? && s.workers[v].stage != Recycle
      ensures s.workers[v].rref != rref && RespOwned(s', s.workers[v].idx, s.workers[v].rref)
    {
      assert Owes(s.workers[v], s.workers[v].idx) && RespOwned(s, s.workers[v].idx, s.workers[v].rref);
    }
  }

  lemma {:induction false} RespsFinishKept(s: State, w: nat)
    requires WorkersOk(s) && OutOk(s) && ReqsOk(s) && RespsOk(s) && CanWork(s, w, FinishUp)
    ensures RespsOk(DoWork(s, w, FinishUp))
  {
    var x := s.workers[w];
    assert ReqHolds(s, x.idx, x.ref) && RespOwned(s, x.idx, x.rref) && Owes(x, x.idx);
    OwedIsNotOut(s, w);
    hide OutOk, Out, ReqsOk, Gen;
  }

  lemma RespsWorkKept(s: State, w: nat, a: WorkerAction)
    requires RespsOk(s) && CanWork(s, w, a) && !a.Take? && !a.FinishUp?
    ensures RespsOk(DoWork(s, w, a))
  {
    var s' := DoWork(s, w, a);
    WorkFrame(s, w, a);
    WorkedFrame(s, w, a);
    assert s'.resps == s.resps;
    assert s'.back.queue == s.back.queue + (if a.Send? || a.SendBlocked? then [Job(s.workers[w].idx, s.workers[w].rref)]
           else []);
    assert Answered(s'.workers[w]) ==> Answered(s.workers[w]);
    hide WorkEffect, Worked;
  }

  lemma OwedIsNotOut(s: State, w: nat)
    requires OutOk(s) && w < |s.workers| && s.workers[w].Busy? && Owes(s.workers[w], s.workers[w].idx)
    ensures forall k :: 0 <= k < |s.back.queue| ==> s.back.queue[k].idx != s.workers[w].idx
    ensures s.back.writer.Writing? ==> s.back.writer.reply.idx != s.workers[w].idx
  {
    var q, out := s.back.queue, Out(s.back);
    assert SomeoneOwes(s, s.workers[w].idx);
    forall k | 0 <= k < |q| ensures q[k].idx != s.workers[w].idx {
      assert out[|out| - |q| + k] == q[k].idx;
      assert q[k].idx in out;
    }
    assert s.back.writer.Writing? ==> out[|s.back.written|] == s.back.writer.reply.idx;
  }

  lemma RespsEndKept(s: State, a: EndAction)
    requires RespsOk(s) && CanEnd(s, a)
    ensures RespsOk(DoEnd(s, a))
  {
    var s' := DoEnd(s, a);
    if a.WriterWrite? {
      var ids, ids' := WrittenIds(s.back.written), WrittenIds(s'.back.written);
      assert ids' == ids + [s.back.writer.reply.idx];
    }
  }

  // ---------------------------------------------------------------- the flush barrier

  /** A worker is about to execute or to release request `i`. */
  predicate Works(x: Worker, i: nat) {
    x.Busy? && x.idx == i && (x.stage == Exec || x.stage == Finish)
  }

  ghost predicate SomeoneWorks(workers: seq<Worker>, i: nat) {
    exists w :: 0 <= w < |workers| && Works(workers[w], i)
  }

  predicate BeforeCall(x: Worker) {
    x.Busy? && (x.stage == Exec || x.stage == FlushNow)
  }

  predicate AfterCall(input: seq<Request>, x: Worker) {
    x.Busy? && !BeforeCall(x) && x.idx < |input| && Executes(input[x.idx].kind)
  }

  predicate PassedFlush(s: State, x: Worker) {
    x.Busy? && x.stage != Exec && x.idx < |s.input| && s.input[x.idx].kind == Flush
  }

  /** The device is called once for each request that should reach it, after it leaves the queue. */
  ghost predicate LogOk(s: State) {
    && s.front.next <= |s.input| && Lo(s.front) <= s.front.next
    && LogFacts(s.input, Lo(s.front), s.workers, s.log, Out(s.back))
  }

  ghost predicate LogFacts(input: seq<Request>, lo: int, workers: seq<Worker>, log: seq<nat>, out: seq<nat>)
    requires lo <= |input|
  {
    && NoDup(log)
    && (forall i :: i in log ==> i < lo && Executes(input[i].kind))
    && (forall w :: 0 <= w < |workers| && BeforeCall(workers[w]) ==> workers[w].idx !in log)
    && (forall w :: 0 <= w < |workers| && AfterCall(input, workers[w]) ==> workers[w].idx in log)
    && (forall w :: 0 <= w < |workers| && workers[w].Busy? && workers[w].stage == FlushNow ==>
          workers[w].idx < |input| && input[workers[w].idx].kind == Flush)
    && (forall i :: i in out && i < |input| && Executes(input[i].kind) ==> i in log)
  }

  /** Who holds which read lock: writes and trims from their decoding until they have been applied,
      unaligned writes for ever. */
  ghost predicate LocksOk(s: State) {
    && s.front.next <= |s.input| && Lo(s.front) <= s.front.next
    && LocksFacts(s.input, s.front.next, Lo(s.front), s.workers, s.held, s.log)
  }

  ghost predicate LocksFacts(input: seq<Request>, next: nat, lo: int, workers: seq<Worker>, held: set<nat>,
                             log: seq<nat>)
    requires lo <= next <= |input|
  {
    && (forall h :: h in held ==> h < next && LocksForFlush(input[h].kind))
    && (forall h :: 0 <= h < next && LocksForFlush(input[h].kind) && h !in held ==> Unlocks(input[h].kind) && h in log)
    && (forall h :: h in held && Unlocks(input[h].kind) && h < lo ==> SomeoneWorks(workers, h))
  }

  /** Every write and trim of the flush's generation has given its lock back. */
  ghost predicate Clear(s: State, f: nat) {
    f < |s.input| && forall h :: 0 <= h < f && LocksForFlush(s.input[h].kind) && Gen(s.input, h) == Gen(s.input, f) ==>
        h !in s.held
  }

  /** A flush that has passed its lock found its generation clear. */
  ghost predicate FlushesOk(s: State) {
    && (forall w :: 0 <= w < |s.workers| && PassedFlush(s, s.workers[w]) ==> Clear(s, s.workers[w].idx))
    && (forall f :: f in Out(s.back) && f < |s.input| && s.input[f].kind == Flush ==> Clear(s, f))
  }

  /** The barrier: before the device is flushed, every write and trim since the preceding flush has
      been applied. */
  ghost predicate Barrier(input: seq<Request>, log: seq<nat>) {
    forall p :: 0 <= p < |log| && log[p] < |input| && input[log[p]].kind == Flush ==>
      forall h :: 0 <= h < log[p] && LocksForFlush(input[h].kind) && Gen(input, h) == Gen(input, log[p]) ==>
          h in log[..p]
  }

  lemma LogReadKept(s: State, a: ReaderAction)
    requires FrontOk(s) && LogOk(s) && CanRead(s, a)
    ensures LogOk(DoRead(s, a))
  {
    hide Out;
  }

  lemma LogTakeKept(s: State, w: nat, rref: nat)
    requires FrontOk(s) && WorkersOk(s) && LogOk(s) && CanWork(s, w, Take(rref))
    ensures LogOk(DoWork(s, w, Take(rref)))
  {
    hide Out;
    var s' := DoWork(s, w, Take(rref));
    assert Lo(s'.front) == Lo(s.front) + 1;
  }

  /** One worker of the pool moves on, and perhaps calls the device or answers. */
  ghost predicate Moves(input: seq<Request>, lo: int, x: Worker, x': Worker, log: seq<nat>, log': seq<nat>,
                        out: seq<nat>, out': seq<nat>)
    requires lo <= |input|
  {
    && (log' == log || (BeforeCall(x) && log' == log + [x.idx] && x.idx < lo && Executes(input[x.idx].kind)))
    && (BeforeCall(x') ==> BeforeCall(x) && log' == log && x'.idx == x.idx)
    && (AfterCall(input, x') ==> x.Busy? && x'.idx == x.idx && (AfterCall(input, x) || log' == log + [x.idx]))
    && (x'.Busy? && x'.stage == FlushNow ==> x'.idx < |input| && input[x'.idx].kind == Flush)
    && (out' == out || (x.Busy? && out' == out + [x.idx] && !BeforeCall(x)))
  }

  lemma LogMoves(input: seq<Request>, lo: int, workers: seq<Worker>, w: nat, x': Worker, log: seq<nat>, log': seq<nat>,
                 out: seq<nat>, out': seq<nat>)
    requires lo <= |input| && w < |workers| && LogFacts(input, lo, workers, log, out)
    requires Moves(input, lo, workers[w], x', log, log', out, out')
    requires forall v :: 0 <= v < |workers| && v != w && workers[v].Busy? && workers[w].Busy? ==>
               workers[v].idx != workers[w].idx
    ensures LogFacts(input, lo, workers[w := x'], log', out')
  {
    hide Executes;
    var x := workers[w];
    assert log' != log ==> x.idx !in log;
    forall i | i in out' && i < |input| && Executes(input[i].kind) ensures i in log' {
      assert i !in out ==> AfterCall(input, x);
    }
  }

  /** What a worker's step does to the log and the replies. */
  lemma WorkMoves(s: State, w: nat, a: WorkerAction)
    requires FrontOk(s) && WorkersOk(s) && ReqsOk(s) && CanWork(s, w, a) && !a.Take?
    requires forall v :: 0 <= v < |s.workers| && s.workers[v].Busy? && s.workers[v].stage == FlushNow ==>
               s.workers[v].idx < |s.input| && s.input[s.workers[v].idx].kind == Flush
    ensures Lo(s.front) <= |s.input|
    ensures Moves(s.input, Lo(s.front), s.workers[w], Worked(s, w, a), s.log, WorkEffect(s, w, a).log, Out(s.back),
              Out(DoWork(s, w, a).back))
  {
    var x := s.workers[w];
    assert a.Execute? ==> ReqHolds(s, x.idx, x.ref);
    assert x.Busy? ==> x.idx < Lo(s.front);
    OutWorkKept(s, w, a);
    hide Out, ReqsOk, WorkersOk, Gen;
  }

  lemma LogWorkKept(s: State, w: nat, a: WorkerAction)
    requires FrontOk(s) && WorkersOk(s) && ReqsOk(s) && LogOk(s) && CanWork(s, w, a) && !a.Take?
    ensures LogOk(DoWork(s, w, a))
  {
    WorkFrame(s, w, a);
    WorkMoves(s, w, a);
    hide Out, ReqsOk, Gen, WorkEffect, Worked, CanWork, LogFacts, Moves;
    LogMoves(s.input, Lo(s.front), s.workers, w, Worked(s, w, a), s.log, WorkEffect(s, w, a).log, Out(s.back),
        Out(DoWork(s, w, a).back));
  }

  lemma LogEndKept(s: State, a: EndAction)
    requires LogOk(s) && CanEnd(s, a)
    ensures LogOk(DoEnd(s, a))
  {
    OutEndKept(s, a);
    hide Out;
  }

  lemma LocksReadKept(s: State, a: ReaderAction)
    requires FrontOk(s) && LocksOk(s) && CanRead(s, a)
    ensures LocksOk(DoRead(s, a))
  {
    assert Lo(DoRead(s, a).front) == Lo(s.front);
    hide SomeoneWorks, Gen;
  }

  /** A worker takes the next request, or gives a lock back once the request has been applied, or
      works on the one it has. */
  ghost predicate Releases(input: seq<Request>, lo: int, lo': int, x: Worker, x': Worker, held: set<nat>,
                           held': set<nat>, log': seq<nat>) {
    && (lo' == lo || (lo' == lo + 1 && lo >= 0 && Works(x', lo)))
    && (held' == held || (x.Busy? && x.idx < |input| && held' == held - {x.idx} && Unlocks(input[x.idx].kind)
       && x.idx in log'))
    && (x.Busy? && x.idx in held' && x.idx < |input| && Unlocks(input[x.idx].kind) && Works(x, x.idx) ==>
         Works(x', x.idx))
  }

  lemma LocksMove(input: seq<Request>, next: nat, lo: int, lo': int, workers: seq<Worker>, w: nat, x': Worker,
                  held: set<nat>, held': set<nat>, log: seq<nat>, log': seq<nat>)
    requires lo <= next <= |input| && lo' <= next && w < |workers| && LocksFacts(input, next, lo, workers, held, log)
             && log <= log'
    requires Releases(input, lo, lo', workers[w], x', held, held', log')
    ensures LocksFacts(input, next, lo', workers[w := x'], held', log')
  {
    var workers' := workers[w := x'];
    assert lo >= 0 && Works(workers'[w], lo) ==> SomeoneWorks(workers', lo);
    forall h | h in held' && Unlocks(input[h].kind) && h < lo' ensures SomeoneWorks(workers', h) {
      if h < lo {
        assert SomeoneWorks(workers, h);
        var v :| 0 <= v < |workers| && Works(workers[v], h);
        assert Works(workers'[v], h);
      }
    }
  }

  lemma WorkReleases(s: State, w: nat, a: WorkerAction)
    requires FrontOk(s) && WorkersOk(s) && ReqsOk(s) && LogOk(s) && CanWork(s, w, a)
    ensures var s' := DoWork(s, w, a);
            s.log <= s'.log && Releases(s.input, Lo(s.front), Lo(s'.front), s.workers[w], s'.workers[w], s.held,
                s'.held, s'.log)
  {
    var x := s.workers[w];
    assert a.Execute? || a.FinishUp? ==> ReqHolds(s, x.idx, x.ref);
    assert a.FinishUp? && Unlocks(s.input[x.idx].kind) ==> AfterCall(s.input, x);
    hide ReqsOk, WorkersOk, Gen, Out;
    assert a.FinishUp? && Unlocks(s.input[x.idx].kind) ==> x.idx in s.log;
    hide LogOk;
  }

  lemma {:induction false} LocksWorkKept(s: State, w: nat, a: WorkerAction)
    requires FrontOk(s) && WorkersOk(s) && ReqsOk(s) && LogOk(s) && LocksOk(s) && CanWork(s, w, a)
    ensures LocksOk(DoWork(s, w, a))
  {
    WorkFrame(s, w, a);
    WorkReleases(s, w, a);
    hide LocksFacts, Releases, WorkEffect, Worked, ReqsOk, LogOk, WorkersOk, Gen;
    var s' := DoWork(s, w, a);
    LocksMove(s.input, s.front.next, Lo(s.front), Lo(s'.front), s.workers, w, s'.workers[w], s.held, s'.held, s.log,
        s'.log);
  }

  lemma FlushesReadKept(s: State, a: ReaderAction)
    requires FrontOk(s) && WorkersOk(s) && OutOk(s) && FlushesOk(s) && CanRead(s, a)
    ensures FlushesOk(DoRead(s, a))
  {
    var s' := DoRead(s, a);
    forall f: nat | f < Lo(s.front) && Clear(s, f) ensures Clear(s', f) {}
    hide Clear, Gen, Out;
  }

  lemma FlushesWorkKept(s: State, w: nat, a: WorkerAction)
    requires FrontOk(s) && WorkersOk(s) && ReqsOk(s) && LocksOk(s) && FlushesOk(s) && CanWork(s, w, a)
    ensures FlushesOk(DoWork(s, w, a))
  {
    var s', x := DoWork(s, w, a), s.workers[w];
    WorkFrame(s, w, a);
    OutWorkKept(s, w, a);
    forall f: nat | Clear(s, f) ensures Clear(s', f) {}
    if a.Execute? {
      assert ReqHolds(s, x.idx, x.ref);
      assert s.input[x.idx].kind == Flush ==> Clear(s, x.idx);
    }
    hide Clear, Gen, Out, ReqsOk, LocksOk, FrontOk;
    assert PassedFlush(s', s'.workers[w]) && !a.Execute? ==> PassedFlush(s, x);
  }

  lemma {:induction false} BarrierKept(s: State, w: nat, a: WorkerAction)
    requires FrontOk(s) && WorkersOk(s) && ReqsOk(s) && LogOk(s) && LocksOk(s) && FlushesOk(s) && CanWork(s, w, a)
    requires Barrier(s.input, s.log)
    ensures Barrier(s.input, DoWork(s, w, a).log)
  {
    var s', x := DoWork(s, w, a), s.workers[w];
    if s'.log != s.log {
      assert s'.log == s.log + [x.idx];
      assert forall p :: 0 <= p <= |s.log| ==> s'.log[..p] == s.log[..p];
      assert s.log[..|s.log|] == s.log;
      assert a.Execute? ==> ReqHolds(s, x.idx, x.ref);
      assert a.FlushRun? ==> PassedFlush(s, x) && Clear(s, x.idx);
      hide ReqsOk, FlushesOk, Gen, FrontOk;
    }
  }

  // ---------------------------------------------------------------- every step keeps the invariant

  ghost predicate Inv(s: State) {
    && Shape(s) && OutOk(s) && ReqsOk(s) && RespsOk(s) && LogOk(s) && LocksOk(s) && FlushesOk(s)
    && Barrier(s.input, s.log)
  }

  lemma InitInv(s: State)
    requires Init(s)
    ensures Inv(s)
  {}

  lemma ReadKeepsInv(s: State, a: ReaderAction)
    requires Inv(s) && CanRead(s, a)
    ensures Inv(DoRead(s, a))
  {
    ShapeKept(s, ByReader(a));
    OutKept(s, ByReader(a));
    ReqsReadKept(s, a);
    LogReadKept(s, a);
    LocksReadKept(s, a);
    FlushesReadKept(s, a);
    RespsReadKept(s, a);
    hide Shape, OutOk, ReqsOk, RespsOk, LogOk, LocksOk, FlushesOk, Barrier;
  }

  lemma RespsReadKept(s: State, a: ReaderAction)
    requires RespsOk(s) && CanRead(s, a)
    ensures RespsOk(DoRead(s, a)) && DoRead(s, a).input == s.input && DoRead(s, a).log == s.log
  {
    var s' := DoRead(s, a);
    assert s'.resps == s.resps && s'.back == s.back && s'.workers == s.workers && s'.input == s.input;
    hide DoRead, CanRead;
  }

  lemma WorkKeepsInv(s: State, w: nat, a: WorkerAction)
    requires Inv(s) && CanWork(s, w, a)
    ensures Inv(DoWork(s, w, a))
  {
    ShapeKept(s, ByWorker(w, a));
    OutKept(s, ByWorker(w, a));
    ReqsWorkKept(s, w, a);
    LocksWorkKept(s, w, a);
    FlushesWorkKept(s, w, a);
    BarrierKept(s, w, a);
    WorkFrame(s, w, a);
    if a.Take? {
      RespsTakeKept(s, w, a.rref);
      LogTakeKept(s, w, a.rref);
    } else {
      if a.FinishUp? {
        RespsFinishKept(s, w);
      } else {
        RespsWorkKept(s, w, a);
      }
      LogWorkKept(s, w, a);
    }
    hide Shape, OutOk, ReqsOk, RespsOk, LogOk, LocksOk, FlushesOk, Barrier, WorkEffect, Worked;
  }

  lemma EndKeepsInv(s: State, a: EndAction)
    requires Inv(s) && CanEnd(s, a)
    ensures Inv(DoEnd(s, a))
  {
    ShapeKept(s, ByEnd(a));
    OutKept(s, ByEnd(a));
    RespsEndKept(s, a);
    LogEndKept(s, a);
    OutEndKept(s, a);
    EndFrame(s, a);
    hide Shape, OutOk, RespsOk, LogOk, Out, DoEnd, CanEnd, Gen;
  }

  lemma EndFrame(s: State, a: EndAction)
    requires CanEnd(s, a)
    ensures var s' := DoEnd(s, a);
            s'.input == s.input && s'.front == s.front && s'.workers == s.workers && s'.held == s.held
              && s'.log == s.log && s'.reqs == s.reqs
    ensures ReqsOk(s) ==> ReqsOk(DoEnd(s, a))
    ensures LocksOk(s) ==> LocksOk(DoEnd(s, a))
    ensures FlushesOk(s) ==> FlushesOk(DoEnd(s, a))
  {
    var s' := DoEnd(s, a);
    OutEndKept(s, a);
    assert s'.input == s.input && s'.front == s.front && s'.workers == s.workers && s'.held == s.held && s'.log == s.log
           && s'.reqs == s.reqs;
    hide Out, DoEnd, CanEnd, Gen, LocksFacts;
  }

  lemma {:induction false} RunInv(states: seq<State>, actions: seq<Action>, i: nat)
    requires Run(states, actions) && i < |states|
    ensures Inv(states[i])
  {
    hide Inv, Can, Do;
    if i == 0 {
      InitInv(states[0]);
    } else {
      RunInv(states, actions, i - 1);
      assert Can(states[i - 1], actions[i - 1]) && states[i - 1 + 1] == Do(states[i - 1], actions[i - 1]);
      StepKeepsInv(states[i - 1], actions[i - 1]);
    }
  }

  lemma {:induction false} StepKeepsInv(s: State, a: Action)
    requires Inv(s) && Can(s, a)
    ensures Inv(Do(s, a))
  {
    match a
    case ByReader(r) => ReadKeepsInv(s, r);
    case ByWorker(w, x) => WorkKeepsInv(s, w, x);
    case ByEnd(e) => EndKeepsInv(s, e);
  }
}
