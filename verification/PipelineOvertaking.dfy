/** When a flush can reach the device before an earlier write or trim: exactly with three workers or more,
    and another flush in between. */
module PipelineOvertaking {
  import opened Pipeline
  import opened PipelineResults

  /** The device was flushed for request `log[p]` before the earlier write or trim `h` was applied. */
  ghost predicate Overtakes(s: State, p: nat, h: nat) {
    && p < |s.log| && h < s.log[p] < |s.input| && s.input[s.log[p]].kind == Flush
    && Unlocks(s.input[h].kind) && h !in s.log[..p]
  }

  // ---------------------------------------------------------------- three workers and a flush between are needed

  /** A flush between `h` and `f`. */
  ghost predicate FlushBetween(input: seq<Request>, h: nat, f: nat) {
    exists g :: h < g < f && g < |input| && input[g].kind == Flush
  }

  /** A worker is about to call the device for flush `f`, and the write `h` has not been applied: one worker
      has `h`, another has the first flush after it, which waits for `h`, and a third one has `f`. */
  lemma ThreeHolders(s: State, w: nat, h: nat)
    requires Inv(s) && w < |s.workers| && s.workers[w].Busy? && s.workers[w].stage == FlushNow
    requires h < s.workers[w].idx < |s.input| && Unlocks(s.input[h].kind) && h !in s.log
    ensures |s.workers| >= 3 && FlushBetween(s.input, h, s.workers[w].idx)
  {
    var f := s.workers[w].idx;
    assert Shape(s) && FrontOk(s) && WorkersOk(s) && OutOk(s) && LocksOk(s) && FlushesOk(s) && LogOk(s);
    assert f < Lo(s.front) && s.input[f].kind == Flush;
    hide Inv, Shape, FrontOk, Gen, Out, Barrier, NoDup;
    var v := WorkerWith(s, h);
    var g := FirstFlush(s.input, h, f);
    assert PassedFlush(s, s.workers[w]) && Clear(s, f);
    assert g != f;
    assert g !in Out(s.back) by {
      assert g in Out(s.back) ==> Clear(s, g);
    }
    assert SomeoneOwes(s, g);
    var u :| 0 <= u < |s.workers| && Owes(s.workers[u], g);
    assert u != v && u != w && v != w;
  }

  /** An unapplied write that has left the queue is with a worker that has not called the device. */
  lemma WorkerWith(s: State, h: nat) returns (v: nat)
    requires WorkersOk(s) && LocksOk(s) && LogOk(s) && h < Lo(s.front) && Unlocks(s.input[h].kind) && h !in s.log
    ensures v < |s.workers| && s.workers[v].Busy? && s.workers[v].idx == h && h in s.held
  {
    hide Out, NoDup, WorkersOk;
    assert h in s.held && SomeoneWorks(s.workers, h);
    v :| 0 <= v < |s.workers| && Works(s.workers[v], h);
  }

  /** In every run: a flush overtakes a write or trim only with at least three workers and a flush between. */
  lemma {:induction false} OvertakingNeeds(states: seq<State>, actions: seq<Action>, i: nat, p: nat, h: nat)
    requires Run(states, actions) && i < |states| && Overtakes(states[i], p, h)
    ensures |states[i].workers| >= 3 && FlushBetween(states[i].input, h, states[i].log[p])
    decreases i
  {
    hide Inv, Can, Do, FlushBetween;
    assert Init(states[0]) && states[0].log == [];
    if i > 0 {
      assert Can(states[i - 1], actions[i - 1]) && states[i - 1 + 1] == Do(states[i - 1], actions[i - 1]);
      RunInv(states, actions, i - 1);
      StepOvertakes(states[i - 1], actions[i - 1], p, h);
      if Overtakes(states[i - 1], p, h) {
        OvertakingNeeds(states, actions, i - 1, p, h);
      }
    }
  }

  lemma StepOvertakes(s: State, a: Action, p: nat, h: nat)
    requires Can(s, a) && Inv(s) && Overtakes(Do(s, a), p, h)
    ensures var s' := Do(s, a);
            && s'.input == s.input && |s'.workers| == |s.workers|
            && if p < |s.log| then Overtakes(s, p, h) && s.log[p] == s'.log[p]
               else |s.workers| >= 3 && FlushBetween(s.input, h, s'.log[p])
  {
    LogGrows(s, a);
    hide Inv, Can, Do, FlushBetween;
    var s' := Do(s, a);
    if p < |s.log| {
      assert s.log[..p] == s'.log[..p];
    } else {
      assert s'.log[..p] == s.log;
      ThreeHolders(s, a.w, h);
    }
  }

  /** The log grows by one call at a time; a flush is logged from its own stage. */
  lemma LogGrows(s: State, a: Action)
    requires Can(s, a) && Inv(s)
    ensures var s' := Do(s, a);
            && s'.input == s.input && |s'.workers| == |s.workers|
            && (s'.log == s.log || (a.ByWorker? && a.w < |s.workers| && s.workers[a.w].Busy?
               && s'.log == s.log + [s.workers[a.w].idx]))
            && (s'.log != s.log && s.workers[a.w].idx < |s.input| && s.input[s.workers[a.w].idx].kind == Flush ==>
                s.workers[a.w].stage == FlushNow)
  {
    hide Inv;
    match a
    case ByReader(r) =>
      assert DoRead(s, r).input == s.input && DoRead(s, r).workers == s.workers && DoRead(s, r).log == s.log;
    case ByWorker(w, x) =>
      WorkLogs(s, w, x);
      WorkFrame(s, w, x);
      hide WorkEffect, Worked;
    case ByEnd(e) =>
      assert DoEnd(s, e).input == s.input && DoEnd(s, e).workers == s.workers && DoEnd(s, e).log == s.log;
  }

  lemma WorkLogs(s: State, w: nat, a: WorkerAction)
    requires CanWork(s, w, a) && Inv(s)
    ensures var x, log := s.workers[w], WorkEffect(s, w, a).log;
            && (log == s.log || (x.Busy? && log == s.log + [x.idx]))
            && (log != s.log && x.idx < |s.input| && s.input[x.idx].kind == Flush ==> x.stage == FlushNow)
  {
    var x := s.workers[w];
    if a.Execute? {
      assert ReqsOk(s);
      assert ReqHolds(s, x.idx, x.ref);
    }
    hide Inv, ReqsOk, Gen;
  }

  // ---------------------------------------------------------------- and they are enough

  /** A write or trim `h`, the first flush `g` after it, and a later flush `f` that can be reached. */
  ghost predicate Pattern(input: seq<Request>, h: nat, g: nat, f: nat) {
    && h < g < f < |input| && Unlocks(input[h].kind) && input[g].kind == Flush && input[f].kind == Flush
    && (forall k :: h <= k < g ==> input[k].kind != Flush)
    && (forall k :: 0 <= k <= f ==> input[k].kind != Disconnect && input[k].kind != Write(false))
  }

  /** Workers 0 and 1 have `h` and `g` and do nothing; all else before request `i` is done. */
  ghost predicate Parked(s: State, i: nat, h: nat, g: nat) {
    && i <= |s.input| && !s.cancelled && s.front == Front(i, Gen(s.input, i), Reading, [], false) && |s.workers| >= 3
    && s.workers[0] == (if i <= h then Idle else Busy(Exec, h, h, h))
    && s.workers[1] == (if i <= g then Idle else Busy(Exec, g, g, g))
    && s.workers[2] == Idle && s.back.queue == [] && s.back.writer == Waiting
    && s.held == (if i <= h then {} else {h}) && h !in s.log
    && (forall r :: r in s.reqs.owner ==> r < i) && (forall r :: r in s.resps.owner ==> r < i)
  }

  /** The worker for request `i`: the first two get stuck on purpose. */
  function For(i: nat, h: nat, g: nat): nat {
    if i == h then 0 else if i == g then 1 else 2
  }

  /** Request `i` is with worker 2, in the given stage. */
  ghost predicate InHand(s: State, i: nat, h: nat, g: nat, stage: Stage) {
    && i < |s.input| && i != h && i != g && !s.cancelled
       && s.front == Front(i + 1, Gen(s.input, i + 1), Reading, [], false)
    && |s.workers| >= 3
    && s.workers[0] == (if i < h then Idle else Busy(Exec, h, h, h))
    && s.workers[1] == (if i < g then Idle else Busy(Exec, g, g, g))
    && s.workers[2] == Busy(stage, i, i, i) && s.back.queue == [] && s.back.writer == Waiting
    && i in s.reqs.mem && s.reqs.mem[i] == Decoded(s.input[i], Gen(s.input, i)) && h !in s.log
    && s.held == (if i < h then {} else {h}) + (if stage != Respond && LocksForFlush(s.input[i].kind) then {i} else {})
    && (stage == Respond ==> i in s.resps.mem)
    && (forall r :: r in s.reqs.owner ==> r <= i) && (forall r :: r in s.resps.owner ==> r <= i)
  }

  /** The next request is decoded, queued, and taken by its worker. */
  lemma TakeNext(states: seq<State>, actions: seq<Action>, i: nat, h: nat, g: nat, f: nat)
    returns (states': seq<State>, actions': seq<Action>)
    requires Run(states, actions) && Parked(states[|actions|], i, h, g) && Pattern(states[|actions|].input, h, g, f)
             && i <= f
    ensures Run(states', actions') && states'[|actions'|].input == states[|actions|].input
    ensures |states'[|actions'|].workers| == |states[|actions|].workers|
    ensures if i == h || i == g then Parked(states'[|actions'|], i + 1, h, g)
            else InHand(states'[|actions'|], i, h, g, Exec)
  {
    var s := states[|actions|];
    states', actions' := Admit(states, actions);
    var s1, w := states'[|actions'|], For(i, h, g);
    Taken(s, s1, i, h, g, f);
    hide Run, Parked, InHand, Pattern;
    states', actions' := Extend(states', actions', ByWorker(w, Take(i)));
  }

  lemma Taken(s: State, s1: State, i: nat, h: nat, g: nat, f: nat)
    requires Parked(s, i, h, g) && Pattern(s.input, h, g, f) && i <= f
    requires var r := s.input[i];
             s1 == s.(
               front := s.front.(next := i + 1, gen :=
                   if r.kind == Flush then s.front.gen + 1 else s.front.gen, queue := s.front.queue + [Job(i, i)]),
               held := if LocksForFlush(r.kind) then s.held + {i} else s.held,
               reqs := s.reqs.Get(i, i).Fill(i, Decoded(r, s.front.gen)))
    ensures var a := ByWorker(For(i, h, g), Take(i));
            && Can(s1, a) && Do(s1, a).input == s.input && |Do(s1, a).workers| == |s.workers|
            && if i == h || i == g then Parked(Do(s1, a), i + 1, h, g) else InHand(Do(s1, a), i, h, g, Exec)
  {
    var w := For(i, h, g);
    var s2 := DoWork(s1, w, Take(i));
    assert s1.front.queue == [Job(i, i)] && s2.front.queue == [];
    assert Gen(s.input, i + 1) == Gen(s.input, i) + if s.input[i].kind == Flush then 1 else 0;
    assert s2.front == Front(i + 1, Gen(s.input, i + 1), Reading, [], false);
    assert i == g ==> s2.held == {h};
    hide Gen;
  }

  /** The write `h` is of an earlier generation than every flush after `g`. */
  lemma LaterGeneration(input: seq<Request>, h: nat, g: nat, f: nat, i: nat)
    requires Pattern(input, h, g, f) && h < i <= f && i != g && input[i].kind == Flush
    ensures Gen(input, h) != Gen(input, i)
  {
    assert g < i && Gen(input, g + 1) == Gen(input, g) + 1;
    hide Gen;
    GenMonotone(input, h, g);
    GenMonotone(input, g + 1, i);
  }

  lemma ExecuteNext(s: State, i: nat, h: nat, g: nat, f: nat)
    requires InHand(s, i, h, g, Exec) && Pattern(s.input, h, g, f) && i <= f
    ensures CanWork(s, 2, Execute)
    ensures var s' := DoWork(s, 2, Execute);
            s'.input == s.input && |s'.workers| == |s.workers|
              && InHand(s', i, h, g, if s.input[i].kind == Flush then FlushNow else Finish)
  {
    if s.input[i].kind == Flush && h < i {
      LaterGeneration(s.input, h, g, f, i);
    }
    hide Gen, Pattern;
  }

  lemma FlushDevice(s: State, i: nat, h: nat, g: nat)
    requires InHand(s, i, h, g, FlushNow)
    ensures CanWork(s, 2, FlushRun)
    ensures var s' := DoWork(s, 2, FlushRun);
            s'.input == s.input && |s'.workers| == |s.workers| && InHand(s', i, h, g, Finish) && s'.log == s.log + [i]
  {
    hide Gen;
  }

  lemma FinishNext(s: State, i: nat, h: nat, g: nat)
    requires InHand(s, i, h, g, Finish) && s.input[i].kind != Write(false)
    ensures CanWork(s, 2, FinishUp)
    ensures var s' := DoWork(s, 2, FinishUp); s'.input == s.input && |s'.workers| == |s.workers|
    ensures InHand(DoWork(s, 2, FinishUp), i, h, g, Respond)
  {
    hide Gen;
  }

  /** Executes request `i`. */
  lemma Executed(states: seq<State>, actions: seq<Action>, i: nat, h: nat, g: nat, f: nat)
    returns (states': seq<State>, actions': seq<Action>)
    requires Run(states, actions) && InHand(states[|actions|], i, h, g, Exec)
             && Pattern(states[|actions|].input, h, g, f) && i <= f
    ensures Run(states', actions') && states'[|actions'|].input == states[|actions|].input
    ensures |states'[|actions'|].workers| == |states[|actions|].workers|
    ensures InHand(states'[|actions'|], i, h, g, Finish)
    ensures states[|actions|].input[i].kind == Flush ==>
              |states'[|actions'|].log| > 0 && states'[|actions'|].log[|states'[|actions'|].log| - 1] == i
  {
    var s := states[|actions|];
    ExecuteNext(s, i, h, g, f);
    hide Run, InHand, Pattern, DoWork, CanWork;
    states', actions' := Extend(states, actions, ByWorker(2, Execute));
    if s.input[i].kind == Flush {
      FlushDevice(states'[|actions'|], i, h, g);
      states', actions' := Extend(states', actions', ByWorker(2, FlushRun));
    }
  }

  /** Request `i` has been executed, and its reply is on its way. */
  ghost predicate Replying(s: State, i: nat, h: nat, g: nat, x: Worker, queue: seq<Job>, writer: Writer) {
    && i < |s.input| && i != h && i != g && !s.cancelled
       && s.front == Front(i + 1, Gen(s.input, i + 1), Reading, [], false)
    && |s.workers| >= 3
    && s.workers[0] == (if i < h then Idle else Busy(Exec, h, h, h))
    && s.workers[1] == (if i < g then Idle else Busy(Exec, g, g, g))
    && s.workers[2] == x && s.back.queue == queue && s.back.writer == writer && h !in s.log && i in s.resps.mem
    && s.held == (if i < h then {} else {h})
    && (forall r :: r in s.reqs.owner ==> r <= i) && (forall r :: r in s.resps.owner ==> r <= i)
  }

  lemma SendNext(s: State, i: nat, h: nat, g: nat)
    requires InHand(s, i, h, g, Respond)
    ensures CanWork(s, 2, Send)
    ensures var s' := DoWork(s, 2, Send);
            s'.input == s.input && |s'.workers| == |s.workers|
              && Replying(s', i, h, g, Busy(Recycle, i, i, i), [Job(i, i)], Waiting)
  {
    hide Gen;
  }

  lemma PutNext(s: State, i: nat, h: nat, g: nat)
    requires Replying(s, i, h, g, Busy(Recycle, i, i, i), [Job(i, i)], Waiting)
    ensures CanWork(s, 2, PutReq)
    ensures var s' := DoWork(s, 2, PutReq);
            s'.input == s.input && |s'.workers| == |s.workers| && Replying(s', i, h, g, Idle, [Job(i, i)], Waiting)
  {
    hide Gen;
  }

  lemma WriteNext(s: State, i: nat, h: nat, g: nat)
    requires Replying(s, i, h, g, Idle, [Job(i, i)], Waiting)
    ensures CanEnd(s, WriterTake)
    ensures var s' := DoEnd(s, WriterTake);
            && s'.input == s.input && |s'.workers| == |s.workers| && CanEnd(s', WriterWrite)
            && var s'' := DoEnd(s', WriterWrite);
               s''.input == s.input && |s''.workers| == |s.workers| && Parked(s'', i + 1, h, g)
  {
    assert [Job(i, i)][1..] == [];
    hide Gen;
  }

  /** Answers request `i`: worker 2 is idle again. */
  lemma Answered(states: seq<State>, actions: seq<Action>, i: nat, h: nat, g: nat)
    returns (states': seq<State>, actions': seq<Action>)
    requires Run(states, actions) && InHand(states[|actions|], i, h, g, Finish)
             && states[|actions|].input[i].kind != Write(false)
    ensures Run(states', actions') && states'[|actions'|].input == states[|actions|].input
    ensures |states'[|actions'|].workers| == |states[|actions|].workers| && Parked(states'[|actions'|], i + 1, h, g)
  {
    FinishNext(states[|actions|], i, h, g);
    hide Run, InHand, Replying, Parked, DoWork, CanWork, DoEnd, CanEnd;
    states', actions' := Extend(states, actions, ByWorker(2, FinishUp));
    SendNext(states'[|actions'|], i, h, g);
    states', actions' := Extend(states', actions', ByWorker(2, Send));
    PutNext(states'[|actions'|], i, h, g);
    states', actions' := Extend(states', actions', ByWorker(2, PutReq));
    WriteNext(states'[|actions'|], i, h, g);
    states', actions' := Extend(states', actions', ByEnd(WriterTake));
    states', actions' := Extend(states', actions', ByEnd(WriterWrite));
  }

  /** Everything before request `i` is served, but for `h` and `g`, which their workers sit on. */
  lemma {:induction false} ParkedAt(input: seq<Request>, n: nat, i: nat, h: nat, g: nat, f: nat)
    returns (states: seq<State>, actions: seq<Action>)
    requires Pattern(input, h, g, f) && n >= 3 && i <= f
    ensures Run(states, actions) && states[|actions|].input == input && |states[|actions|].workers| == n
            && Parked(states[|actions|], i, h, g)
  {
    if i == 0 {
      var s := AnyStart(input, n);
      states, actions := [s], [];
    } else {
      hide Run, Parked, InHand, Pattern;
      states, actions := ParkedAt(input, n, i - 1, h, g, f);
      states, actions := TakeNext(states, actions, i - 1, h, g, f);
      if i - 1 != h && i - 1 != g {
        Allowed(input, h, g, f, i - 1);
        states, actions := Executed(states, actions, i - 1, h, g, f);
        states, actions := Answered(states, actions, i - 1, h, g);
      }
    }
  }

  lemma Allowed(input: seq<Request>, h: nat, g: nat, f: nat, i: nat)
    requires Pattern(input, h, g, f) && i <= f
    ensures i < |input| && input[i].kind != Write(false)
  {}

  /** A run on `input` with `n` workers in which a flush overtakes an earlier write or trim. */
  ghost predicate OvertakingRun(input: seq<Request>, n: nat, states: seq<State>, actions: seq<Action>, p: nat, h: nat) {
    && Run(states, actions) && states[0].input == input && |states[0].workers| == n
    && Overtakes(states[|actions|], p, h)
  }

  ghost predicate CanOvertake(input: seq<Request>, n: nat) {
    exists states, actions, p, h :: OvertakingRun(input, n, states, actions, p, h)
  }

  /** A write or trim and two flushes after it, before any disconnect. */
  ghost predicate TwoFlushes(input: seq<Request>, h: nat, g: nat, f: nat) {
    && h < g < f < |input| && Unlocks(input[h].kind) && input[g].kind == Flush && input[f].kind == Flush
    && forall k :: 0 <= k <= f ==> input[k].kind != Disconnect
  }

  lemma {:induction false} RunKeepsInput(states: seq<State>, actions: seq<Action>, i: nat)
    requires Run(states, actions) && i < |states|
    ensures states[i].input == states[0].input && |states[i].workers| == |states[0].workers|
  {
    hide Inv, Can, Do;
    if i > 0 {
      RunKeepsInput(states, actions, i - 1);
      assert Can(states[i - 1], actions[i - 1]) && states[i - 1 + 1] == Do(states[i - 1], actions[i - 1]);
      RunInv(states, actions, i - 1);
      LogGrows(states[i - 1], actions[i - 1]);
    }
  }

  /** With three workers or more, every such input has a run in which its second flush overtakes. */
  lemma {:induction false} OvertakingHappens(input: seq<Request>, n: nat, h: nat, g: nat, f: nat)
    requires n >= 3 && NoLeak(input, |input|) && TwoFlushes(input, h, g, f)
    ensures CanOvertake(input, n)
  {
    var g' := FirstFlushAfter(input, h, g, f);
    var states, actions := ParkedAt(input, n, f, h, g', f);
    states, actions := TakeNext(states, actions, f, h, g', f);
    states, actions := Executed(states, actions, f, h, g', f);
    RunKeepsInput(states, actions, |actions|);
    var s := states[|actions|];
    assert h !in s.log;
    hide Run, Parked, Pattern;
    var p := |s.log| - 1;
    assert s.log[p] == f;
    assert Overtakes(s, p, h);
    assert OvertakingRun(input, n, states, actions, p, h);
  }

  lemma FirstFlushAfter(input: seq<Request>, h: nat, g: nat, f: nat) returns (g': nat)
    requires NoLeak(input, |input|) && TwoFlushes(input, h, g, f)
    ensures Pattern(input, h, g', f)
  {
    g' := NextFlush(input, h, g);
  }

  lemma {:induction false} NextFlush(input: seq<Request>, h: nat, g: nat) returns (g': nat)
    requires h < g < |input| && input[h].kind != Flush && input[g].kind == Flush
    ensures h < g' <= g && input[g'].kind == Flush && forall k :: h <= k < g' ==> input[k].kind != Flush
    decreases g
  {
    if k :| h < k < g && input[k].kind == Flush {
      g' := NextFlush(input, h, k);
    } else {
      g' := g;
    }
  }

  /** Without leaked locks, a flush can overtake an earlier write or trim if and only if there are three
      workers or more and the input has one with two flushes after it. */
  lemma {:induction false} OvertakingExactly(input: seq<Request>, n: nat)
    requires NoLeak(input, |input|)
    ensures CanOvertake(input, n) <==> n >= 3 && exists h, g, f :: TwoFlushes(input, h, g, f)
  {
    if n >= 3 && exists h, g, f :: TwoFlushes(input, h, g, f) {
      var h, g, f :| TwoFlushes(input, h, g, f);
      OvertakingHappens(input, n, h, g, f);
    }
    if CanOvertake(input, n) {
      var states: seq<State>, actions: seq<Action>, p: nat, h: nat :| OvertakingRun(input, n, states, actions, p, h);
      OvertakingShape(input, n, states, actions, p, h);
    }
  }

  lemma OvertakingShape(input: seq<Request>, n: nat, states: seq<State>, actions: seq<Action>, p: nat, h: nat)
    requires OvertakingRun(input, n, states, actions, p, h)
    ensures n >= 3 && exists g, f :: TwoFlushes(input, h, g, f)
  {
    var s := states[|actions|];
    RunKeepsInput(states, actions, |actions|);
    OvertakingNeeds(states, actions, |actions|, p, h);
    RunInv(states, actions, |actions|);
    hide Run;
    var g :| h < g < s.log[p] && g < |s.input| && s.input[g].kind == Flush;
    NoDisconnectBefore(s, p);
    hide Inv;
    assert TwoFlushes(input, h, g, s.log[p]);
  }

  lemma NoDisconnectBefore(s: State, p: nat)
    requires Inv(s) && p < |s.log|
    ensures s.log[p] < |s.input| && forall k :: 0 <= k <= s.log[p] ==> s.input[k].kind != Disconnect
  {
    assert Shape(s) && FrontOk(s) && LogOk(s);
    hide Inv, Shape, Gen, Out;
    assert s.log[p] in s.log;
  }

  /** The shortest case: a write, two flushes and three workers. */
  lemma {:induction false} SecondFlushOvertakesWrite()
    ensures CanOvertake([Request(Write(true), 0), Request(Flush, 1), Request(Flush, 2)], 3)
  {
    var input := [Request(Write(true), 0), Request(Flush, 1), Request(Flush, 2)];
    assert TwoFlushes(input, 0, 1, 2);
    OvertakingHappens(input, 3, 0, 1, 2);
  }
}
