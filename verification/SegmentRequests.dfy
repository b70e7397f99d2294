/** From the request that a thread begins to the answer it returns with: what reads, writes, flushes and
    evictions have done when they are over, in every run. */
module SegmentRequests {
  import opened Bytes
  import opened Options
  import opened SegmentProtocol

  // ---------------------------------------------------------------- places and requests

  /** The request that a place belongs to; none while idle, and where a thread that has nothing to report
      gives its lock back. */
  function RequestAt(pc: Pc): Option<Op> {
    match pc
    case Idle => None
    case ReadTry(op) => Some(op)
    case ReadLocked(op) => Some(op)
    case ReadDone(op, _) => Some(op)
    case ZeroTry(op) => Some(op)
    case ZeroLocked(op) => Some(op)
    case ZeroUnlock(op, _, _) => Some(op)
    case LoadWait(op) => Some(op)
    case LoadLocked(op) => Some(op)
    case LoadItem(op) => Some(op)
    case LoadItemHeld(op) => Some(op)
    case LoadDownloaded(op) => Some(op)
    case LoadItemUnlock(op) => Some(op)
    case LoadCreate(op) => Some(op)
    case LoadCreated(op) => Some(op)
    case LoadEmpty(op) => Some(op)
    case LoadReady(op) => Some(op)
    case MarkDirty(op, _) => Some(op)
    case FileUnlock(out) => if out.Served? then Some(out.op) else None
    case FlushCheck(kind) => Some(Flush(kind))
    case FlushWait(kind) => Some(Flush(kind))
    case FlushLocked(kind) => Some(Flush(kind))
    case UpItem(kind) => Some(UploadFor(kind))
    case UpHeld(kind) => Some(UploadFor(kind))
    case UpClean(kind) => Some(UploadFor(kind))
    case UpBuffered(_) => Some(Flush(Buffered))
    case UpPut(kind, _) => Some(UploadFor(kind))
    case UpRelease(_) => Some(Flush(Streamed))
    case UpAssign(kind, _) => Some(UploadFor(kind))
    case UpUnlock(kind, _) => Some(UploadFor(kind))
    case _ => Some(Delete)
  }

  function UploadFor(kind: Upload): Op {
    if kind == Evict then Delete else Flush(kind)
  }

  /** A step begins a request, goes on with it, or ends it. */
  lemma NextServes(s: State, pc: Pc, op: Op, ok: bool)
    requires OpOf(pc, s.size)
    ensures var next := Next(s, pc, op, ok);
            if pc.Idle? then next.Idle? || RequestAt(next) == Some(op) else GoesOn(pc, next)
  {
    hide InRange, IsZeros, GoesOn;
    if Loading(pc) {
      LoadGoesOn(s, pc, op, ok);
    } else if HoldsItemW(pc) {
      UploadGoesOn(s, pc, op, ok);
    } else if !pc.Idle? {
      OtherGoesOn(s, pc, op, ok);
    }
  }

  /** The request is over, failed, or the same as before. */
  predicate GoesOn(pc: Pc, next: Pc) {
    next.Idle? || next == FileUnlock(Nothing) || (pc != FileUnlock(Nothing) && RequestAt(next) == RequestAt(pc))
  }

  lemma LoadGoesOn(s: State, pc: Pc, op: Op, ok: bool)
    requires Loading(pc)
    ensures GoesOn(pc, Next(s, pc, op, ok))
  {
    hide InRange, IsZeros;
    if HoldsItemR(pc) {
    } else {
    }
  }

  /** The kind of an upload, by its place. */
  function KindOf(pc: Pc): Upload
    requires HoldsItemW(pc)
  {
    match pc
    case UpBuffered(_) => Buffered
    case UpRelease(_) => Streamed
    case _ => pc.kind
  }

  lemma UploadNext(s: State, pc: Pc, op: Op, ok: bool)
    requires HoldsItemW(pc)
    ensures var next := Next(s, pc, op, ok);
            || next.Idle? || next == FileUnlock(Nothing) || (next.DeleteFile? && KindOf(pc) == Evict)
            || (HoldsItemW(next) && KindOf(next) == KindOf(pc))
  {
    hide InRange, IsZeros;
  }

  lemma UploadServes(pc: Pc)
    requires HoldsItemW(pc)
    ensures pc != FileUnlock(Nothing) && RequestAt(pc) == Some(UploadFor(KindOf(pc)))
  {}

  lemma UploadGoesOn(s: State, pc: Pc, op: Op, ok: bool)
    requires HoldsItemW(pc)
    ensures GoesOn(pc, Next(s, pc, op, ok))
  {
    hide Next, HoldsItemW, KindOf;
    UploadNext(s, pc, op, ok);
    UploadServes(pc);
    if HoldsItemW(Next(s, pc, op, ok)) {
      UploadServes(Next(s, pc, op, ok));
      hide RequestAt;
    }
  }

  lemma OtherGoesOn(s: State, pc: Pc, op: Op, ok: bool)
    requires OpOf(pc, s.size) && !pc.Idle? && !Loading(pc) && !HoldsItemW(pc)
    ensures GoesOn(pc, Next(s, pc, op, ok))
  {
    hide InRange, IsZeros;
    if pc.FlushCheck? || pc.FlushWait? || pc.FlushLocked? || pc.UpItem? {
    } else if pc.DeleteWait? || pc.DeleteLocked? || pc.DeleteFile? || pc.DeleteForget? {
    } else if pc.ReadTry? || pc.ReadLocked? || pc.ReadDone? || pc.ZeroTry? || pc.ZeroLocked? || pc.ZeroUnlock? {
    } else {
    }
  }

  /** Thread `t` has been busy with one request since it left `Idle` at `j`. */
  ghost predicate Busy(states: seq<State>, t: Thread, j: nat, i: nat) {
    j < i < |states| && states[j].At(t).Idle? && forall m :: j < m <= i ==> !states[m].At(t).Idle?
  }

  lemma StepAt(s: State, t: Thread, op: Op, ok: bool, u: Thread)
    ensures Exec(s, t, op, ok).At(u) == if u == t then Next(s, s.At(t), op, ok) else s.At(u)
  {
    EffectStructure(s, s.At(t), ok);
    hide Effect, Next, Record;
  }

  /** Step `i` of a run. */
  lemma StepOf(states: seq<State>, choices: seq<Choice>, i: nat)
    requires Run(states, choices) && i + 1 < |states|
    ensures |states| == |choices| + 1 && Inv(states[i]) && Inv(states[i + 1])
    ensures var c := choices[i]; Enabled(states[i], c.t) && states[i + 1] == Exec(states[i], c.t, c.op, c.ok)
  {
    RunInv(states, choices, i);
    RunInv(states, choices, i + 1);
    hide Inv, Exec, Enabled;
  }

  /** What step `i` of a run means for thread `t`. */
  lemma StepFor(states: seq<State>, choices: seq<Choice>, i: nat, t: Thread)
    requires Run(states, choices) && i + 1 < |states|
    ensures |states| == |choices| + 1 && OpOf(states[i].At(t), states[i].size)
    ensures var s, c := states[i], choices[i];
            states[i + 1].At(t) == if c.t == t then Next(s, s.At(t), c.op, c.ok) else s.At(t)
  {
    hide Exec, Enabled, Next, OpOf, Run;
    StepOf(states, choices, i);
    var s, c := states[i], choices[i];
    StepAt(s, c.t, c.op, c.ok, t);
  }

  lemma StartsIdle(states: seq<State>, choices: seq<Choice>, t: Thread)
    requires Run(states, choices)
    ensures |states| > 0 && states[0].At(t).Idle? && states[0].answers == []
  {}

  lemma {:induction false} BusySince(states: seq<State>, choices: seq<Choice>, t: Thread, i: nat) returns (j: nat)
    requires Run(states, choices) && i < |states| && !states[i].At(t).Idle?
    ensures Busy(states, t, j, i)
  {
    hide Run;
    StartsIdle(states, choices, t);
    if states[i - 1].At(t).Idle? {
      j := i - 1;
    } else {
      j := BusySince(states, choices, t, i - 1);
    }
  }

  /** In every run, a thread works on the request it began with, at every place, until it is idle again. */
  lemma {:induction false} ServesItsRequest(states: seq<State>, choices: seq<Choice>, t: Thread, j: nat, i: nat)
    requires Run(states, choices) && Busy(states, t, j, i)
    ensures choices[j].t == t
    ensures states[i].At(t) == FileUnlock(Nothing) || RequestAt(states[i].At(t)) == Some(choices[j].op)
    decreases i
  {
    hide Run, Next, RequestAt, OpOf;
    StepFor(states, choices, i - 1, t);
    var s, c := states[i - 1], choices[i - 1];
    NextServes(s, s.At(t), c.op, c.ok);
    if i - 1 > j {
      ServesItsRequest(states, choices, t, j, i - 1);
    }
  }

  /** Every request inside the segment is begun, and no other. */
  lemma {:induction false} BeginsInside(s: State, op: Op, ok: bool)
    ensures Next(s, Idle, op, ok).Idle? <==>
            match op
            case Read(pos, count) => pos + count > s.size
            case Write(pos, data) => pos + |data| > s.size
            case Flush(kind) => kind == Evict
            case Delete => false
  {}

  // ---------------------------------------------------------------- length of a request

  /** How many steps a request takes at most from here. */
  function Rank(pc: Pc): nat {
    match pc
    case Idle => 0
    case ReadTry(_) => 14
    case ReadLocked(_) => 13
    case ReadDone(_, _) => 1
    case ZeroTry(_) => 14
    case ZeroLocked(_) => 13
    case ZeroUnlock(_, _, _) => 12
    case LoadWait(_) => 11
    case LoadLocked(_) => 10
    case LoadItem(_) => 9
    case LoadItemHeld(_) => 8
    case LoadDownloaded(_) => 7
    case LoadItemUnlock(_) => 6
    case LoadCreate(_) => 7
    case LoadCreated(_) => 6
    case LoadEmpty(_) => 5
    case LoadReady(_) => 5
    case MarkDirty(_, _) => 4
    case FileUnlock(_) => 1
    case FlushCheck(_) => 14
    case FlushWait(_) => 13
    case FlushLocked(_) => 12
    case UpItem(_) => 11
    case UpHeld(_) => 10
    case UpClean(_) => 9
    case UpBuffered(_) => 8
    case UpPut(_, _) => 7
    case UpRelease(_) => 6
    case UpAssign(_, _) => 5
    case UpUnlock(_, _) => 4
    case DeleteWait => 13
    case DeleteLocked => 12
    case DeleteFile => 3
    case DeleteForget => 2
  }

  lemma RankFalls(s: State, pc: Pc, op: Op, ok: bool)
    ensures if pc.Idle? then Rank(Next(s, pc, op, ok)) <= 14 else Rank(Next(s, pc, op, ok)) < Rank(pc)
  {
    hide InRange, IsZeros;
    if Loading(pc) {
    } else if HoldsItemW(pc) {
    }
  }

  /** How many of the steps from `j` to `i` thread `t` takes. */
  function OwnSteps(choices: seq<Choice>, t: Thread, j: nat, i: nat): nat
    requires j <= i <= |choices|
    decreases i
  {
    if i == j then 0 else OwnSteps(choices, t, j, i - 1) + if choices[i - 1].t == t then 1 else 0
  }

  /** In every run, no request takes more than fifteen steps of its thread, whatever the others do. */
  lemma {:induction false} RequestsAreShort(states: seq<State>, choices: seq<Choice>, t: Thread, j: nat, i: nat)
    requires Run(states, choices) && Busy(states, t, j, i)
    ensures |states| == |choices| + 1 && OwnSteps(choices, t, j, i) + Rank(states[i].At(t)) <= 15
    decreases i
  {
    hide Run, Next, Rank, OpOf;
    StepFor(states, choices, i - 1, t);
    var s, c := states[i - 1], choices[i - 1];
    RankFalls(s, s.At(t), c.op, c.ok);
    if i - 1 > j {
      RequestsAreShort(states, choices, t, j, i - 1);
    } else {
      assert OwnSteps(choices, t, j, j) == 0;
    }
  }

  // ---------------------------------------------------------------- answers

  lemma HistoryGrows(s: State, t: Thread, op: Op, ok: bool)
    ensures s.history <= Exec(s, t, op, ok).history
  {
    EffectStructure(s, s.At(t), ok);
    EffectLogs(s, s.At(t), ok);
    hide Effect, Next;
  }

  lemma EffectLogs(s: State, pc: Pc, ok: bool)
    ensures s.history <= Effect(s, pc, ok).history
  {
    hide Overwrite, IsZeros, Replay, ItemAt, Zeros;
    if pc.ReadLocked? || pc.LoadReady? || pc.ZeroLocked? || pc.LoadEmpty? {
    } else {
      QuietEffect(s, pc, ok);
    }
  }

  lemma {:induction false} HistoryLater(states: seq<State>, choices: seq<Choice>, j: nat, i: nat)
    requires Run(states, choices) && j <= i < |states|
    ensures states[j].history <= states[i].history
    decreases i
  {
    hide Run, Inv, Exec, Enabled;
    if j < i {
      HistoryLater(states, choices, j, i - 1);
      StepOf(states, choices, i - 1);
      var c := choices[i - 1];
      HistoryGrows(states[i - 1], c.t, c.op, c.ok);
    }
  }

  /** What a step has logged, it has logged now; what had been logged before stays. */
  lemma LoggedNow(s: State, pc: Pc, op: Op, ok: bool)
    requires OpOf(pc, s.size)
    ensures var next := Next(s, pc, op, ok);
            Logged(next).Served? ==> Logged(next).at == |s.history| || Logged(next) == Logged(pc)
  {
    hide InRange, IsZeros;
    if pc.ReadLocked? || pc.LoadReady? || pc.ZeroLocked? || pc.LoadEmpty? {
    } else {
      QuietNext(s, pc, op, ok);
    }
  }

  /** The event of a request is logged after the request has begun. */
  lemma {:induction false} LoggedSince(states: seq<State>, choices: seq<Choice>, t: Thread, j: nat, i: nat)
    requires Run(states, choices) && Busy(states, t, j, i) && Logged(states[i].At(t)).Served?
    ensures |states[j].history| <= Logged(states[i].At(t)).at
    decreases i
  {
    hide Run, Next, OpOf;
    StepFor(states, choices, i - 1, t);
    var s, c := states[i - 1], choices[i - 1];
    LoggedNow(s, s.At(t), c.op, c.ok);
    HistoryLater(states, choices, j, i - 1);
    if i - 1 > j && Logged(s.At(t)).Served? {
      LoggedSince(states, choices, t, j, i - 1);
    }
  }

  /** Answer `k` is that of the request with which thread `t` was busy from `j` to `m`, and its event was
      logged in that time. */
  ghost predicate AnswersRequest(states: seq<State>, choices: seq<Choice>, out: Outcome, k: nat, t: Thread, j: nat,
                                 m: nat)
  {
    && |states| == |choices| + 1 && Busy(states, t, j, m) && m + 1 < |states| && choices[m].t == t
    && choices[j].t == t && states[m + 1].At(t).Idle? && |states[m].answers| == k
    && out.Served? && out.op == choices[j].op && |states[j].history| <= out.at
  }

  ghost predicate Answered(states: seq<State>, choices: seq<Choice>, out: Outcome, k: nat) {
    exists t: Thread, j: nat, m: nat :: AnswersRequest(states, choices, out, k, t, j, m)
  }

  lemma AnswerStep(s: State, t: Thread, op: Op, ok: bool)
    requires OpOf(s.At(t), s.size)
    ensures var s', out := Exec(s, t, op, ok), Result(s.At(t));
            || s'.answers == s.answers
            || (s'.answers == s.answers + [out] && out.Served? && Logged(s.At(t)) == out && s'.At(t).Idle?)
  {
    EffectStructure(s, s.At(t), ok);
    StepAt(s, t, op, ok, t);
    if Result(s.At(t)).Served? {
      QuietNext(s, s.At(t), op, ok);
    }
    hide Effect, Next;
  }

  /** In every run, every answer is the answer to the request its thread began with: the same operation at
      the same position with the same bytes, served after the request began and before it returned. */
  lemma {:induction false} AnswersAreRequests(states: seq<State>, choices: seq<Choice>, i: nat, k: nat)
    requires Run(states, choices) && i < |states| && k < |states[i].answers|
    ensures Answered(states, choices, states[i].answers[k], k)
  {
    hide Run, Inv, Exec, Next, Enabled, OpOf, Answered;
    StartsIdle(states, choices, 0);
    StepOf(states, choices, i - 1);
    var s, c := states[i - 1], choices[i - 1];
    StepFor(states, choices, i - 1, c.t);
    AnswerStep(s, c.t, c.op, c.ok);
    if k < |s.answers| {
      AnswersAreRequests(states, choices, i - 1, k);
    } else {
      NewAnswer(states, choices, i, k);
    }
  }

  lemma NewAnswer(states: seq<State>, choices: seq<Choice>, i: nat, k: nat)
    requires Run(states, choices) && 0 < i < |states| && |states| == |choices| + 1
    requires var s, c := states[i - 1], choices[i - 1]; var out := Result(s.At(c.t));
             && |s.answers| == k && states[i].answers == s.answers + [out] && out.Served?
             && Logged(s.At(c.t)) == out && states[i].At(c.t).Idle?
    ensures Answered(states, choices, states[i].answers[k], k)
  {
    hide Run;
    var s, c := states[i - 1], choices[i - 1];
    var j := BusySince(states, choices, c.t, i - 1);
    ServesItsRequest(states, choices, c.t, j, i - 1);
    LoggedSince(states, choices, c.t, j, i - 1);
    assert RequestAt(s.At(c.t)) == Some(Result(s.At(c.t)).op);
    hide RequestAt, Result, Logged;
    assert AnswersRequest(states, choices, states[i].answers[k], k, c.t, j, i - 1);
  }

  // ---------------------------------------------------------------- how requests end

  /** The quota refused thread `t` a slot for the local file. */
  ghost predicate Refused(states: seq<State>, choices: seq<Choice>, t: Thread, j: nat, i: nat) {
    |states| == |choices| + 1 && i < |states| &&
    exists m :: j < m < i && choices[m].t == t && !choices[m].ok
                && (states[m].At(t).LoadCreate? || (states[m].At(t).LoadItemHeld? && states[m].item))
  }

  ghost predicate UploadFailed(states: seq<State>, choices: seq<Choice>, t: Thread, j: nat, i: nat) {
    |states| == |choices| + 1 && i < |states| &&
    exists m :: j < m < i && choices[m].t == t && !choices[m].ok && states[m].At(t).UpPut?
  }

  predicate Failed(pc: Pc) {
    (pc.UpRelease? && !pc.ok) || (pc.UpAssign? && !pc.ok) || (pc.UpUnlock? && !pc.ok)
  }

  lemma FailedNow(s: State, pc: Pc, op: Op, ok: bool)
    ensures Failed(Next(s, pc, op, ok)) ==> Failed(pc) || (pc.UpPut? && !ok)
  {
    hide InRange, IsZeros;
    if HoldsItemW(pc) {
    } else {
      hide Next;
      NoNewCarrier(s, pc, op, ok);
    }
  }

  /** An upload that is reported failed has failed. */
  lemma {:induction false} FailedSince(states: seq<State>, choices: seq<Choice>, t: Thread, j: nat, i: nat)
    requires Run(states, choices) && Busy(states, t, j, i) && Failed(states[i].At(t))
    ensures UploadFailed(states, choices, t, j, i)
    decreases i
  {
    hide Run, Next, OpOf;
    StepFor(states, choices, i - 1, t);
    var s, c := states[i - 1], choices[i - 1];
    FailedNow(s, s.At(t), c.op, c.ok);
    assert i - 1 > j;
    if Failed(s.At(t)) {
      FailedSince(states, choices, t, j, i - 1);
    } else {
      assert c.t == t && !c.ok && s.At(t).UpPut?;
    }
  }

  /** Whether a thread stands between the two halves of a change of `localFile` and `backed`. */
  predicate Midway(pc: Pc) {
    pc.LoadDownloaded? || pc.LoadCreated? || pc.DeleteForget?
  }

  /** `backed` tells whether there is a local file, to everybody who may look. */
  ghost predicate BackedOk(s: State) {
    (s.fileW.Some? && Midway(s.At(s.fileW.value))) || (s.backed <==> s.file.Some?)
  }

  lemma BackedStep(s: State, pc: Pc, op: Op, ok: bool)
    requires Ready(s, pc) && (Midway(pc) || (s.backed <==> s.file.Some?)) && HoldsFileW(pc)
    ensures var e, next := Effect(s, pc, ok), Next(s, pc, op, ok);
            Midway(next) || (e.backed <==> e.file.Some?)
  {
    hide Contents, Overwrite, IsZeros, Zeros, InRange, ItemAt, Replay, OpOf;
    if pc.LoadReady? {
      ServesFile(s, pc.op);
    } else if Loading(pc) {
      hide Serve;
    } else if HoldsItemW(pc) {
      hide Serve;
    } else {
      hide Serve;
    }
  }

  lemma ServesFile(s: State, op: Op)
    ensures Serve(s, op).file.Some? == s.file.Some? && Serve(s, op).backed == s.backed
  {
    hide Overwrite;
  }

  lemma BackedKept(s: State, t: Thread, op: Op, ok: bool)
    requires Inv(s) && Enabled(s, t) && BackedOk(s) && !Exec(s, t, op, ok).lost
    ensures BackedOk(Exec(s, t, op, ok))
  {
    var pc, s' := s.At(t), Exec(s, t, op, ok);
    EffectStructure(s, pc, ok);
    MoverReady(s, t);
    EffectFrame(s, pc, ok);
    StepKeepsInv(s, t, op, ok);
    assert LocksOf(s, t) && LocksOf(s', t);
    forall u: Thread | s.fileW == Some(u) ensures LocksOf(s, u) {}
    if HoldsFileW(pc) {
      BackedStep(s, pc, op, ok);
    }
    MidwayHolds(Next(s, pc, op, ok));
    hide Effect, Next, Inv, Ready, Contents, Record;
  }

  lemma MidwayHolds(pc: Pc)
    ensures Midway(pc) ==> HoldsFileW(pc)
  {}

  lemma {:induction false} BackedInRuns(states: seq<State>, choices: seq<Choice>, i: nat)
    requires Run(states, choices) && i < |states| && !states[i].lost
    ensures BackedOk(states[i])
  {
    if i > 0 {
      StepOf(states, choices, i - 1);
      var c := choices[i - 1];
      NotLostBefore(states[i - 1], c.t, c.op, c.ok);
      BackedInRuns(states, choices, i - 1);
      hide Run, Inv, Exec, Enabled, BackedOk;
      BackedKept(states[i - 1], c.t, c.op, c.ok);
    }
  }

  /** The ways to the place where a thread has nothing to report. */
  lemma WaysToGiveUp(s: State, pc: Pc, op: Op, ok: bool)
    requires Next(s, pc, op, ok) == FileUnlock(Nothing)
    ensures || (pc.LoadItemHeld? && s.item && !ok) || (pc.LoadCreate? && !ok)
            || (pc.UpUnlock? && pc.kind == Evict && !pc.ok) || (pc.DeleteLocked? && !s.backed) || pc.DeleteForget?
  {
    hide InRange, IsZeros;
    if Loading(pc) {
    } else if HoldsItemW(pc) {
    }
  }

  lemma WhoGivesUp(pc: Pc, size: nat)
    requires OpOf(pc, size)
    ensures pc.LoadItemHeld? || pc.LoadCreate? ==> RequestAt(pc) == Some(pc.op) && (pc.op.Read? || pc.op.Write?)
    ensures (pc.UpUnlock? && pc.kind == Evict) || pc.DeleteLocked? || pc.DeleteForget? ==> RequestAt(pc) == Some(Delete)
  {}

  lemma ForgetsFile(s: State, pc: Pc, ok: bool)
    requires pc.DeleteForget? || pc.DeleteLocked?
    ensures pc.DeleteForget? ==> Effect(s, pc, ok).file.None?
    ensures pc.DeleteLocked? ==> Effect(s, pc, ok) == s
  {
    hide Replay, IsZeros, ItemAt;
  }

  /** While a thread holds a lock, the others leave alone what it guards. */
  lemma Undisturbed(s: State, u: Thread, op: Op, ok: bool, t: Thread)
    requires Inv(s) && u != t && !Exec(s, u, op, ok).lost
    ensures HoldsFileW(s.At(t)) ==> Exec(s, u, op, ok).file == s.file
    ensures HoldsItemW(s.At(t)) ==> Exec(s, u, op, ok).stored == s.stored && Exec(s, u, op, ok).item == s.item
  {
    EffectStructure(s, s.At(u), ok);
    MoverReady(s, u);
    EffectFrame(s, s.At(u), ok);
    assert LocksOf(s, t) && LocksOf(s, u);
    hide Effect, Next, Inv, Ready, Contents, Record;
  }

  /** A thread gives up only when it is refused a slot, when its upload fails, or when there is no file left
      to evict. */
  lemma {:induction false} GaveUp(states: seq<State>, choices: seq<Choice>, t: Thread, j: nat, i: nat)
    requires Run(states, choices) && Busy(states, t, j, i) && !states[i].lost && states[i].At(t) == FileUnlock(Nothing)
    ensures |states| == |choices| + 1
    ensures match choices[j].op
            case Read(_, _) => Refused(states, choices, t, j, i)
            case Write(_, _) => Refused(states, choices, t, j, i)
            case Delete => states[i].file.None? || UploadFailed(states, choices, t, j, i)
            case Flush(_) => false
    decreases i
  {
    hide Run, Next, OpOf, Inv, Exec, Enabled, Refused, UploadFailed, BackedOk;
    StepOf(states, choices, i - 1);
    StepFor(states, choices, i - 1, t);
    var s, c := states[i - 1], choices[i - 1];
    NotLostBefore(s, c.t, c.op, c.ok);
    if c.t != t {
      GaveUp(states, choices, t, j, i - 1);
      Undisturbed(s, c.t, c.op, c.ok, t);
      RefusedLater(states, choices, t, j, i);
    } else {
      GivesUp(states, choices, t, j, i);
    }
  }

  lemma RefusedLater(states: seq<State>, choices: seq<Choice>, t: Thread, j: nat, i: nat)
    requires 0 < i
    ensures Refused(states, choices, t, j, i - 1) && i < |states| ==> Refused(states, choices, t, j, i)
    ensures UploadFailed(states, choices, t, j, i - 1) && i < |states| ==> UploadFailed(states, choices, t, j, i)
  {}

  lemma GivesUp(states: seq<State>, choices: seq<Choice>, t: Thread, j: nat, i: nat)
    requires Run(states, choices) && Busy(states, t, j, i) && |states| == |choices| + 1
    requires !states[i - 1].lost && !states[i].lost && choices[i - 1].t == t && states[i].At(t) == FileUnlock(Nothing)
    ensures match choices[j].op
            case Read(_, _) => Refused(states, choices, t, j, i)
            case Write(_, _) => Refused(states, choices, t, j, i)
            case Delete => states[i].file.None? || UploadFailed(states, choices, t, j, i)
            case Flush(_) => false
  {
    hide Run, Next, Inv, Exec, Enabled, Effect, BackedOk, RequestAt, OpOf;
    StepOf(states, choices, i - 1);
    StepFor(states, choices, i - 1, t);
    var s, c := states[i - 1], choices[i - 1];
    var pc := s.At(t);
    WaysToGiveUp(s, pc, c.op, c.ok);
    WhoGivesUp(pc, s.size);
    ServesItsRequest(states, choices, t, j, i - 1);
    if pc.UpUnlock? {
      FailedSince(states, choices, t, j, i - 1);
      RefusedLater(states, choices, t, j, i);
    } else if pc.DeleteLocked? || pc.DeleteForget? {
      BackedInRuns(states, choices, i - 1);
      HolderLooks(s, t);
      ForgetsFile(s, pc, c.ok);
      FileAfter(s, t, c.op, c.ok);
    }
  }

  lemma HolderLooks(s: State, t: Thread)
    requires Inv(s) && BackedOk(s)
    ensures s.At(t).DeleteLocked? ==> (s.backed <==> s.file.Some?)
  {
    assert LocksOf(s, t);
  }

  lemma FileAfter(s: State, t: Thread, op: Op, ok: bool)
    ensures Exec(s, t, op, ok).file == Effect(s, s.At(t), ok).file
    ensures Exec(s, t, op, ok).stored == Effect(s, s.At(t), ok).stored
    ensures Exec(s, t, op, ok).item == Effect(s, s.At(t), ok).item
  {
    hide Effect, Next, Record;
  }

  // ---------------------------------------------------------------- what a flush uploads

  /** The bytes that an upload has read from the file, in the buffer, on the wire or stored. */
  function Carried(s: State, pc: Pc): Option<seq<Byte>> {
    match pc
    case UpBuffered(bytes) => Some(bytes)
    case UpPut(_, bytes) => Some(bytes)
    case UpRelease(done) => if done then Some(s.stored) else None
    case UpAssign(_, done) => if done then Some(s.stored) else None
    case UpUnlock(_, done) => if done then Some(s.stored) else None
    case _ => None
  }

  /** The bytes are what the segment held at some time between `j` and `i`. */
  ghost predicate HeldSince(states: seq<State>, j: nat, i: nat, bytes: seq<Byte>) {
    exists m :: j < m <= i < |states| && Contents(states[m]) == bytes
  }

  lemma CarriedNext(s: State, pc: Pc, op: Op, ok: bool)
    requires Ready(s, pc)
    ensures var bytes := Carried(Effect(s, pc, ok), Next(s, pc, op, ok));
            bytes.None? || bytes == Carried(s, pc) || (pc.UpClean? && bytes == Some(Contents(s)))
    ensures Next(s, pc, op, ok).UpUnlock? && Next(s, pc, op, ok).ok ==> Effect(s, pc, ok).item
  {
    hide InRange, IsZeros, Replay, Contents, Effect, Next, Carried;
    if HoldsItemW(pc) {
      UploadCarries(s, pc, op, ok);
    } else {
      NoNewCarrier(s, pc, op, ok);
      NothingCarried(Effect(s, pc, ok), Next(s, pc, op, ok));
    }
  }

  predicate Carries(pc: Pc) {
    pc.UpBuffered? || pc.UpPut? || pc.UpRelease? || pc.UpAssign? || pc.UpUnlock?
  }

  lemma NothingCarried(s: State, pc: Pc)
    requires !Carries(pc)
    ensures Carried(s, pc).None?
  {}

  lemma NoNewCarrier(s: State, pc: Pc, op: Op, ok: bool)
    requires !HoldsItemW(pc)
    ensures !Carries(Next(s, pc, op, ok))
  {
    hide InRange, IsZeros;
    if Loading(pc) {
    } else if pc.FlushCheck? || pc.FlushWait? || pc.FlushLocked? || pc.UpItem? {
    }
  }

  lemma UploadCarries(s: State, pc: Pc, op: Op, ok: bool)
    requires Ready(s, pc) && HoldsItemW(pc)
    ensures var bytes := Carried(Effect(s, pc, ok), Next(s, pc, op, ok));
            bytes.None? || bytes == Carried(s, pc) || (pc.UpClean? && bytes == Some(Contents(s)))
    ensures Next(s, pc, op, ok).UpUnlock? && Next(s, pc, op, ok).ok ==> Effect(s, pc, ok).item
  {
    hide InRange, IsZeros, Replay, Contents, Serve, DropZeros, ItemAt, OpOf;
    if pc.UpHeld? || pc.UpClean? || pc.UpBuffered? {
    } else if pc.UpPut? {
    } else {
    }
  }

  lemma CarriersHold(s: State, pc: Pc)
    ensures Carried(s, pc).Some? ==> HoldsItemW(pc)
  {}

  /** An upload carries what the segment held at some time after the request began. */
  lemma {:induction false} CarriedSince(states: seq<State>, choices: seq<Choice>, t: Thread, j: nat, i: nat)
    requires Run(states, choices) && Busy(states, t, j, i) && !states[i].lost
    ensures var s := states[i];
            && (Carried(s, s.At(t)).Some? ==> HeldSince(states, j, i, Carried(s, s.At(t)).value))
            && (s.At(t).UpUnlock? && s.At(t).ok ==> s.item)
    decreases i
  {
    hide Run, Next, Inv, Exec, Enabled, HeldSince, Carried, Ready, Contents, HoldsItemW, Effect;
    StepOf(states, choices, i - 1);
    StepFor(states, choices, i - 1, t);
    var s, c := states[i - 1], choices[i - 1];
    NotLostBefore(s, c.t, c.op, c.ok);
    if i - 1 > j {
      CarriedSince(states, choices, t, j, i - 1);
    }
    if c.t == t {
      MoverReady(s, t);
      CarriedNext(s, s.At(t), c.op, c.ok);
      FileAfter(s, t, c.op, c.ok);
      SameCarried(states[i], Effect(s, s.At(t), c.ok), states[i].At(t));
      if s.At(t).UpClean? {
        HeldNow(states, j, i - 1);
      }
    } else {
      CarriersHold(s, s.At(t));
      UploaderHolds(s.At(t));
      Undisturbed(s, c.t, c.op, c.ok, t);
      SameCarried(states[i], s, s.At(t));
    }
    HeldLater(states, j, i);
    IdleCarriesNothing(s);
  }

  lemma SameCarried(a: State, b: State, pc: Pc)
    ensures a.stored == b.stored || !HoldsItemW(pc) ==> Carried(a, pc) == Carried(b, pc)
  {}

  lemma UploaderHolds(pc: Pc)
    ensures pc.UpUnlock? ==> HoldsItemW(pc)
  {}

  lemma IdleCarriesNothing(s: State)
    ensures Carried(s, Idle).None?
  {}

  lemma HeldNow(states: seq<State>, j: nat, i: nat)
    requires j < i < |states|
    ensures HeldSince(states, j, i, Contents(states[i]))
  {}

  lemma HeldLater(states: seq<State>, j: nat, i: nat)
    requires 0 < i < |states|
    ensures forall bytes :: HeldSince(states, j, i - 1, bytes) ==> HeldSince(states, j, i, bytes)
  {
    forall bytes | HeldSince(states, j, i - 1, bytes) ensures HeldSince(states, j, i, bytes) {
      var m :| j < m <= i - 1 < |states| && Contents(states[m]) == bytes;
      assert Contents(states[m]) == bytes;
    }
  }

  // ---------------------------------------------------------------- results

  /** Thread `t` began a request at `j`, and its last step before being idle again is step `i`. */
  ghost predicate Over(states: seq<State>, choices: seq<Choice>, t: Thread, j: nat, i: nat) {
    |states| == |choices| + 1 && Busy(states, t, j, i) && i + 1 < |states| && states[i + 1].At(t).Idle?
  }

  /** The places from which a thread goes back to being idle. */
  lemma WaysHome(s: State, pc: Pc, op: Op, ok: bool)
    requires !pc.Idle? && Next(s, pc, op, ok).Idle?
    ensures || pc.ReadDone? || (pc.ZeroUnlock? && !pc.present) || pc.FileUnlock? || (pc.FlushCheck? && !s.dirty)
            || (pc.FlushLocked? && s.file.None?) || (pc.UpUnlock? && pc.kind != Evict)
  {
    hide InRange, IsZeros;
    if Loading(pc) {
    } else if HoldsItemW(pc) {
    }
  }

  lemma LastStep(states: seq<State>, choices: seq<Choice>, t: Thread, j: nat, i: nat)
    requires Run(states, choices) && Over(states, choices, t, j, i)
    ensures choices[i].t == t && choices[j].t == t
    ensures var s, c := states[i], choices[i]; !s.At(t).Idle? && Next(s, s.At(t), c.op, c.ok).Idle?
    ensures states[i].At(t) == FileUnlock(Nothing) || RequestAt(states[i].At(t)) == Some(choices[j].op)
  {
    hide Run, Next, RequestAt, OpOf;
    StepFor(states, choices, i, t);
    ServesItsRequest(states, choices, t, j, i);
  }

  /** A read or write that is over was refused a slot, or it has one answer and one event, its own, which was
      logged while it ran. */
  lemma {:induction false} RequestAnswered(states: seq<State>, choices: seq<Choice>, t: Thread, j: nat, i: nat)
    requires Run(states, choices) && Over(states, choices, t, j, i) && !states[i].lost
    requires choices[j].op.Read? || choices[j].op.Write?
    ensures var s, s' := states[i], states[i + 1];
            || Refused(states, choices, t, j, i)
            || exists at: nat ::
                 && s'.answers == s.answers + [Served(choices[j].op, at)]
                 && |states[j].history| <= at < |s.history| && Matches(s.history[at], choices[j].op)
  {
    hide Run, Next, Inv, Exec, Enabled, Refused, OneEventEach, Matches;
    LastStep(states, choices, t, j, i);
    var s, c := states[i], choices[i];
    WaysHome(s, s.At(t), c.op, c.ok);
    if s.At(t) == FileUnlock(Nothing) {
      GaveUp(states, choices, t, j, i);
    } else {
      var out := Result(s.At(t));
      assert out.Served? && Logged(s.At(t)) == out && out.op == choices[j].op;
      LoggedSince(states, choices, t, j, i);
      OneEventForEachAnswer(states, choices, i);
      EventOf(s, t);
      StepOf(states, choices, i);
      hide RequestAt, Logged;
      AnswerOnReturn(s, t, c.op, c.ok);
    }
  }

  lemma EventOf(s: State, t: Thread)
    requires OneEventEach(s) && Logged(s.At(t)).Served?
    ensures var out := Logged(s.At(t)); out.at < |s.owners| == |s.history| && Matches(s.history[out.at], out.op)
  {
    assert Stands(s, Logged(s.At(t)), Active(t));
  }

  lemma AnswerOnReturn(s: State, t: Thread, op: Op, ok: bool)
    requires var out := Result(s.At(t)); out.Served? && out.at < |s.owners|
    ensures Exec(s, t, op, ok).answers == s.answers + [Result(s.At(t))]
  {
    QuietEffect(s, s.At(t), ok);
    EffectStructure(s, s.At(t), ok);
    hide Effect, Next;
  }

  /** A flush that is over found the segment clean, or found that its file has been evicted meanwhile, or its
      upload failed, or the container now has what the segment held at some time after the flush began: all
      writes completed before it included. */
  lemma {:induction false} FlushStores(states: seq<State>, choices: seq<Choice>, t: Thread, j: nat, i: nat)
    requires Run(states, choices) && Over(states, choices, t, j, i) && !states[i].lost && choices[j].op.Flush?
    ensures var s, s' := states[i], states[i + 1];
            || (s.At(t).FlushCheck? && !s.dirty)
            || (s.At(t).FlushLocked? && s.file.None?)
            || UploadFailed(states, choices, t, j, i)
            || (s'.item && HeldSince(states, j, i, s'.stored))
  {
    hide Run, Next, Inv, Exec, Enabled, UploadFailed, HeldSince;
    LastStep(states, choices, t, j, i);
    var s, c := states[i], choices[i];
    WaysHome(s, s.At(t), c.op, c.ok);
    if s.At(t) == FileUnlock(Nothing) {
      GaveUp(states, choices, t, j, i);
    } else if s.At(t).UpUnlock? {
      CarriedSince(states, choices, t, j, i);
      StepOf(states, choices, i);
      FileAfter(s, t, c.op, c.ok);
      if !s.At(t).ok {
        FailedSince(states, choices, t, j, i);
      } else {
        UnlockChangesNothing(s, s.At(t), c.ok);
      }
    } else {
      NoEventForFlush(states, choices, i, t);
    }
  }

  lemma UnlockChangesNothing(s: State, pc: Pc, ok: bool)
    requires pc.UpUnlock?
    ensures Effect(s, pc, ok) == s
  {}

  lemma NoEventForFlush(states: seq<State>, choices: seq<Choice>, i: nat, t: Thread)
    requires Run(states, choices) && i < |states|
    ensures var pc := states[i].At(t);
            RequestAt(pc).Some? && RequestAt(pc).value.Flush? ==> !pc.ReadDone? && !pc.ZeroUnlock? && !pc.FileUnlock?
  {
    RunInv(states, choices, i);
    assert OpOf(states[i].At(t), states[i].size);
    hide Run, Inv;
  }

  /** An eviction that is over has left no local file when it gave its lock back, unless its upload failed. */
  lemma {:induction false} EvictionForgets(states: seq<State>, choices: seq<Choice>, t: Thread, j: nat, i: nat)
    requires Run(states, choices) && Over(states, choices, t, j, i) && !states[i].lost && choices[j].op.Delete?
    ensures states[i].At(t) == FileUnlock(Nothing)
    ensures states[i].file.None? || UploadFailed(states, choices, t, j, i)
  {
    hide Run, Next, Inv, Exec, Enabled, UploadFailed;
    LastStep(states, choices, t, j, i);
    var s, c := states[i], choices[i];
    WaysHome(s, s.At(t), c.op, c.ok);
    NoEventForDelete(states, choices, i, t);
    GaveUp(states, choices, t, j, i);
  }

  lemma NoEventForDelete(states: seq<State>, choices: seq<Choice>, i: nat, t: Thread)
    requires Run(states, choices) && i < |states|
    ensures var pc := states[i].At(t);
            RequestAt(pc) == Some(Delete) ==> !pc.ReadDone? && !pc.ZeroUnlock? && !pc.FileUnlock?
  {
    RunInv(states, choices, i);
    assert OpOf(states[i].At(t), states[i].size);
    hide Run, Inv;
  }
}
