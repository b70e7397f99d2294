/** A flush that returns too early: a concrete run of one segment. */
module SegmentRuns {
  import opened Bytes
  import opened Options
  import opened SegmentProtocol

  ghost predicate Goes(s: State, c: Choice, s': State) {
    Enabled(s, c.t) && s' == Exec(s, c.t, c.op, c.ok)
  }

  /** Extends a run by one step. */
  lemma Extend(states: seq<State>, choices: seq<Choice>, c: Choice, next: State)
    returns (states': seq<State>, choices': seq<Choice>)
    requires Run(states, choices) && |states| == |choices| + 1 && Goes(states[|choices|], c, next)
    ensures Run(states', choices') && |states'| == |choices'| + 1
    ensures states'[|choices'|] == next && choices' == choices + [c] && states' == states + [next]
  {
    hide Exec, Enabled;
    states', choices' := states + [next], choices + [c];
    forall i | 0 <= i < |choices'|
      ensures Enabled(states'[i], choices'[i].t)
      ensures states'[i + 1] == Exec(states'[i], choices'[i].t, choices'[i].op, choices'[i].ok)
    {
      assert i < |choices| ==> states'[i] == states[i] && states'[i + 1] == states[i + 1] && choices'[i] == choices[i];
    }
  }

  const W := Write(0, [5])
  const WRITER := Choice(0, W, true)
  const FLUSHER := Choice(1, Flush(Buffered), true)
  const LATE := Choice(2, Flush(Buffered), true)

  /** A segment of one byte that is not in the container, and its first writer. */
  function Writing(file: Option<seq<Byte>>, backed: bool, pcs: map<Thread, Pc>, pc: Pc): State {
    State(1, [0], file, false, [], false, backed, if HoldsFileW(pc) then Some(0) else None, {}, None,
          if HoldsItemR(pc) then {0} else {}, pcs, [], false, [], [])
  }

  /** The byte has been written, and the writer is about to return. */
  function Written(dirty: bool, pc: Pc): State {
    State(1, [0], Some([5]), false, [], dirty, true, Some(0), {}, None, {}, map[0 := pc], [Wrote(0, [5])], false, [],
        [Active(0)])
  }

  /** The writer has returned, and thread 1 flushes. */
  function Flushing(dirty: bool, pcs: map<Thread, Pc>, first: Pc): State {
    State(1, [0], Some([5]), false, [], dirty, true, None, if HoldsFileR(first) then {1} else {},
          if HoldsItemW(first) then Some(1) else None, {}, pcs, [Wrote(0, [5])], false, [Served(W, 0)], [Returned(0)])
  }

  /** The state in which a step of a writer ends, if it only changes its place, the file and `backed`. */
  lemma WriterStep(s: State, file: Option<seq<Byte>>, backed: bool, pc: Pc, next: Pc)
    requires s == Writing(s.file, s.backed, s.pcs, pc) && s.At(0) == pc && s.pcs.Keys <= {0}
    requires Next(s, pc, W, true) == next && Effect(s, pc, true) == s.(file := file, backed := backed)
    requires Enabled(s, 0) && Result(pc) == Nothing && !HoldsFileR(next) && !HoldsItemW(next)
    requires HoldsFileW(pc) || !HoldsFileW(next) || s.fileW.None?
    ensures Goes(s, WRITER, Writing(file, backed, map[0 := next], next))
  {
    hide Effect, Next, Enabled, Result, HoldsFileW, HoldsFileR, HoldsItemW, HoldsItemR;
    assert s.pcs[0 := next] == map[0 := next];
    var e := Exec(s, 0, W, true);
    var w := Writing(file, backed, map[0 := next], next);
    assert e.fileR == w.fileR && e.itemR == w.itemR && e.pcs == w.pcs;
  }

  /** The state in which a step of a flushing thread ends. Thread 1 takes locks, thread 2 has none. */
  lemma FlusherStep(s: State, u: Thread, dirty: bool, pc: Pc, next: Pc, first: Pc)
    requires s == Flushing(s.dirty, s.pcs, first) && s.At(u) == pc && (u == 2 || (u == 1 && first == pc))
    requires Next(s, pc, Flush(Buffered), true) == next && Effect(s, pc, true) == s.(dirty := dirty)
    requires Enabled(s, u) && Result(pc) == Nothing && !HoldsFileW(next) && !HoldsItemR(next)
    requires u == 2 ==> !HoldsFileR(next) && !HoldsItemW(next)
    ensures Goes(s, Choice(u, Flush(Buffered), true), Flushing(dirty, s.pcs[u := next], if u == 1 then next else first))
  {
    hide Effect, Next, Enabled, Result, HoldsFileW, HoldsFileR, HoldsItemW, HoldsItemR;
    var e := Exec(s, u, Flush(Buffered), true);
    var w := Flushing(dirty, s.pcs[u := next], if u == 1 then next else first);
    assert e.fileR == w.fileR && e.itemR == w.itemR && e.pcs == w.pcs;
  }

  lemma Begin() returns (states: seq<State>, choices: seq<Choice>)
    ensures Run(states, choices) && |states| == |choices| + 1
    ensures states[|choices|] == Writing(None, false, map[0 := LoadWait(W)], LoadWait(W))
  {
    var s := Writing(None, false, map[], Idle);
    assert s.Remote() == Zeros(1) == [0];
    states, choices := [s], [];
    assert Run(states, choices);
    assert [5][0] != 0;
    hide Run, Goes;
    WriterStep(s, None, false, Idle, LoadWait(W));
    states, choices := Extend(states, choices, WRITER, Writing(None, false, map[0 := LoadWait(W)], LoadWait(W)));
  }

  lemma Start() returns (states: seq<State>, choices: seq<Choice>)
    ensures Run(states, choices) && |states| == |choices| + 1
    ensures states[|choices|] == Writing(None, false, map[0 := LoadItem(W)], LoadItem(W))
  {
    states, choices := Begin();
    hide Run, Goes;
    WriterStep(states[|choices|], None, false, LoadWait(W), LoadLocked(W));
    states, choices := Extend(states, choices, WRITER, Writing(None, false, map[0 := LoadLocked(W)], LoadLocked(W)));
    WriterStep(states[|choices|], None, false, LoadLocked(W), LoadItem(W));
    states, choices := Extend(states, choices, WRITER, Writing(None, false, map[0 := LoadItem(W)], LoadItem(W)));
  }

  lemma Create() returns (states: seq<State>, choices: seq<Choice>)
    ensures Run(states, choices) && |states| == |choices| + 1
    ensures states[|choices|] == Writing(Some([0]), true, map[0 := LoadReady(W)], LoadReady(W))
  {
    states, choices := Start();
    hide Run, Goes;
    WriterStep(states[|choices|], None, false, LoadItem(W), LoadItemHeld(W));
    states, choices := Extend(states, choices, WRITER,
        Writing(None, false, map[0 := LoadItemHeld(W)], LoadItemHeld(W)));
    WriterStep(states[|choices|], None, false, LoadItemHeld(W), LoadCreate(W));
    states, choices := Extend(states, choices, WRITER, Writing(None, false, map[0 := LoadCreate(W)], LoadCreate(W)));
    assert Zeros(1) == [0];
    WriterStep(states[|choices|], Some([0]), false, LoadCreate(W), LoadCreated(W));
    states, choices := Extend(states, choices, WRITER,
        Writing(Some([0]), false, map[0 := LoadCreated(W)], LoadCreated(W)));
    WriterStep(states[|choices|], Some([0]), true, LoadCreated(W), LoadReady(W));
    states, choices := Extend(states, choices, WRITER, Writing(Some([0]), true, map[0 := LoadReady(W)], LoadReady(W)));
  }

  lemma Serves()
    ensures Goes(Writing(Some([0]), true, map[0 := LoadReady(W)], LoadReady(W)), WRITER,
              Written(false, MarkDirty(W, 0)))
  {
    var s := Writing(Some([0]), true, map[0 := LoadReady(W)], LoadReady(W));
    var next := MarkDirty(W, 0);
    ServesByte(s);
    assert Next(s, LoadReady(W), W, true) == next && s.At(0) == LoadReady(W) && Enabled(s, 0);
    hide Effect, Next, Enabled;
    var e, w := Exec(s, 0, W, true), Written(false, next);
    assert e.fileR == w.fileR && e.itemR == w.itemR && e.pcs == w.pcs && e.history == w.history && e.owners == w.owners;
  }

  lemma ServesByte(s: State)
    requires s.file == Some([0]) && s.history == []
    ensures Effect(s, LoadReady(W), true) == s.(file := Some([5]), history := [Wrote(0, [5])])
  {
    assert Overwrite([0], 0, [5]) == [5];
    assert s.history + [Wrote(0, [5])] == [Wrote(0, [5])];
  }

  lemma Marks()
    ensures Goes(Written(false, MarkDirty(W, 0)), WRITER, Written(true, FileUnlock(Served(W, 0))))
  {
    var e, w := Exec(Written(false, MarkDirty(W, 0)), 0, W, true), Written(true, FileUnlock(Served(W, 0)));
    assert e.fileR == w.fileR && e.itemR == w.itemR && e.pcs == w.pcs;
  }

  lemma ReturnsToCaller()
    ensures Goes(Written(true, FileUnlock(Served(W, 0))), WRITER, Flushing(true, map[0 := Idle], Idle))
  {
    var e, w := Exec(Written(true, FileUnlock(Served(W, 0))), 0, W, true), Flushing(true, map[0 := Idle], Idle);
    assert e.fileR == w.fileR && e.itemR == w.itemR && e.pcs == w.pcs && e.owners == w.owners && e.answers == w.answers;
  }

  lemma WriteByte() returns (states: seq<State>, choices: seq<Choice>)
    ensures Run(states, choices) && |states| == |choices| + 1
            && states[|choices|] == Flushing(true, map[0 := Idle], Idle)
  {
    states, choices := Create();
    hide Run, Goes, Writing, Written, Flushing;
    Serves();
    states, choices := Extend(states, choices, WRITER, Written(false, MarkDirty(W, 0)));
    Marks();
    states, choices := Extend(states, choices, WRITER, Written(true, FileUnlock(Served(W, 0))));
    ReturnsToCaller();
    states, choices := Extend(states, choices, WRITER, Flushing(true, map[0 := Idle], Idle));
  }

  lemma FirstFlush() returns (states: seq<State>, choices: seq<Choice>, pcs: map<Thread, Pc>)
    ensures Run(states, choices) && |states| == |choices| + 1
    ensures states[|choices|] == Flushing(true, pcs, FlushWait(Buffered)) && 1 in pcs && pcs[1] == FlushWait(Buffered)
            && 2 !in pcs
  {
    states, choices := WriteByte();
    hide Run, Goes;
    pcs := map[0 := Idle];
    FlusherStep(states[|choices|], 1, true, Idle, FlushCheck(Buffered), Idle);
    pcs := pcs[1 := FlushCheck(Buffered)];
    states, choices := Extend(states, choices, FLUSHER, Flushing(true, pcs, FlushCheck(Buffered)));
    FlusherStep(states[|choices|], 1, true, FlushCheck(Buffered), FlushWait(Buffered), FlushCheck(Buffered));
    pcs := pcs[1 := FlushWait(Buffered)];
    states, choices := Extend(states, choices, FLUSHER, Flushing(true, pcs, FlushWait(Buffered)));
  }

  lemma ItemWanted() returns (states: seq<State>, choices: seq<Choice>, pcs: map<Thread, Pc>)
    ensures Run(states, choices) && |states| == |choices| + 1
    ensures states[|choices|] == Flushing(true, pcs, UpItem(Buffered)) && 1 in pcs && pcs[1] == UpItem(Buffered)
            && 2 !in pcs
  {
    states, choices, pcs := FirstFlush();
    hide Run, Goes;
    FlusherStep(states[|choices|], 1, true, FlushWait(Buffered), FlushLocked(Buffered), FlushWait(Buffered));
    pcs := pcs[1 := FlushLocked(Buffered)];
    states, choices := Extend(states, choices, FLUSHER, Flushing(true, pcs, FlushLocked(Buffered)));
    FlusherStep(states[|choices|], 1, true, FlushLocked(Buffered), UpItem(Buffered), FlushLocked(Buffered));
    pcs := pcs[1 := UpItem(Buffered)];
    states, choices := Extend(states, choices, FLUSHER, Flushing(true, pcs, UpItem(Buffered)));
  }

  lemma ClearsDirty() returns (states: seq<State>, choices: seq<Choice>, pcs: map<Thread, Pc>)
    ensures Run(states, choices) && |states| == |choices| + 1
    ensures states[|choices|] == Flushing(false, pcs, UpClean(Buffered)) && 1 in pcs && pcs[1] == UpClean(Buffered)
            && 2 !in pcs
  {
    states, choices, pcs := ItemWanted();
    hide Run, Goes;
    FlusherStep(states[|choices|], 1, true, UpItem(Buffered), UpHeld(Buffered), UpItem(Buffered));
    pcs := pcs[1 := UpHeld(Buffered)];
    states, choices := Extend(states, choices, FLUSHER, Flushing(true, pcs, UpHeld(Buffered)));
    FlusherStep(states[|choices|], 1, false, UpHeld(Buffered), UpClean(Buffered), UpHeld(Buffered));
    pcs := pcs[1 := UpClean(Buffered)];
    states, choices := Extend(states, choices, FLUSHER, Flushing(false, pcs, UpClean(Buffered)));
  }

  /** While one flush is uploading, another finds the segment clean and returns, although the container
      does not have the byte yet. */
  lemma {:induction false} SkippedFlush() returns (states: seq<State>, choices: seq<Choice>)
    ensures Run(states, choices) && |states| == |choices| + 1 && |choices| > 0
    ensures var s, s' := states[|choices| - 1], states[|choices|];
            && s.At(2) == FlushCheck(Buffered) && !s.dirty && !s.lost && s'.At(2) == Idle
            && s'.Remote() == [0] && Contents(s') == [5]
  {
    var pcs;
    states, choices, pcs := ClearsDirty();
    hide Run, Goes;
    FlusherStep(states[|choices|], 2, false, Idle, FlushCheck(Buffered), UpClean(Buffered));
    pcs := pcs[2 := FlushCheck(Buffered)];
    states, choices := Extend(states, choices, LATE, Flushing(false, pcs, UpClean(Buffered)));
    FlusherStep(states[|choices|], 2, false, FlushCheck(Buffered), Idle, UpClean(Buffered));
    states, choices := Extend(states, choices, LATE, Flushing(false, pcs[2 := Idle], UpClean(Buffered)));
    assert Zeros(1) == [0] && Overwrite([0], 0, [5]) == [5];
    ReplayLog([0], [], Wrote(0, [5]));
    assert [] + [Wrote(0, [5])] == [Wrote(0, [5])];
  }
}
