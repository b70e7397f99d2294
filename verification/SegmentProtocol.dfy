/** One cached segment under every interleaving of readers, writers, flushes and evictions.
    Each step below is one lock operation or one access to shared state of segment.go. */
module SegmentProtocol {
  import opened Bytes
  import opened Options

  type Thread = nat

  /** Buffered flushes release `fileMu` before the upload; streamed ones and evictions do not. */
  datatype Upload = Buffered | Streamed | Evict

  datatype Op =
    | Read(pos: nat, count: nat)
    | Write(pos: nat, data: seq<Byte>)
    | Flush(kind: Upload)
    | Delete

  /** What a request that is about to return has done: logged event `at`, or nothing. */
  datatype Outcome = Nothing | Served(op: Op, at: nat)

  /** Where a thread stands. R, W, r, w: `fileMu` read or write held, `itemMu` read or write held. */
  datatype Pc =
    | Idle
    | ReadTry(op: Op) | ReadLocked(op: Op) /* R */ | ReadDone(op: Op, at: nat) /* R */
    | ZeroTry(op: Op) | ZeroLocked(op: Op) /* R */ | ZeroUnlock(op: Op, present: bool, at: nat) /* R */
    | LoadWait(op: Op) | LoadLocked(op: Op) /* W */ | LoadItem(op: Op) /* W */ | LoadItemHeld(op: Op) /* W r */
    | LoadDownloaded(op: Op) /* W r */ | LoadItemUnlock(op: Op) /* W r */
    | LoadCreate(op: Op) /* W */ | LoadCreated(op: Op) /* W */ | LoadEmpty(op: Op) /* W */
    | LoadReady(op: Op) /* W */ | MarkDirty(op: Op, at: nat) /* W */ | FileUnlock(out: Outcome) /* W */
    | FlushCheck(kind: Upload) | FlushWait(kind: Upload) | FlushLocked(kind: Upload) /* R */
    | UpItem(kind: Upload) /* R or W */ | UpHeld(kind: Upload) /* R or W, w */ | UpClean(kind: Upload) /* R or W, w */
    | UpBuffered(bytes: seq<Byte>) /* R w */ | UpPut(kind: Upload, bytes: seq<Byte>) /* w; R or W unless buffered */
    | UpRelease(ok: bool) /* R w */ | UpAssign(kind: Upload, ok: bool) /* w; W when evicting */
    | UpUnlock(kind: Upload, ok: bool) /* w; W when evicting */
    | DeleteWait | DeleteLocked /* W */ | DeleteFile /* W */ | DeleteForget /* W */

  // Which places hold which lock.

  predicate HoldsFileR(pc: Pc) {
    match pc
    case ReadLocked(_) => true
    case ReadDone(_, _) => true
    case ZeroLocked(_) => true
    case ZeroUnlock(_, _, _) => true
    case FlushLocked(_) => true
    case UpItem(kind) => kind != Evict
    case UpHeld(kind) => kind != Evict
    case UpClean(kind) => kind != Evict
    case UpBuffered(_) => true
    case UpPut(kind, _) => kind == Streamed
    case UpRelease(_) => true
    case _ => false
  }

  predicate HoldsFileW(pc: Pc) {
    match pc
    case LoadLocked(_) => true
    case LoadItem(_) => true
    case LoadItemHeld(_) => true
    case LoadDownloaded(_) => true
    case LoadItemUnlock(_) => true
    case LoadCreate(_) => true
    case LoadCreated(_) => true
    case LoadEmpty(_) => true
    case LoadReady(_) => true
    case MarkDirty(_, _) => true
    case FileUnlock(_) => true
    case UpItem(kind) => kind == Evict
    case UpHeld(kind) => kind == Evict
    case UpClean(kind) => kind == Evict
    case UpPut(kind, _) => kind == Evict
    case UpAssign(kind, _) => kind == Evict
    case UpUnlock(kind, _) => kind == Evict
    case DeleteLocked => true
    case DeleteFile => true
    case DeleteForget => true
    case _ => false
  }

  predicate HoldsItemR(pc: Pc) {
    pc.LoadItemHeld? || pc.LoadDownloaded? || pc.LoadItemUnlock?
  }

  predicate HoldsItemW(pc: Pc) {
    pc.UpHeld? || pc.UpClean? || pc.UpBuffered? || pc.UpPut? || pc.UpRelease? || pc.UpAssign? || pc.UpUnlock?
  }

  datatype Event =
    | Wrote(pos: nat, data: seq<Byte>)
    | ReadBack(pos: nat, result: seq<Byte>)

  /** Who stands behind an event: a thread that is about to return, or a request that has returned. */
  datatype Owner = Active(t: Thread) | Returned(j: nat)

  /** `lost`: the segment has stopped showing what was written to it. `answers`: the reads and writes
      that have returned without an error. `owners`: for each event of the history, who stands behind it. */
  datatype State = State(
    size: nat, base: seq<Byte>,
    file: Option<seq<Byte>>, item: bool, stored: seq<Byte>, dirty: bool, backed: bool,
    fileW: Option<Thread>, fileR: set<Thread>, itemW: Option<Thread>, itemR: set<Thread>,
    pcs: map<Thread, Pc>, history: seq<Event>, lost: bool, answers: seq<Outcome>, owners: seq<Owner>)
  {
    function At(t: Thread): Pc {
      if t in pcs then pcs[t] else Idle
    }

    /** Moving to a place takes and gives back the locks that differ. */
    function Goto(t: Thread, pc: Pc): State {
      this.(pcs := pcs[t := pc],
            fileR := if HoldsFileR(pc) then fileR + {t} else fileR - {t},
            itemR := if HoldsItemR(pc) then itemR + {t} else itemR - {t},
            fileW := if HoldsFileW(pc) then Some(t) else if fileW == Some(t) then None else fileW,
            itemW := if HoldsItemW(pc) then Some(t) else if itemW == Some(t) then None else itemW)
    }

    function Remote(): seq<Byte> {
      if item then stored else Zeros(size)
    }

    function Log(e: Event): State {
      this.(history := history + [e])
    }

    /** What the remote item will be once the upload in flight, if any, is over; None: there will be none. */
    function Coming(): Option<seq<Byte>> {
      ItemAt(this, if itemW.Some? then At(itemW.value) else Idle)
    }
  }

  function ItemAt(s: State, uploader: Pc): Option<seq<Byte>> {
    match uploader
    case UpClean(_) => s.file
    case UpBuffered(bytes) => Some(bytes)
    case UpPut(_, bytes) => Some(bytes)
    case UpRelease(done) => if done then Some(s.stored) else None
    case UpAssign(_, done) => if done then Some(s.stored) else None
    case _ => if s.item then Some(s.stored) else None
  }

  predicate InRange(op: Op, size: nat) {
    match op
    case Read(pos, count) => pos + count <= size
    case Write(pos, data) => pos + |data| <= size
    case Flush(kind) => kind != Evict
    case Delete => true
  }

  // ---------------------------------------------------------------- specification

  /** The writes of a history, in order, over the contents the segment began with. */
  function Replay(base: seq<Byte>, h: seq<Event>): (r: seq<Byte>)
    ensures |r| == |base|
  {
    if h == [] then base
    else
      var before := Replay(base, h[..|h| - 1]);
      var e := h[|h| - 1];
      if e.Wrote? && e.pos + |e.data| <= |base| then Overwrite(before, e.pos, e.data) else before
  }

  /** Every read returned the bytes that the writes before it left. */
  ghost predicate Consistent(base: seq<Byte>, h: seq<Event>) {
    forall i :: 0 <= i < |h| && h[i].ReadBack? ==>
      h[i].pos + |h[i].result| <= |base| && h[i].result == Replay(base, h[..i])[h[i].pos..h[i].pos + |h[i].result|]
  }

  // ---------------------------------------------------------------- steps

  predicate Enabled(s: State, t: Thread) {
    match s.At(t)
    case ReadTry(_) => s.fileW.None?
    case ZeroTry(_) => s.fileW.None?
    case FlushWait(_) => s.fileW.None?
    case LoadWait(_) => s.fileW.None? && s.fileR == {}
    case DeleteWait => s.fileW.None? && s.fileR == {}
    case LoadItem(_) => s.itemW.None?
    case UpItem(_) => s.itemW.None? && s.itemR == {}
    case _ => true
  }

  /** Where thread `t` goes next. An idle thread begins `op`; `ok` is false when the quota refuses a
      slot for the local file, or when an upload fails. */
  function Next(s: State, pc: Pc, op: Op, ok: bool): Pc {
    match pc
    case Idle =>
      if !InRange(op, s.size) then Idle
      else (match op
            case Read(_, _) => ReadTry(op)
            case Write(_, data) => if IsZeros(data) then ZeroTry(op) else LoadWait(op)
            case Flush(kind) => FlushCheck(kind)
            case Delete => DeleteWait)
    case ReadTry(r) => ReadLocked(r)
    case ReadLocked(r) => if s.file.Some? then ReadDone(r, |s.history|) else LoadWait(r)
    case ReadDone(_, _) => Idle
    case ZeroTry(w) => ZeroLocked(w)
    case ZeroLocked(w) => ZeroUnlock(w, s.file.Some?, |s.history|)
    case ZeroUnlock(w, present, _) => if present then LoadWait(w) else Idle
    case LoadWait(o) => LoadLocked(o)
    case LoadLocked(o) => if s.file.Some? then LoadReady(o) else LoadItem(o)
    case LoadItem(o) => LoadItemHeld(o)
    case LoadItemHeld(o) =>
      if s.item then (if ok then LoadDownloaded(o) else FileUnlock(Nothing)) else if o.Write? then LoadCreate(o)
        else LoadEmpty(o)
    case LoadDownloaded(o) => LoadItemUnlock(o)
    case LoadItemUnlock(o) => LoadReady(o)
    case LoadCreate(o) => if ok then LoadCreated(o) else FileUnlock(Nothing)
    case LoadCreated(o) => LoadReady(o)
    case LoadEmpty(o) => FileUnlock(Served(o, |s.history|))
    case LoadReady(o) => if o.Write?
      && |o.data| > 0 then MarkDirty(o, |s.history|) else FileUnlock(Served(o, |s.history|))
    case MarkDirty(o, at) => FileUnlock(Served(o, at))
    case FileUnlock(_) => Idle
    case FlushCheck(kind) => if s.dirty then FlushWait(kind) else Idle
    case FlushWait(kind) => FlushLocked(kind)
    case FlushLocked(kind) => if s.file.Some? then UpItem(kind) else Idle
    case UpItem(kind) => UpHeld(kind)
    case UpHeld(kind) => UpClean(kind)
    case UpClean(kind) =>
      var bytes := if s.file.Some? then s.file.value else [];
      if kind == Buffered then UpBuffered(bytes) else UpPut(kind, bytes)
    case UpBuffered(bytes) => UpPut(Buffered, bytes)
    case UpPut(kind, _) => if kind == Streamed then UpRelease(ok) else UpAssign(kind, ok)
    case UpRelease(done) => UpAssign(Streamed, done)
    case UpAssign(kind, done) => UpUnlock(kind, done)
    case UpUnlock(kind, done) => if kind != Evict then Idle else if done then DeleteFile else FileUnlock(Nothing)
    case DeleteWait => DeleteLocked
    case DeleteLocked => if !s.backed then FileUnlock(Nothing) else if s.dirty then UpItem(Evict) else DeleteFile
    case DeleteFile => DeleteForget
    case DeleteForget => FileUnlock(Nothing)
  }

  /** The access to the local file itself. */
  function Serve(s: State, op: Op): State {
    if s.file.None? then s
    else
      match op
      case Read(pos, count) =>
        if pos + count <= |s.file.value| then s.Log(ReadBack(pos, s.file.value[pos..pos + count])) else s
      case Write(pos, data) =>
        if pos + |data| <= |s.file.value| then s.Log(Wrote(pos, data)).(file :=
            Some(Overwrite(s.file.value, pos, data))) else s
      case _ => s
  }

  /** segment.go:114-121: the write is reported done and nothing is stored. */
  function DropZeros(s: State, op: Op): State {
    if op.Write? && op.pos + |op.data| <= |s.base|
    then s.Log(Wrote(op.pos, op.data)).(
           lost := s.lost || !IsZeros(Replay(s.base, s.history)[op.pos..op.pos + |op.data|]))
    else s
  }

  /** The contents are about to be nowhere. */
  function Gone(s: State): State {
    s.(lost := s.lost || !IsZeros(Replay(s.base, s.history)))
  }

  /** What the step does to the shared data. */
  function Effect(s: State, pc: Pc, ok: bool): State {
    match pc
    case ReadLocked(op) => Serve(s, op)
    case ZeroLocked(op) => if s.file.Some? then s else DropZeros(s, op)
    case LoadItemHeld(_) => if s.item && ok then s.(file := Some(s.stored)) else s
    case LoadDownloaded(_) => s.(backed := true)
    case LoadCreate(_) => if ok then s.(file := Some(Zeros(s.size))) else s
    case LoadCreated(_) => s.(backed := true)
    case LoadEmpty(op) => if op.Read? then s.Log(ReadBack(op.pos, Zeros(op.count))) else s
    case LoadReady(op) => Serve(s, op)
    case MarkDirty(_, _) => s.(dirty := true)
    case UpHeld(_) => s.(dirty := false)
    case UpPut(_, bytes) => if ok then s.(stored := bytes) else if s.file.None? then Gone(s) else s
    case UpAssign(_, done) => s.(item := done)
    case DeleteFile => s.(backed := false)
    case DeleteForget => (if s.Coming().None? then Gone(s) else s).(file := None)
    case _ => s
  }

  /** What a request returns with when it leaves this place. */
  function Result(pc: Pc): Outcome {
    match pc
    case ReadDone(op, at) => Served(op, at)
    case ZeroUnlock(op, present, at) => if present then Nothing else Served(op, at)
    case FileUnlock(out) => out
    case _ => Nothing
  }

  /** Bookkeeping: a new event belongs to the thread that logs it, until its request returns. */
  function Record(s: State, e: State, t: Thread): (r: State)
    ensures r == e.(answers := r.answers, owners := r.owners)
  {
    var out := Result(s.At(t));
    if |e.history| > |s.history| then e.(owners := s.owners + [Active(t)])
    else if out.Served? && out.at < |s.owners| then
      e.(answers := s.answers + [out], owners := s.owners[out.at := Returned(|s.answers|)])
    else e
  }

  function Exec(s: State, t: Thread, op: Op, ok: bool): State {
    Record(s, Effect(s, s.At(t), ok), t).Goto(t, Next(s, s.At(t), op, ok))
  }

  /** A segment found by loadSegments: nothing local, its contents those of the stored object, if any. */
  predicate Init(s: State) {
    && s.file.None? && !s.dirty && !s.backed && s.fileW.None? && s.fileR == {} && s.itemW.None? && s.itemR == {}
    && s.pcs == map[] && s.history == [] && !s.lost && s.answers == [] && s.owners == []
    && (s.item ==> |s.stored| == s.size) && s.base == s.Remote()
  }

  datatype Choice = Choice(t: Thread, op: Op, ok: bool)

  ghost predicate Run(states: seq<State>, choices: seq<Choice>) {
    && |states| == |choices| + 1 && Init(states[0])
    && forall i :: 0 <= i < |choices| ==>
         Enabled(states[i], choices[i].t)
           && states[i + 1] == Exec(states[i], choices[i].t, choices[i].op, choices[i].ok)
  }

  // ---------------------------------------------------------------- invariant

  ghost predicate LocksOf(s: State, t: Thread) {
    && (t in s.fileR <==> HoldsFileR(s.At(t))) && (s.fileW == Some(t) <==> HoldsFileW(s.At(t)))
    && (t in s.itemR <==> HoldsItemR(s.At(t))) && (s.itemW == Some(t) <==> HoldsItemW(s.At(t)))
  }

  /** The locks are held by the threads that stand where they are held, and exclude each other. */
  ghost predicate LocksHeld(s: State) {
    && (forall t: Thread :: LocksOf(s, t))
    && (s.fileW.Some? ==> s.fileR == {}) && (s.itemW.Some? ==> s.itemR == {})
  }

  predicate OpOf(pc: Pc, size: nat) {
    match pc
    case ReadTry(op) => op.Read? && InRange(op, size)
    case ReadLocked(op) => op.Read? && InRange(op, size)
    case ZeroTry(op) => op.Write? && InRange(op, size) && IsZeros(op.data)
    case ZeroLocked(op) => op.Write? && InRange(op, size) && IsZeros(op.data)
    case ReadDone(op, _) => op.Read? && InRange(op, size)
    case ZeroUnlock(op, _, _) => op.Write? && InRange(op, size)
    case LoadWait(op) => (op.Read? || op.Write?) && InRange(op, size)
    case LoadLocked(op) => (op.Read? || op.Write?) && InRange(op, size)
    case LoadItem(op) => (op.Read? || op.Write?) && InRange(op, size)
    case LoadItemHeld(op) => (op.Read? || op.Write?) && InRange(op, size)
    case LoadDownloaded(op) => (op.Read? || op.Write?) && InRange(op, size)
    case LoadItemUnlock(op) => (op.Read? || op.Write?) && InRange(op, size)
    case LoadCreate(op) => op.Write? && InRange(op, size)
    case LoadCreated(op) => op.Write? && InRange(op, size)
    case LoadEmpty(op) => op.Read? && InRange(op, size)
    case LoadReady(op) => (op.Read? || op.Write?) && InRange(op, size)
    case MarkDirty(op, _) => op.Write? && InRange(op, size)
    case FileUnlock(out) => out.Served? ==> (out.op.Read? || out.op.Write?) && InRange(out.op, size)
    case FlushCheck(kind) => kind != Evict
    case FlushWait(kind) => kind != Evict
    case FlushLocked(kind) => kind != Evict
    case _ => true
  }

  /** The contents every client agrees on. */
  ghost function Contents(s: State): (c: seq<Byte>)
    ensures |c| == |s.base|
  {
    Replay(s.base, s.history)
  }

  /** The remote item `item` will do for a segment without a local file; with one, it must not be stale. */
  ghost predicate Covers(item: Option<seq<Byte>>, hasFile: bool, contents: seq<Byte>) {
    match item
    case Some(bytes) => bytes == contents
    case None => hasFile || IsZeros(contents)
  }

  /** What the segment shows: its file, else the remote item that is or will be there, else zeros. */
  ghost function Shown(s: State): seq<Byte> {
    if s.file.Some? then s.file.value else if s.Coming().Some? then s.Coming().value else Zeros(s.size)
  }

  /** What a thread knows at its place, thanks to the locks it holds. */
  ghost predicate Knows(s: State, pc: Pc) {
    match pc
    case LoadItem(_) => s.file.None?
    case LoadItemHeld(_) => s.file.None?
    case LoadCreate(_) => s.file.None? && Contents(s) == Zeros(s.size)
    case LoadEmpty(_) => s.file.None? && Contents(s) == Zeros(s.size)
    case LoadDownloaded(_) => s.file.Some?
    case LoadItemUnlock(_) => s.file.Some?
    case LoadCreated(_) => s.file.Some?
    case LoadReady(_) => s.file.Some?
    case MarkDirty(_, _) => s.file.Some?
    case UpItem(_) => s.file.Some?
    case UpHeld(_) => s.file.Some?
    case UpClean(kind) => s.file.Some? && !s.dirty
    case UpBuffered(bytes) => s.file.Some? && !s.dirty && bytes == Contents(s)
    case UpPut(kind, bytes) =>
      |bytes| == s.size && (kind != Buffered ==> s.file.Some? && !s.dirty && bytes == Contents(s))
    case UpRelease(done) => s.file.Some? && !s.dirty && (done ==> |s.stored| == s.size && s.stored == Contents(s))
    case UpAssign(kind, done) =>
      (done ==> |s.stored| == s.size)
        && (kind == Evict ==> s.file.Some? && !s.dirty && (done ==> s.stored == Contents(s)))
    case UpUnlock(kind, done) =>
      s.item == done && (kind == Evict ==> s.file.Some? && !s.dirty && (done ==> s.stored == Contents(s)))
    case DeleteFile => s.file.Some? && !s.dirty
    case DeleteForget => s.file.Some? && !s.dirty && !s.backed
    case _ => true
  }

  /** The heart of the protocol: the local file is the contents; without one the container has them or
      is about to, unless they are zeros; with a clean one the container has them, or no item at all. */
  ghost predicate Agreement(s: State) {
    && (s.item ==> |s.stored| == s.size)
    && (s.file.Some? ==> s.file.value == Contents(s))
    && (Settled(s) ==> Covers(s.Coming(), s.file.Some?, Contents(s)))
    && (s.backed ==> s.file.Some?)
  }

  /** No local change waits to be uploaded. */
  ghost predicate Settled(s: State) {
    s.file.None? || (!s.dirty && (s.fileW.Some? ==> !s.At(s.fileW.value).MarkDirty?))
  }

  ghost predicate Inv(s: State) {
    && LocksHeld(s)
    && (forall t: Thread :: OpOf(s.At(t), s.size))
    && |s.base| == s.size
    && (!s.lost ==> Agreement(s) && (forall t: Thread :: Knows(s, s.At(t))) && Consistent(s.base, s.history))
  }

  // ---------------------------------------------------------------- every step keeps the invariant

  /** The locks of the next place are held already or free. */
  ghost predicate Free(s: State, t: Thread, pc: Pc) {
    && (HoldsFileW(pc) ==> s.fileW == Some(t) || (s.fileW.None? && s.fileR == {}))
    && (HoldsFileR(pc) ==> t in s.fileR || s.fileW.None?)
    && (HoldsItemW(pc) ==> s.itemW == Some(t) || (s.itemW.None? && s.itemR == {}))
    && (HoldsItemR(pc) ==> t in s.itemR || s.itemW.None?)
    && !(HoldsFileR(pc) && HoldsFileW(pc)) && !(HoldsItemR(pc) && HoldsItemW(pc))
  }

  lemma WaitsForLocks(s: State, t: Thread, op: Op, ok: bool)
    requires LocksOf(s, t) && Enabled(s, t) && OpOf(s.At(t), s.size)
    ensures Free(s, t, Next(s, s.At(t), op, ok))
  {}

  lemma OpsKept(s: State, pc: Pc, op: Op, ok: bool)
    requires OpOf(pc, s.size)
    ensures OpOf(Next(s, pc, op, ok), s.size)
  {}

  lemma MoveKeepsLocks(s: State, t: Thread, pc: Pc)
    requires LocksHeld(s) && Free(s, t, pc)
    ensures LocksHeld(s.Goto(t, pc))
  {
    hide HoldsFileR, HoldsFileW, HoldsItemR, HoldsItemW;
    var s' := s.Goto(t, pc);
    assert LocksOf(s, t);
    forall u: Thread ensures LocksOf(s', u) {
      assert LocksOf(s, u);
    }
  }

  lemma ReplayLog(base: seq<Byte>, h: seq<Event>, e: Event)
    ensures Replay(base, h + [e]) ==
            if e.Wrote? && e.pos + |e.data| <= |base| then Overwrite(Replay(base, h), e.pos, e.data)
              else Replay(base, h)
  {
    assert (h + [e])[..|h|] == h;
  }

  lemma ServeContents(s: State, op: Op)
    requires InRange(op, s.size) && |s.base| == s.size && (s.file.Some? ==> s.file.value == Contents(s))
    ensures var e := Serve(s, op);
            && Contents(e) == (if op.Write? && s.file.Some? then Overwrite(Contents(s), op.pos, op.data)
               else Contents(s))
            && e == s.(file := e.file, history := e.history)
            && e.file == (if op.Write? && s.file.Some? then Some(Contents(e)) else s.file)
  {
    var e := Serve(s, op);
    if e.history != s.history {
      ReplayLog(s.base, s.history, e.history[|s.history|]);
    }
    hide Replay;
  }

  lemma DropContents(s: State, op: Op)
    requires op.Write? && InRange(op, s.size) && |s.base| == s.size && IsZeros(op.data)
    ensures DropZeros(s, op).lost <==> s.lost || Contents(DropZeros(s, op)) != Contents(s)
  {
    ReplayLog(s.base, s.history, Wrote(op.pos, op.data));
    ZerosOverZeros(Contents(s), op.pos, op.data);
    hide Replay;
  }

  /** Only a served write changes the contents. */
  lemma ContentsAfter(s: State, pc: Pc, ok: bool)
    requires OpOf(pc, s.size) && |s.base| == s.size && !Effect(s, pc, ok).lost
    requires s.file.Some? ==> s.file.value == Contents(s)
    ensures Effect(s, pc, ok).size == s.size && Effect(s, pc, ok).base == s.base && !s.lost
    ensures Contents(Effect(s, pc, ok)) ==
            if pc.LoadReady? && pc.op.Write? && s.file.Some? then Overwrite(Contents(s), pc.op.pos, pc.op.data)
              else Contents(s)
  {
    match pc
    case ReadLocked(op) => ServeContents(s, op);
    case LoadReady(op) => ServeContents(s, op);
    case ZeroLocked(op) => DropContents(s, op);
    case LoadEmpty(op) => ReplayLog(s.base, s.history, ReadBack(op.pos, Zeros(op.count)));
    case _ =>
  }

  /** A thread that holds a lock keeps what it knows while others move. */
  lemma OthersKnow(s: State, e: State, t: Thread, u: Thread)
    requires LocksOf(s, t) && LocksOf(s, u) && u != t && Knows(s, s.At(u))
    requires (s.fileW.Some? ==> s.fileR == {}) && (s.itemW.Some? ==> s.itemR == {})
    requires e.size == s.size
    requires s.fileW != Some(t) ==>
               e.file == s.file && Contents(e) == Contents(s) && (e.dirty ==> s.dirty) && e.backed == s.backed
    requires s.itemW != Some(t) ==> e.item == s.item && e.stored == s.stored
    ensures Knows(e, s.At(u))
  {
    hide Contents;
  }

  /** The facts about the moving thread from which its step is judged. The last one is the point of
      the `itemMu.RLock` in loadFile: no upload is in flight, so the container is up to date. */
  ghost predicate Ready(s: State, pc: Pc) {
    && OpOf(pc, s.size) && Knows(s, pc) && |s.base| == s.size && (s.item ==> |s.stored| == s.size)
    && (s.file.Some? ==> s.file.value == Contents(s)) && (s.backed ==> s.file.Some?)
    && (pc.LoadItemHeld? ==> s.Remote() == Contents(s))
  }

  lemma {:induction false} MoverReady(s: State, t: Thread)
    requires Inv(s) && !s.lost
    ensures Ready(s, s.At(t))
  {
    assert LocksOf(s, t) && OpOf(s.At(t), s.size) && Knows(s, s.At(t));
  }

  /** What the moving thread knows at its next place. */
  lemma MoverKnows(s: State, pc: Pc, op: Op, ok: bool)
    requires Ready(s, pc) && !Effect(s, pc, ok).lost
    ensures Knows(Effect(s, pc, ok), Next(s, pc, op, ok))
  {
    hide Contents, Serve, DropZeros, Overwrite, IsZeros, Zeros, Gone, ItemAt, InRange;
    ContentsAfter(s, pc, ok);
    if Loading(pc) {
      LoaderKnows(s, pc, op, ok);
    } else if HoldsItemW(pc) {
      UploaderKnows(s, pc, op, ok);
    }
  }

  predicate Loading(pc: Pc) {
    pc.LoadItem? || HoldsItemR(pc) || pc.LoadCreate? || pc.LoadCreated? || pc.LoadEmpty? || pc.LoadReady?
  }

  lemma LoaderKnows(s: State, pc: Pc, op: Op, ok: bool)
    requires Ready(s, pc) && !Effect(s, pc, ok).lost && Loading(pc)
    requires Contents(Effect(s, pc, ok)) == if pc.LoadReady? && pc.op.Write?
             && s.file.Some? then Overwrite(Contents(s), pc.op.pos, pc.op.data) else Contents(s)
    ensures Knows(Effect(s, pc, ok), Next(s, pc, op, ok))
  {
    hide Contents, DropZeros, Overwrite, IsZeros, Zeros, InRange;
  }

  lemma UploaderKnows(s: State, pc: Pc, op: Op, ok: bool)
    requires Ready(s, pc) && !Effect(s, pc, ok).lost && HoldsItemW(pc) && Contents(Effect(s, pc, ok)) == Contents(s)
    ensures Knows(Effect(s, pc, ok), Next(s, pc, op, ok))
  {
    hide Contents, Serve, DropZeros, Overwrite, IsZeros, Zeros, InRange;
  }

  /** The local file, the sizes and the backed flag. */
  lemma FileKept(s: State, pc: Pc, ok: bool)
    requires Ready(s, pc) && !Effect(s, pc, ok).lost
    ensures var e := Effect(s, pc, ok);
            && (e.item ==> |e.stored| == e.size)
            && (e.file.Some? ==> e.file.value == Contents(e))
            && (e.backed ==> e.file.Some?)
  {
    ContentsAfter(s, pc, ok);
    if pc.ReadLocked? || pc.LoadReady? {
      ServeContents(s, pc.op);
    }
    hide Contents, Serve;
  }

  /** Data changes only under the lock that guards it. */
  lemma EffectFrame(s: State, pc: Pc, ok: bool)
    requires Ready(s, pc) && !Effect(s, pc, ok).lost
    ensures var e := Effect(s, pc, ok);
            && e.size == s.size && e.base == s.base && !s.lost
            && (!HoldsFileW(pc) ==>
                  e.file == s.file && Contents(e) == Contents(s) && (e.dirty ==> s.dirty) && e.backed == s.backed)
            && (!HoldsItemW(pc) ==> e.item == s.item && e.stored == s.stored)
            && (!HoldsFileW(pc) && !HoldsFileR(pc) ==> e.dirty == s.dirty)
            && e.pcs == s.pcs && e.fileR == s.fileR && e.fileW == s.fileW && e.itemR == s.itemR && e.itemW == s.itemW
  {
    ContentsAfter(s, pc, ok);
    if pc.ReadLocked? || pc.LoadReady? {
      ServeContents(s, pc.op);
    }
    hide Contents, Serve;
  }

  /** The place of the upload in flight: another thread's, if that one holds `itemMu`, or the mover's. */
  ghost function Uploader(other: Pc, mover: Pc): Pc {
    if !other.Idle? then other else if HoldsItemW(mover) then mover else Idle
  }

  ghost predicate SettledFor(s: State, otherMarks: bool, mover: Pc) {
    s.file.None? || (!s.dirty && !otherMarks && !mover.MarkDirty?)
  }

  lemma NothingOverwritten(c: seq<Byte>, pos: nat)
    requires pos <= |c|
    ensures Overwrite(c, pos, []) == c
  {}

  /** A step outside an upload that ends settled began settled and changed no contents. */
  lemma SettledBefore(s: State, pc: Pc, otherMarks: bool, op: Op, ok: bool)
    requires Ready(s, pc) && !Effect(s, pc, ok).lost && !HoldsItemW(pc)
    requires otherMarks ==> s.file.Some? && !HoldsFileW(pc)
    requires SettledFor(Effect(s, pc, ok), otherMarks, Next(s, pc, op, ok))
    ensures SettledFor(s, otherMarks, pc) && Contents(Effect(s, pc, ok)) == Contents(s)
  {
    hide Contents, Serve, DropZeros, Overwrite, IsZeros, Zeros;
    ContentsAfter(s, pc, ok);
    if pc.ReadLocked? || pc.LoadReady? {
      ServeContents(s, pc.op);
      if pc.op.Write? && pc.op.data == [] {
        NothingOverwritten(Contents(s), pc.op.pos);
      }
    } else if Loading(pc) {
    } else {
      hide OpOf;
    }
  }

  /** The mover holds `itemMu` for its upload. */
  lemma OwnUploadKept(s: State, pc: Pc, otherMarks: bool, op: Op, ok: bool)
    requires Ready(s, pc) && !Effect(s, pc, ok).lost && HoldsItemW(pc)
    requires otherMarks ==> s.file.Some? && !HoldsFileR(pc) && !HoldsFileW(pc)
    requires SettledFor(s, otherMarks, pc) ==> Covers(ItemAt(s, pc), s.file.Some?, Contents(s))
    ensures var e, next := Effect(s, pc, ok), Next(s, pc, op, ok);
            SettledFor(e, otherMarks, next) ==> Covers(ItemAt(e, Uploader(Idle, next)), e.file.Some?, Contents(e))
  {
    hide Contents, Serve, DropZeros, Overwrite, IsZeros, Zeros, InRange, OpOf;
    ContentsAfter(s, pc, ok);
    GoneMeans(s, pc, ok);
  }

  /** Another thread is uploading, or nobody is, while the mover moves. */
  lemma OtherUploadKept(s: State, pc: Pc, other: Pc, otherMarks: bool, op: Op, ok: bool)
    requires Ready(s, pc) && !Effect(s, pc, ok).lost && !HoldsItemW(pc) && s.Coming() == ItemAt(s, other)
    requires !other.Idle? ==> HoldsItemW(other) && !HoldsItemW(Next(s, pc, op, ok))
    requires HoldsFileR(other) || HoldsFileW(other) ==> !HoldsFileW(pc)
    requires otherMarks ==> s.file.Some? && !HoldsFileR(pc) && !HoldsFileW(pc)
    requires SettledFor(s, otherMarks, pc) ==> Covers(ItemAt(s, other), s.file.Some?, Contents(s))
    ensures var e, next := Effect(s, pc, ok), Next(s, pc, op, ok);
            SettledFor(e, otherMarks, next) ==> Covers(ItemAt(e, Uploader(other, next)), e.file.Some?, Contents(e))
  {
    GoneMeans(s, pc, ok);
    FileStays(s, pc, ok);
    hide Contents, Effect, Next, OpOf, Knows, IsZeros;
    var e, next := Effect(s, pc, ok), Next(s, pc, op, ok);
    if SettledFor(e, otherMarks, next) {
      SettledBefore(s, pc, otherMarks, op, ok);
      EffectFrame(s, pc, ok);
      FirstItemPlace(s, pc, op, ok);
    }
  }

  /** A step that leaves the contents nowhere is a loss, unless they are zeros. */
  lemma GoneMeans(s: State, pc: Pc, ok: bool)
    requires !Effect(s, pc, ok).lost
    ensures pc.UpPut? && !ok && s.file.None? ==> IsZeros(Contents(s))
    ensures pc.DeleteForget? && s.Coming().None? ==> IsZeros(Contents(s))
  {
    hide Replay, Serve, DropZeros, IsZeros;
  }

  lemma FileStays(s: State, pc: Pc, ok: bool)
    ensures !pc.DeleteForget? && s.file.Some? ==> Effect(s, pc, ok).file.Some?
  {
    hide DropZeros, Gone;
  }

  /** `itemMu` is taken before anything is changed. */
  lemma FirstItemPlace(s: State, pc: Pc, op: Op, ok: bool)
    requires !HoldsItemW(pc)
    ensures HoldsItemW(Next(s, pc, op, ok)) ==> Next(s, pc, op, ok).UpHeld?
  {}

  lemma ConsistentLog(base: seq<Byte>, h: seq<Event>, e: Event)
    requires Consistent(base, h)
    requires e.ReadBack? ==> e.pos + |e.result| <= |base| && e.result == Replay(base, h)[e.pos..e.pos + |e.result|]
    ensures Consistent(base, h + [e])
  {
    hide Replay;
    var h' := h + [e];
    forall i | 0 <= i < |h'| && h'[i].ReadBack?
      ensures h'[i].pos + |h'[i].result| <= |base|
              && h'[i].result == Replay(base, h'[..i])[h'[i].pos..h'[i].pos + |h'[i].result|]
    {
      assert h'[..i] == h[..i];
      assert i < |h| ==> h'[i] == h[i];
    }
  }

  /** Every read that a step completes returns the contents. */
  lemma ReadsKept(s: State, pc: Pc, ok: bool)
    requires Ready(s, pc) && !Effect(s, pc, ok).lost && Consistent(s.base, s.history)
    ensures Consistent(s.base, Effect(s, pc, ok).history)
  {
    hide Replay, Consistent;
    match pc
    case ReadLocked(op) => ServeConsistent(s, op);
    case LoadReady(op) => ServeConsistent(s, op);
    case ZeroLocked(op) => ConsistentLog(s.base, s.history, Wrote(op.pos, op.data));
    case LoadEmpty(op) =>
      assert Contents(s)[op.pos..op.pos + op.count] == Zeros(op.count);
      ConsistentLog(s.base, s.history, ReadBack(op.pos, Zeros(op.count)));
    case _ =>
  }

  lemma ServeConsistent(s: State, op: Op)
    requires InRange(op, s.size) && |s.base| == s.size && (s.file.Some? ==> s.file.value == Contents(s))
    requires Consistent(s.base, s.history)
    ensures Consistent(s.base, Serve(s, op).history)
  {
    hide Replay, Consistent;
    if s.file.Some? && op.Read? {
      ConsistentLog(s.base, s.history, ReadBack(op.pos, s.file.value[op.pos..op.pos + op.count]));
    } else if s.file.Some? && op.Write? {
      ConsistentLog(s.base, s.history, Wrote(op.pos, op.data));
    }
  }

  lemma EffectStructure(s: State, pc: Pc, ok: bool)
    ensures var e := Effect(s, pc, ok);
            && e.pcs == s.pcs && e.fileR == s.fileR && e.fileW == s.fileW && e.itemR == s.itemR && e.itemW == s.itemW
            && e.size == s.size && e.base == s.base && (s.lost ==> e.lost) && e.answers == s.answers
               && e.owners == s.owners
  {
    hide Serve, DropZeros, Zeros;
    if pc.ReadLocked? || pc.LoadReady? {
      ServeStructure(s, pc.op);
    } else if pc.ZeroLocked? {
      DropStructure(s, pc.op);
    } else if Loading(pc) {
    } else if HoldsItemW(pc) {
    }
  }

  lemma ServeStructure(s: State, op: Op)
    ensures Serve(s, op) == s.(file := Serve(s, op).file, history := Serve(s, op).history)
  {}

  lemma DropStructure(s: State, op: Op)
    ensures DropZeros(s, op) == s.(history := DropZeros(s, op).history, lost := DropZeros(s, op).lost)
    ensures s.lost ==> DropZeros(s, op).lost
  {
    hide Replay;
  }

  /** The knowledge of every thread after a step of `t`. */
  lemma KnowledgeKept(s: State, t: Thread, op: Op, ok: bool)
    requires Inv(s) && !Exec(s, t, op, ok).lost
    ensures forall u: Thread :: Knows(Exec(s, t, op, ok), Exec(s, t, op, ok).At(u))
  {
    hide Record, Next, Knows, Ready, Effect, Contents;
    var pc := s.At(t);
    var e, s' := Effect(s, pc, ok), Exec(s, t, op, ok);
    EffectStructure(s, pc, ok);
    MoverReady(s, t);
    EffectFrame(s, pc, ok);
    MoverKnows(s, pc, op, ok);
    forall u: Thread ensures Knows(s', s'.At(u)) {
      assert LocksOf(s, t) && LocksOf(s, u);
      if u != t {
        OthersKnow(s, e, t, u);
      }
      KnowsIsAboutData(e, s', s'.At(u));
    }
  }

  lemma KnowsIsAboutData(a: State, b: State, pc: Pc)
    requires a.size == b.size && a.base == b.base && a.file == b.file && a.item == b.item && a.stored == b.stored
    requires a.dirty == b.dirty && a.backed == b.backed && a.history == b.history
    ensures Knows(a, pc) <==> Knows(b, pc)
    ensures ItemAt(a, pc) == ItemAt(b, pc) && Contents(a) == Contents(b)
    ensures pc.MarkDirty? && Knows(a, pc) ==> a.file.Some?
  {}

  /** The settled contents after a step of `t`. */
  lemma SettledKept(s: State, t: Thread, op: Op, ok: bool)
    requires Inv(s) && Enabled(s, t) && !Exec(s, t, op, ok).lost
    ensures var s' := Exec(s, t, op, ok); Settled(s') ==> Covers(s'.Coming(), s'.file.Some?, Contents(s'))
  {
    hide Effect, Next, Contents, ItemAt, Knows, OpOf, Enabled, Ready, Consistent, Record, Covers;
    var pc, next := s.At(t), Next(s, s.At(t), op, ok);
    var e, s' := Effect(s, pc, ok), Exec(s, t, op, ok);
    EffectStructure(s, pc, ok);
    MoverReady(s, t);
    assert LocksOf(s, t) && OpOf(pc, s.size);
    WaitsForLocks(s, t, op, ok);
    var other := if s.itemW.Some? && s.itemW.value != t then s.At(s.itemW.value) else Idle;
    var marks := s.fileW.Some? && s.fileW.value != t && s.At(s.fileW.value).MarkDirty?;
    if s.itemW.Some? {
      assert LocksOf(s, s.itemW.value);
    }
    if s.fileW.Some? {
      assert LocksOf(s, s.fileW.value) && Knows(s, s.At(s.fileW.value));
      KnowsIsAboutData(s, s, s.At(s.fileW.value));
    }
    KnowsIsAboutData(e, s', Uploader(other, next));
    if HoldsItemW(pc) {
      OwnUploadKept(s, pc, marks, op, ok);
    } else {
      OtherUploadKept(s, pc, other, marks, op, ok);
    }
  }

  /** Every step of every thread keeps the invariant. */
  lemma {:induction false} StepKeepsInv(s: State, t: Thread, op: Op, ok: bool)
    requires Inv(s) && Enabled(s, t)
    ensures Inv(Exec(s, t, op, ok))
  {
    hide Record, ItemAt, Effect, Next, Contents, Covers, Knows, OpOf, Consistent, HoldsFileR, HoldsFileW, HoldsItemR,
         HoldsItemW;
    var pc, next := s.At(t), Next(s, s.At(t), op, ok);
    var e, s' := Effect(s, pc, ok), Exec(s, t, op, ok);
    var noted := Record(s, e, t);
    EffectStructure(s, pc, ok);
    assert LocksOf(s, t) && OpOf(pc, s.size);
    WaitsForLocks(s, t, op, ok);
    hide Enabled;
    forall u: Thread ensures LocksOf(noted, u) {
      assert LocksOf(s, u);
    }
    MoveKeepsLocks(noted, t, next);
    OpsKept(s, pc, op, ok);
    forall u: Thread ensures OpOf(s'.At(u), s'.size) {
      assert OpOf(s.At(u), s.size);
    }
    if !s'.lost {
      MoverReady(s, t);
      FileKept(s, pc, ok);
      KnowledgeKept(s, t, op, ok);
      SettledKept(s, t, op, ok);
      ReadsKept(s, pc, ok);
      KnowsIsAboutData(e, s', Idle);
    }
    hide LocksHeld, LocksOf;
  }

  // ---------------------------------------------------------------- results

  lemma InitInv(s: State)
    requires Init(s)
    ensures Inv(s)
  {}

  lemma {:induction false} RunInv(states: seq<State>, choices: seq<Choice>, i: nat)
    requires Run(states, choices) && i < |states|
    ensures Inv(states[i])
  {
    hide Inv, Exec, Enabled;
    if i == 0 {
      InitInv(states[0]);
    } else {
      RunInv(states, choices, i - 1);
      var c := choices[i - 1];
      assert Enabled(states[i - 1], c.t) && states[i - 1 + 1] == Exec(states[i - 1], c.t, c.op, c.ok);
      StepKeepsInv(states[i - 1], c.t, c.op, c.ok);
    }
  }

  /** In every interleaving, failed uploads and evictions in the middle of an upload included, every read
      returned exactly what the completed writes left, as long as nothing has been lost. */
  lemma {:induction false} ReadsReturnLastWrites(states: seq<State>, choices: seq<Choice>, i: nat)
    requires Run(states, choices) && i < |states| && !states[i].lost
    ensures Consistent(states[i].base, states[i].history)
  {
    RunInv(states, choices, i);
  }

  /** While nothing has been lost, the segment shows its contents. */
  lemma ShowsContents(s: State)
    requires Inv(s) && !s.lost
    ensures Shown(s) == Contents(s)
  {
    assert IsZeros(Contents(s)) ==> Contents(s) == Zeros(s.size);
  }

  /** The steps that lose data: zeros dropped over data; a clean file forgotten when its last upload has
      failed; an upload that fails when its file is gone already. */
  ghost predicate Loses(s: State, pc: Pc, ok: bool) {
    || (pc.ZeroLocked? && s.file.None? && pc.op.Write? && pc.op.pos + |pc.op.data| <= |Contents(s)|
        && !IsZeros(Contents(s)[pc.op.pos..pc.op.pos + |pc.op.data|]))
    || (pc.DeleteForget? && s.Coming().None? && !IsZeros(Contents(s)))
    || (pc.UpPut? && !ok && s.file.None? && !IsZeros(Contents(s)))
  }

  lemma LosesMeans(s: State, pc: Pc, ok: bool)
    requires OpOf(pc, s.size) && |s.base| == s.size && !s.lost
    ensures Effect(s, pc, ok).lost <==> Loses(s, pc, ok)
  {
    hide Replay, IsZeros, ItemAt;
  }

  /** Data is lost in exactly these steps, and lost for good: the segment then shows something else than
      was written to it. */
  lemma {:induction false} LostExactlyWhen(states: seq<State>, choices: seq<Choice>, i: nat)
    requires Run(states, choices) && i < |choices| && !states[i].lost
    ensures states[i + 1].lost <==> Loses(states[i], states[i].At(choices[i].t), choices[i].ok)
    ensures states[i + 1].lost <==> Shown(states[i + 1]) != Contents(states[i + 1])
  {
    RunInv(states, choices, i);
    RunInv(states, choices, i + 1);
    var s, c, s' := states[i], choices[i], states[i + 1];
    assert s' == Exec(s, c.t, c.op, c.ok) && Enabled(s, c.t);
    hide Run;
    LossShows(s, c.t, c.op, c.ok);
    if !s'.lost {
      ShowsContents(s');
    }
  }

  lemma LossShows(s: State, t: Thread, op: Op, ok: bool)
    requires Inv(s) && !s.lost && Enabled(s, t)
    ensures var s' := Exec(s, t, op, ok);
            && (s'.lost <==> Loses(s, s.At(t), ok))
            && (s'.lost ==> Shown(s') != Contents(s'))
  {
    var pc := s.At(t);
    assert OpOf(pc, s.size) && LocksOf(s, t) && Knows(s, pc);
    LosesMeans(s, pc, ok);
    ShowsContents(s);
    var e := Effect(s, pc, ok);
    if e.lost {
      if pc.ZeroLocked? {
        DropContents(s, pc.op);
        LostInPlace(s, t, op, ok);
      } else if pc.DeleteForget? {
        LostInPlace(s, t, op, ok);
      } else {
        LostUpload(s, t, op, ok);
      }
    }
  }

  lemma LostInPlace(s: State, t: Thread, op: Op, ok: bool)
    requires LocksOf(s, t) && (s.At(t).ZeroLocked? || s.At(t).DeleteForget?)
    requires s.At(t).ZeroLocked? ==> s.file.None?
    requires s.At(t).DeleteForget? ==> s.file.Some? && s.Coming().None?
    ensures var s' := Exec(s, t, op, ok);
            s'.file.None? && s'.size == s.size && s'.Coming() == s.Coming()
              && Contents(s') == Contents(Effect(s, s.At(t), ok))
  {
    hide Record, Replay, Effect, Next, HoldsItemW, HoldsItemR, HoldsFileR, HoldsFileW;
    var pc := s.At(t);
    EffectStructure(s, pc, ok);
    InPlace(s, pc, op, ok);
    var s' := Exec(s, t, op, ok);
    assert s'.itemW == s.itemW;
    assert s.itemW.Some? ==> s'.At(s.itemW.value) == s.At(s.itemW.value);
  }

  lemma InPlace(s: State, pc: Pc, op: Op, ok: bool)
    requires (pc.ZeroLocked? && s.file.None?) || pc.DeleteForget?
    ensures var e := Effect(s, pc, ok); e.item == s.item && e.stored == s.stored && e.file.None?
    ensures !HoldsItemW(pc) && !HoldsItemW(Next(s, pc, op, ok))
  {
    hide Replay, IsZeros, ItemAt;
  }

  lemma LostUpload(s: State, t: Thread, op: Op, ok: bool)
    requires s.At(t).UpPut? && !ok && s.file.None?
    ensures var s' := Exec(s, t, op, ok);
            s'.file.None? && s'.size == s.size && s'.Coming().None? && Contents(s') == Contents(s)
  {
    hide Record, Replay, IsZeros;
  }

  /** With no upload in flight and no write about to mark the segment, a clean segment is stored, unless
      its last upload failed and it has data. */
  lemma CleanIsStored(s: State)
    requires Inv(s) && !s.lost && !s.dirty && s.itemW.None? && (s.fileW.Some? ==> !s.At(s.fileW.value).MarkDirty?)
    ensures s.Remote() == Contents(s) <==> s.item || s.file.None? || IsZeros(Contents(s))
  {
    assert IsZeros(Contents(s)) ==> Contents(s) == Zeros(s.size);
  }

  /** When no thread is active and nothing is dirty, the container alone has the contents if and only if
      there is an item, or no local file, or nothing but zeros. */
  lemma {:induction false} QuietAndCleanIsStored(states: seq<State>, choices: seq<Choice>, i: nat)
    requires Run(states, choices) && i < |states| && !states[i].lost
    requires !states[i].dirty && forall t: Thread :: states[i].At(t).Idle?
    ensures var s := states[i]; s.Remote() == Contents(s) <==> s.item || s.file.None? || IsZeros(Contents(s))
  {
    var s := states[i];
    RunInv(states, choices, i);
    assert s.fileW.Some? ==> LocksOf(s, s.fileW.value);
    assert s.itemW.Some? ==> LocksOf(s, s.itemW.value);
    hide Run;
    CleanIsStored(s);
  }

  /** A flush that finds the segment clean may return at once if no upload is in flight: the container has
      the contents, unless the last upload failed. See SkippedFlush for the other case. */
  lemma {:induction false} CleanFlushIsRight(states: seq<State>, choices: seq<Choice>, i: nat, t: Thread)
    requires Run(states, choices) && i < |states| && !states[i].lost
    requires states[i].At(t).FlushCheck? && !states[i].dirty && states[i].itemW.None?
    requires states[i].fileW.Some? ==> !states[i].At(states[i].fileW.value).MarkDirty?
    ensures var s := states[i]; s.Remote() == Contents(s) <==> s.item || s.file.None? || IsZeros(Contents(s))
  {
    RunInv(states, choices, i);
    hide Run;
    CleanIsStored(states[i]);
  }

  /** The two mutexes never deadlock: `itemMu` is taken after `fileMu`, and its holder waits for nothing. */
  lemma {:induction false} SomeThreadCanMove(states: seq<State>, choices: seq<Choice>, i: nat, t: Thread)
    requires Run(states, choices) && i < |states| && !states[i].At(t).Idle?
    ensures exists u: Thread :: !states[i].At(u).Idle? && Enabled(states[i], u)
  {
    var s := states[i];
    RunInv(states, choices, i);
    assert LocksOf(s, t);
    var u :=
      if s.itemW.Some? then s.itemW.value
      else if s.itemR != {} then (var x :| x in s.itemR; x)
      else if s.fileW.Some? then s.fileW.value
      else if s.fileR != {} then (var x :| x in s.fileR; x)
      else t;
    assert LocksOf(s, u);
    assert !s.At(u).Idle? && Enabled(s, u);
  }

  // ---------------------------------------------------------------- one event for each answer

  /** What a thread has logged for the request it is working on. */
  function Logged(pc: Pc): Outcome {
    if pc.MarkDirty? then Served(pc.op, pc.at) else Result(pc)
  }

  predicate Matches(e: Event, op: Op) {
    match op
    case Read(pos, count) => e.ReadBack? && e.pos == pos && |e.result| == count
    case Write(pos, data) => e == Wrote(pos, data)
    case _ => false
  }

  /** Outcome `out` stands behind its event, which is that of its request. */
  ghost predicate Stands(s: State, out: Outcome, owner: Owner)
    requires out.Served?
  {
    out.at < |s.owners| == |s.history| && s.owners[out.at] == owner && Matches(s.history[out.at], out.op)
  }

  /** Events, and the requests that have returned or are about to, correspond one to one. */
  ghost predicate OneEventEach(s: State) {
    && |s.owners| == |s.history|
    && (forall t: Thread :: Logged(s.At(t)).Served? ==> Stands(s, Logged(s.At(t)), Active(t)))
    && (forall j :: 0 <= j < |s.answers| ==> s.answers[j].Served? && Stands(s, s.answers[j], Returned(j)))
    && (forall i :: 0 <= i < |s.owners| ==> OwnerOk(s, i))
  }

  ghost predicate OwnerOk(s: State, i: nat)
    requires i < |s.owners|
  {
    match s.owners[i]
    case Active(t) => Logged(s.At(t)).Served? && Logged(s.At(t)).at == i
    case Returned(j) => j < |s.answers| && s.answers[j].Served? && s.answers[j].at == i
  }

  /** A step logs an event for its request, or returns one, or leaves what has been logged alone. */
  lemma LogStep(s: State, pc: Pc, op: Op, ok: bool)
    requires OpOf(pc, s.size) && |s.base| == s.size && Knows(s, pc) && (s.file.Some? ==> |s.file.value| == s.size)
    ensures var e, next := Effect(s, pc, ok), Next(s, pc, op, ok);
            || (|e.history| == |s.history| + 1 && s.history <= e.history && Logged(pc) == Nothing
               && Logged(next).Served?
                && Logged(next).at == |s.history| && Matches(e.history[|s.history|], Logged(next).op))
            || (e.history == s.history && Result(pc).Served? && Logged(next) == Nothing)
            || (e.history == s.history && Result(pc) == Nothing && Logged(next) == Logged(pc))
  {
    hide Replay, Overwrite, IsZeros, Gone, ItemAt, Contents, Effect, Next;
    if pc.ReadLocked? || pc.LoadReady? || pc.ZeroLocked? || pc.LoadEmpty? {
      ServingStep(s, pc, op, ok);
    } else {
      QuietEffect(s, pc, ok);
      QuietNext(s, pc, op, ok);
    }
  }

  lemma ServingStep(s: State, pc: Pc, op: Op, ok: bool)
    requires OpOf(pc, s.size) && |s.base| == s.size && Knows(s, pc) && (s.file.Some? ==> |s.file.value| == s.size)
    requires pc.ReadLocked? || pc.LoadReady? || pc.ZeroLocked? || pc.LoadEmpty?
    ensures var e, next := Effect(s, pc, ok), Next(s, pc, op, ok);
            Logged(pc) == Nothing && Result(pc) == Nothing &&
            if Logged(next) == Nothing then e.history == s.history
            else |e.history| == |s.history| + 1 && s.history <= e.history
                 && Logged(next).at == |s.history| && Matches(e.history[|s.history|], Logged(next).op)
  {
    hide Serve, DropZeros, Zeros, IsZeros, ItemAt, Contents, Matches;
    match pc
    case LoadEmpty(o) => EmptyLogs(s, o);
    case ZeroLocked(o) => DropLogs(s, o);
    case ReadLocked(o) =>
      if s.file.Some? {
        ServeLogs(s, o);
      } else {
        ServeNothing(s, o);
      }
    case LoadReady(o) => ServeLogs(s, o);
  }

  ghost predicate LogsOne(h: seq<Event>, h': seq<Event>, op: Op) {
    |h'| == |h| + 1 && h <= h' && Matches(h'[|h|], op)
  }

  lemma ServeLogs(s: State, op: Op)
    requires (op.Read? || op.Write?) && InRange(op, s.size) && s.file.Some? && |s.file.value| == s.size
    ensures LogsOne(s.history, Serve(s, op).history, op)
  {
    hide Overwrite;
  }

  lemma ServeNothing(s: State, op: Op)
    requires s.file.None?
    ensures Serve(s, op) == s
  {}

  lemma DropLogs(s: State, op: Op)
    requires op.Write? && InRange(op, s.size) && |s.base| == s.size
    ensures LogsOne(s.history, DropZeros(s, op).history, op)
  {
    hide Replay, IsZeros;
  }

  lemma EmptyLogs(s: State, op: Op)
    requires op.Read?
    ensures LogsOne(s.history, s.Log(ReadBack(op.pos, Zeros(op.count))).history, op)
  {}

  lemma QuietEffect(s: State, pc: Pc, ok: bool)
    requires !(pc.ReadLocked? || pc.LoadReady? || pc.ZeroLocked? || pc.LoadEmpty?)
    ensures Effect(s, pc, ok).history == s.history
  {
    hide Replay, IsZeros, ItemAt, Serve, DropZeros;
    if Loading(pc) {
    } else if HoldsItemW(pc) {
    }
  }

  lemma QuietNext(s: State, pc: Pc, op: Op, ok: bool)
    requires !(pc.ReadLocked? || pc.LoadReady? || pc.ZeroLocked? || pc.LoadEmpty?)
    ensures if Result(pc).Served? then Next(s, pc, op, ok) == Idle else Logged(Next(s, pc, op, ok)) == Logged(pc)
  {
    hide InRange, IsZeros;
    if Loading(pc) || HoldsItemW(pc) {
      SilentPlaces(s, pc, op, ok);
    } else if pc.FlushCheck? || pc.FlushWait? || pc.FlushLocked? || pc.UpItem? {
    } else if pc.DeleteWait? || pc.DeleteLocked? || pc.DeleteFile? || pc.DeleteForget? {
    }
  }

  lemma SilentPlaces(s: State, pc: Pc, op: Op, ok: bool)
    requires (Loading(pc) && !pc.LoadReady? && !pc.LoadEmpty?) || HoldsItemW(pc)
    ensures Logged(pc) == Nothing && Logged(Next(s, pc, op, ok)) == Nothing
  {
    hide InRange, IsZeros;
    if HoldsItemW(pc) {
    } else if HoldsItemR(pc) {
    }
  }

  lemma StepKeepsEvents(s: State, t: Thread, op: Op, ok: bool)
    requires Inv(s) && !s.lost && OneEventEach(s)
    ensures OneEventEach(Exec(s, t, op, ok))
  {
    hide Effect, Next, Result, Logged, OpOf, Contents, Record, Matches, OneEventEach;
    var pc, next := s.At(t), Next(s, s.At(t), op, ok);
    assert OpOf(pc, s.size) && Knows(s, pc);
    hide Knows;
    LogStep(s, pc, op, ok);
    EffectStructure(s, pc, ok);
    hide Inv;
    EventsMove(s, Effect(s, pc, ok), t, next);
  }

  lemma EventsMove(s: State, e: State, t: Thread, next: Pc)
    requires OneEventEach(s) && e.pcs == s.pcs && e.answers == s.answers && e.owners == s.owners
    requires var pc := s.At(t);
             || (|e.history| == |s.history| + 1 && s.history <= e.history && Logged(pc) == Nothing
                && Logged(next).Served?
                 && Logged(next).at == |s.history| && Matches(e.history[|s.history|], Logged(next).op))
             || (e.history == s.history && Result(pc).Served? && Logged(next) == Nothing)
             || (e.history == s.history && Result(pc) == Nothing && Logged(next) == Logged(pc))
    ensures OneEventEach(Record(s, e, t).Goto(t, next))
  {
    hide Matches, HoldsFileR, HoldsFileW, HoldsItemR, HoldsItemW;
    var s' := Record(s, e, t).Goto(t, next);
    var pc := s.At(t);
    assert Result(pc).Served? ==> Logged(pc) == Result(pc);
    hide Result, Logged;
    if Logged(pc).Served? {
      assert Stands(s, Logged(pc), Active(t));
    }
    if |e.history| == |s.history| {
      assert e.history == s.history;
    }
    assert s'.At(t) == next && forall u: Thread :: u != t ==> s'.At(u) == s.At(u);
    assert s'.history == e.history;
    hide Record;
    forall u: Thread | Logged(s'.At(u)).Served? ensures Stands(s', Logged(s'.At(u)), Active(u)) {
      assert Logged(s.At(u)).Served? ==> Stands(s, Logged(s.At(u)), Active(u));
    }
    forall i | 0 <= i < |s'.owners| ensures OwnerOk(s', i) {
      assert i < |s.owners| ==> OwnerOk(s, i);
    }
    forall j | 0 <= j < |s'.answers| ensures s'.answers[j].Served? && Stands(s', s'.answers[j], Returned(j)) {
      assert j < |s.answers| ==> Stands(s, s.answers[j], Returned(j));
    }
  }

  /** Every read and write that returned without an error logged exactly one event, its own, and every
      event belongs to one such request or to a thread that is about to return it. */
  lemma {:induction false} OneEventForEachAnswer(states: seq<State>, choices: seq<Choice>, i: nat)
    requires Run(states, choices) && i < |states| && !states[i].lost
    ensures OneEventEach(states[i])
  {
    if i > 0 {
      var c := choices[i - 1];
      assert Enabled(states[i - 1], c.t) && states[i - 1 + 1] == Exec(states[i - 1], c.t, c.op, c.ok);
      RunInv(states, choices, i - 1);
      NotLostBefore(states[i - 1], c.t, c.op, c.ok);
      OneEventForEachAnswer(states, choices, i - 1);
      hide Run, Inv, Exec, OneEventEach, Enabled;
      StepKeepsEvents(states[i - 1], c.t, c.op, c.ok);
    }
  }

  lemma NotLostBefore(s: State, t: Thread, op: Op, ok: bool)
    ensures s.lost ==> Exec(s, t, op, ok).lost
  {
    EffectStructure(s, s.At(t), ok);
    hide Effect, Next, Record;
  }
}
