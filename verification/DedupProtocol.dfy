/**
 * The dedup disk under concurrent requests: dedupdisk.go:56-178 over fileblkstore.go:50-92, one atomic
 * step for each access to shared state. Any number of readers and writers run in any order; a write to
 * the block file may fail and leave anything behind, and a put into the ID store may be lost.
 */
module DedupProtocol {
  import opened Bytes
  import opened DedupStores

  /** Where a request is. Writers: `Find` to `Wrote`. Readers: `Look` to `Got`. */
  datatype Pc =
    | Find(buf: Block, k: nat)
    | Put(buf: Block, k: nat)
    | Write(buf: Block, k: nat, id: nat)
    | Settle(buf: Block, k: nat, id: nat, ok: bool)
    | Index(buf: Block, k: nat, id: nat)
    | Map(buf: Block, k: nat, id: nat)
    | Wrote(buf: Block, k: nat, at: nat)
    | WriteFailed
    | Look(k: nat)
    | Wait(k: nat, id: nat, at: nat)
    | Fetch(k: nat, id: nat, at: nat)
    | Got(block: Block, k: nat, at: nat)
    | ReadFailed

  /** What the outside can order by: a write reaches the LUN map, a read looks its position up. */
  datatype Event = Mapped(t: nat, buf: Block, k: nat) | Looked(t: nat, k: nat)

  datatype Stores = Stores(file: map<nat, Block>, nextID: nat, pending: set<nat>)

  datatype State = State(size: nat, stores: Stores, db: map<nat, nat>, lun: seq<nat>, threads: seq<Pc>, log: seq<Event>)

  /** What the environment decides: who moves, whether the access works, what a failed write leaves. */
  datatype Choice = Choice(t: nat, ok: bool, junk: Block)

  predicate Finished(pc: Pc) {
    pc.Wrote? || pc.WriteFailed? || pc.Got? || pc.ReadFailed?
  }

  /** Only the reader's wait for a pending block can block: fileblkstore.go:59-61. */
  predicate Ready(s: State, t: nat)
    requires t < |s.threads|
  {
    var pc := s.threads[t];
    !Finished(pc) && (pc.Wait? ==> pc.id == ZERO_BLOCK_ID || pc.id !in s.stores.pending)
  }

  // ---------------------------------------------------------------- one step

  function NextStores(st: Stores, pc: Pc, c: Choice): Stores {
    match pc
    case Put(_, _) => st.(nextID := st.nextID + 1, pending := st.pending + {st.nextID})
    case Write(buf, _, id) => st.(file := st.file[id := if Written(id, c) then buf else c.junk])
    case Settle(_, _, id, _) => st.(pending := st.pending - {id})
    case _ => st
  }

  /** No file offset reaches the ID that stands for the zero block. */
  predicate Written(id: nat, c: Choice) {
    c.ok && id < ZERO_BLOCK_ID
  }

  function NextPc(hash: Block -> nat, s: State, pc: Pc, c: Choice): Pc {
    match pc
    case Find(buf, k) =>
      if IsZeros(buf) then Map(buf, k, ZERO_BLOCK_ID)
      else if hash(buf) in s.db then Map(buf, k, s.db[hash(buf)])
      else Put(buf, k)
    case Put(buf, k) => Write(buf, k, s.stores.nextID)
    case Write(buf, k, id) => Settle(buf, k, id, Written(id, c))
    case Settle(buf, k, id, ok) => if ok then Index(buf, k, id) else WriteFailed
    case Index(buf, k, id) => Map(buf, k, id)
    case Map(buf, k, _) => Wrote(buf, k, |s.log|)
    case Look(k) => if k < |s.lun| then Wait(k, s.lun[k], |s.log|) else ReadFailed
    case Wait(k, id, at) => if id == ZERO_BLOCK_ID then Got(Zeros(s.size), k, at) else Fetch(k, id, at)
    case Fetch(k, id, at) => if id in s.stores.file then Got(s.stores.file[id], k, at) else ReadFailed
    case _ => pc
  }

  function Step(hash: Block -> nat, s: State, c: Choice): State
    requires c.t < |s.threads|
  {
    var pc := s.threads[c.t];
    s.(
      stores := NextStores(s.stores, pc, c),
      db := if pc.Index? && c.ok then s.db[hash(pc.buf) := pc.id] else s.db,
      lun := if pc.Map? && pc.k < |s.lun| then s.lun[pc.k := pc.id] else s.lun,
      threads := s.threads[c.t := NextPc(hash, s, pc, c)],
      log := if pc.Map? then s.log + [Mapped(c.t, pc.buf, pc.k)] else if pc.Look? then s.log + [Looked(c.t, pc.k)]
        else s.log)
  }

  // ---------------------------------------------------------------- runs

  /** A new disk and any requests inside it. */
  ghost predicate Init(s: State) {
    && s.size > 0 && s.stores == Stores(map[], 0, {}) && s.db == map[] && s.log == []
    && (forall k :: 0 <= k < |s.lun| ==> s.lun[k] == ZERO_BLOCK_ID)
    && (forall t :: 0 <= t < |s.threads| ==> Starts(s.threads[t], s.size, |s.lun|))
  }

  predicate Starts(pc: Pc, size: nat, blocks: nat) {
    (pc.Find? && |pc.buf| == size && pc.k < blocks) || (pc.Look? && pc.k < blocks)
  }

  /** The state after the choices, if every one of them could be taken. */
  ghost predicate Run(hash: Block -> nat, s: State, cs: seq<Choice>, s': State)
    decreases |cs|
  {
    if cs == [] then s' == s
    else cs[0].t < |s.threads| && Ready(s, cs[0].t) && Run(hash, Step(hash, s, cs[0]), cs[1..], s')
  }

  // ---------------------------------------------------------------- the flat disk

  /** A plain disk after the logged writes. */
  ghost function Replay(size: nat, blocks: nat, log: seq<Event>): (disk: seq<Block>)
    ensures |disk| == blocks
    decreases |log|
  {
    if log == [] then seq(blocks, _ => Zeros(size))
    else
      var before := Replay(size, blocks, log[..|log| - 1]);
      var e := log[|log| - 1];
      if e.Mapped? && e.k < blocks then before[e.k := e.buf] else before
  }

  /** As far as the hash can tell, the same block. */
  predicate Alike(hash: Block -> nat, a: Block, b: Block) {
    if IsZeros(a) || IsZeros(b) then a == b else hash(a) == hash(b)
  }

  /** Allocated, written and no longer pending. */
  predicate Published(st: Stores, id: nat) {
    id < st.nextID && id in st.file && id !in st.pending
  }

  function Shown(size: nat, st: Stores, id: nat): Block {
    if id == ZERO_BLOCK_ID || id !in st.file then Zeros(size) else st.file[id]
  }

  // ---------------------------------------------------------------- the invariant

  predicate Visible(st: Stores, id: nat) {
    id == ZERO_BLOCK_ID || Published(st, id)
  }

  /** A block that may be stored: whole, not zeros, and written by somebody. */
  ghost predicate Sound(size: nat, blocks: set<Block>, b: Block) {
    |b| == size && !IsZeros(b) && b in blocks
  }

  ghost predicate PcOk(hash: Block -> nat, s: State, blocks: set<Block>, t: nat, pc: Pc) {
    match pc
    case Find(buf, k) => |buf| == s.size && k < |s.lun| && (!IsZeros(buf) ==> buf in blocks)
    case Put(buf, k) => k < |s.lun| && Sound(s.size, blocks, buf)
    case Write(buf, k, id) => k < |s.lun| && Sound(s.size, blocks, buf) && id in s.stores.pending
    case Settle(buf, k, id, ok) =>
      && k < |s.lun| && Sound(s.size, blocks, buf) && id in s.stores.pending
      && id in s.stores.file && (ok ==> s.stores.file[id] == buf && id != ZERO_BLOCK_ID)
    case Index(buf, k, id) =>
      && k < |s.lun| && Sound(s.size, blocks, buf) && id != ZERO_BLOCK_ID
      && Published(s.stores, id) && s.stores.file[id] == buf
    case Map(buf, k, id) =>
      && k < |s.lun| && |buf| == s.size && (!IsZeros(buf) ==> buf in blocks)
      && Visible(s.stores, id) && Alike(hash, Shown(s.size, s.stores, id), buf)
      && (id != ZERO_BLOCK_ID ==> Sound(s.size, blocks, Shown(s.size, s.stores, id)))
    case Look(k) => k < |s.lun|
    case Wait(k, id, at) => ReaderOk(hash, s, blocks, t, k, id, at)
    case Fetch(k, id, at) => ReaderOk(hash, s, blocks, t, k, id, at) && id != ZERO_BLOCK_ID
    case Got(block, k, at) => SeesLog(hash, s, blocks, t, block, k, at)
    case Wrote(buf, k, at) => at < |s.log| && s.log[at] == Mapped(t, buf, k)
    case WriteFailed => true
    case ReadFailed => false
  }

  ghost predicate ReaderOk(hash: Block -> nat, s: State, blocks: set<Block>, t: nat, k: nat, id: nat, at: nat) {
    Visible(s.stores, id) && SeesLog(hash, s, blocks, t, Shown(s.size, s.stores, id), k, at)
  }

  /** The block is what the plain disk held when the position was looked up. */
  ghost predicate SeesLog(hash: Block -> nat, s: State, blocks: set<Block>, t: nat, block: Block, k: nat, at: nat) {
    && k < |s.lun| && at < |s.log| && s.log[at] == Looked(t, k)
    && Alike(hash, block, Replay(s.size, |s.lun|, s.log[..at])[k])
    && (IsZeros(block) || block in blocks)
  }

  predicate Storing(pc: Pc) {
    pc.Write? || pc.Settle?
  }

  /** No two writers store under the same ID. */
  ghost predicate OwnIds(s: State) {
    forall t, u :: 0 <= t < u < |s.threads| && Storing(s.threads[t]) && Storing(s.threads[u]) ==>
        s.threads[t].id != s.threads[u].id
  }

  ghost predicate StoresOk(s: State) {
    forall id :: id in s.stores.pending ==> id < s.stores.nextID
  }

  ghost predicate IndexOk(hash: Block -> nat, s: State, blocks: set<Block>) {
    forall h :: h in s.db ==>
      s.db[h] != ZERO_BLOCK_ID && Published(s.stores, s.db[h]) && hash(s.stores.file[s.db[h]]) == h
        && Sound(s.size, blocks, s.stores.file[s.db[h]])
  }

  /** The LUN map shows the plain disk, and only finished blocks. */
  ghost predicate LunOk(hash: Block -> nat, s: State, blocks: set<Block>) {
    forall k :: 0 <= k < |s.lun| ==> CellOk(hash, s, blocks, k)
  }

  ghost predicate CellOk(hash: Block -> nat, s: State, blocks: set<Block>, k: nat)
    requires k < |s.lun|
  {
    && Visible(s.stores, s.lun[k])
    && Alike(hash, Shown(s.size, s.stores, s.lun[k]), Replay(s.size, |s.lun|, s.log)[k])
    && (s.lun[k] != ZERO_BLOCK_ID ==> Sound(s.size, blocks, Shown(s.size, s.stores, s.lun[k])))
  }

  ghost predicate ThreadsOk(hash: Block -> nat, s: State, blocks: set<Block>) {
    forall t :: 0 <= t < |s.threads| ==> PcOk(hash, s, blocks, t, s.threads[t])
  }

  /** The request that an event belongs to, and nobody else, stands behind it. */
  ghost predicate EventOk(s: State, blocks: set<Block>, i: nat)
    requires i < |s.log|
  {
    var e := s.log[i];
    && e.t < |s.threads|
    && (e.Mapped? ==> s.threads[e.t] == Wrote(e.buf, e.k, i) && (IsZeros(e.buf) || e.buf in blocks))
    && (e.Looked? ==> LookedUp(s.threads[e.t]) && s.threads[e.t].k == e.k && s.threads[e.t].at == i)
  }

  predicate LookedUp(pc: Pc) {
    pc.Wait? || pc.Fetch? || pc.Got?
  }

  ghost predicate LogOk(s: State, blocks: set<Block>) {
    forall i :: 0 <= i < |s.log| ==> EventOk(s, blocks, i)
  }

  ghost predicate Inv(hash: Block -> nat, s: State, blocks: set<Block>) {
    && StoresOk(s) && OwnIds(s) && IndexOk(hash, s, blocks) && LunOk(hash, s, blocks) && ThreadsOk(hash, s, blocks)
    && LogOk(s, blocks)
  }

  // ---------------------------------------------------------------- every step keeps it

  /** What no step takes away. */
  ghost predicate Later(s: State, s': State) {
    && s'.size == s.size && |s'.lun| == |s.lun| && s.log <= s'.log
    && (forall id :: Published(s.stores, id) ==> Published(s'.stores, id) && s'.stores.file[id] == s.stores.file[id])
  }

  lemma StepLater(hash: Block -> nat, s: State, c: Choice, blocks: set<Block>)
    requires c.t < |s.threads| && Ready(s, c.t) && StoresOk(s) && PcOk(hash, s, blocks, c.t, s.threads[c.t])
    ensures Later(s, Step(hash, s, c))
  {
    hide Replay;
    var s' := Step(hash, s, c);
    forall id | Published(s.stores, id)
      ensures Published(s'.stores, id) && s'.stores.file[id] == s.stores.file[id]
    {}
  }

  /** A published block is shown as it was. */
  lemma VisibleKept(s: State, s': State, id: nat)
    requires Later(s, s') && Visible(s.stores, id)
    ensures Visible(s'.stores, id) && Shown(s'.size, s'.stores, id) == Shown(s.size, s.stores, id)
  {}

  lemma SeesLogKept(hash: Block -> nat, s: State, s': State, blocks: set<Block>, t: nat, block: Block, k: nat, at: nat)
    requires Later(s, s') && SeesLog(hash, s, blocks, t, block, k, at)
    ensures SeesLog(hash, s', blocks, t, block, k, at)
  {
    assert s'.log[..at] == s.log[..at];
    hide Replay;
  }

  /** A thread that did not move. */
  lemma BystanderKept(hash: Block -> nat, s: State, c: Choice, blocks: set<Block>, u: nat)
    requires Inv(hash, s, blocks) && c.t < |s.threads| && u < |s.threads| && u != c.t
    requires Later(s, Step(hash, s, c))
    ensures PcOk(hash, Step(hash, s, c), blocks, u, s.threads[u])
  {
    var s', pc := Step(hash, s, c), s.threads[u];
    assert PcOk(hash, s, blocks, u, pc);
    hide Replay, LunOk, IndexOk, LogOk, SeesLog, Shown, Published, Visible, Alike;
    match pc
    case Write(_, _, id) => OthersIds(s, c.t, u);
    case Settle(_, _, id, _) => OthersIds(s, c.t, u);
    case Index(buf, k, id) => PublishedKept(s, s', id);
    case Map(buf, k, id) => VisibleKept(s, s', id);
    case Wait(k, id, at) =>
      VisibleKept(s, s', id);
      SeesLogKept(hash, s, s', blocks, u, Shown(s.size, s.stores, id), k, at);
    case Fetch(k, id, at) =>
      VisibleKept(s, s', id);
      SeesLogKept(hash, s, s', blocks, u, Shown(s.size, s.stores, id), k, at);
    case Got(block, k, at) => SeesLogKept(hash, s, s', blocks, u, block, k, at);
    case _ =>
  }

  lemma PublishedKept(s: State, s': State, id: nat)
    requires Later(s, s') && Published(s.stores, id)
    ensures Published(s'.stores, id) && s'.stores.file[id] == s.stores.file[id]
  {}

  lemma OthersIds(s: State, t: nat, u: nat)
    requires OwnIds(s) && t < |s.threads| && u < |s.threads| && t != u
    ensures Storing(s.threads[t]) && Storing(s.threads[u]) ==> s.threads[t].id != s.threads[u].id
  {}

  /** The thread that moved. */
  lemma MoverKept(hash: Block -> nat, s: State, c: Choice, blocks: set<Block>)
    requires Inv(hash, s, blocks) && c.t < |s.threads| && Ready(s, c.t)
    requires Later(s, Step(hash, s, c))
    ensures PcOk(hash, Step(hash, s, c), blocks, c.t, Step(hash, s, c).threads[c.t])
  {
    var s', pc := Step(hash, s, c), s.threads[c.t];
    assert PcOk(hash, s, blocks, c.t, pc);
    if pc.Look? {
      assert CellOk(hash, s, blocks, pc.k);
      assert s'.log[..|s.log|] == s.log;
    }
    hide Replay, LogOk;
    if pc.Wait? || pc.Fetch? {
      SeesLogKept(hash, s, s', blocks, c.t, Shown(s.size, s.stores, pc.id), pc.k, pc.at);
    }
  }

  lemma ThreadsKept(hash: Block -> nat, s: State, c: Choice, blocks: set<Block>)
    requires Inv(hash, s, blocks) && c.t < |s.threads| && Ready(s, c.t)
    requires Later(s, Step(hash, s, c))
    ensures ThreadsOk(hash, Step(hash, s, c), blocks)
  {
    var s' := Step(hash, s, c);
    MoverKept(hash, s, c, blocks);
    forall u | 0 <= u < |s'.threads| ensures PcOk(hash, s', blocks, u, s'.threads[u]) {
      if u != c.t {
        BystanderKept(hash, s, c, blocks, u);
      }
    }
  }

  lemma OwnIdsKept(hash: Block -> nat, s: State, c: Choice, blocks: set<Block>)
    requires Inv(hash, s, blocks) && c.t < |s.threads| && Ready(s, c.t)
    ensures OwnIds(Step(hash, s, c)) && StoresOk(Step(hash, s, c))
  {
    hide Replay, LunOk, IndexOk, SeesLog, Shown, Published, Visible, Alike;
    var s' := Step(hash, s, c);
    var pc, pc' := s.threads[c.t], s'.threads[c.t];
    assert PcOk(hash, s, blocks, c.t, pc);
    forall u | 0 <= u < |s.threads| && u != c.t && Storing(s.threads[u]) && Storing(pc')
      ensures pc'.id != s.threads[u].id
    {
      assert PcOk(hash, s, blocks, u, s.threads[u]);
      OthersIds(s, c.t, u);
    }
  }

  lemma IndexKept(hash: Block -> nat, s: State, c: Choice, blocks: set<Block>)
    requires Inv(hash, s, blocks) && c.t < |s.threads| && Ready(s, c.t)
    requires Later(s, Step(hash, s, c))
    ensures IndexOk(hash, Step(hash, s, c), blocks)
  {
    var s' := Step(hash, s, c);
    assert PcOk(hash, s, blocks, c.t, s.threads[c.t]);
    hide Replay, SeesLog, LunOk, OwnIds, ThreadsOk;
    forall h | h in s'.db
      ensures s'.db[h] != ZERO_BLOCK_ID && Published(s'.stores, s'.db[h]) && hash(s'.stores.file[s'.db[h]]) == h
      ensures Sound(s'.size, blocks, s'.stores.file[s'.db[h]])
    {
      PublishedKept(s, s', s'.db[h]);
    }
  }

  lemma LunKept(hash: Block -> nat, s: State, c: Choice, blocks: set<Block>)
    requires Inv(hash, s, blocks) && c.t < |s.threads| && Ready(s, c.t)
    requires Later(s, Step(hash, s, c))
    ensures LunOk(hash, Step(hash, s, c), blocks)
  {
    var s', pc := Step(hash, s, c), s.threads[c.t];
    assert PcOk(hash, s, blocks, c.t, pc);
    ReplayNext(hash, s, c);
    hide Replay, SeesLog, IndexOk, OwnIds, ThreadsOk, Alike, Sound;
    forall k | 0 <= k < |s'.lun| ensures CellOk(hash, s', blocks, k) {
      assert CellOk(hash, s, blocks, k);
      VisibleKept(s, s', s'.lun[k]);
    }
  }

  /** The plain disk changes only when a write reaches the LUN map, and then as it should. */
  lemma ReplayNext(hash: Block -> nat, s: State, c: Choice)
    requires c.t < |s.threads|
    ensures var pc, before := s.threads[c.t], Replay(s.size, |s.lun|, s.log);
            Replay(s.size, |s.lun|, Step(hash, s, c).log) ==
              if pc.Map? && pc.k < |s.lun| then before[pc.k := pc.buf] else before
  {
    var log := Step(hash, s, c).log;
    if |log| > |s.log| {
      assert log[..|log| - 1] == s.log;
    }
  }

  lemma LogKept(hash: Block -> nat, s: State, c: Choice, blocks: set<Block>)
    requires Inv(hash, s, blocks) && c.t < |s.threads| && Ready(s, c.t)
    ensures LogOk(Step(hash, s, c), blocks)
  {
    var s', pc := Step(hash, s, c), s.threads[c.t];
    assert PcOk(hash, s, blocks, c.t, pc);
    hide Replay, SeesLog, LunOk, IndexOk, OwnIds, ThreadsOk, Alike, Sound, Shown, Visible, Published;
    forall i | 0 <= i < |s'.log| ensures EventOk(s', blocks, i) {
      if i < |s.log| {
        assert EventOk(s, blocks, i);
      }
    }
  }

  lemma {:induction false} StepKeepsInv(hash: Block -> nat, s: State, c: Choice, blocks: set<Block>)
    requires Inv(hash, s, blocks) && c.t < |s.threads| && Ready(s, c.t)
    ensures Inv(hash, Step(hash, s, c), blocks) && Later(s, Step(hash, s, c))
  {
    assert PcOk(hash, s, blocks, c.t, s.threads[c.t]);
    StepLater(hash, s, c, blocks);
    OwnIdsKept(hash, s, c, blocks);
    IndexKept(hash, s, c, blocks);
    LunKept(hash, s, c, blocks);
    ThreadsKept(hash, s, c, blocks);
    LogKept(hash, s, c, blocks);
  }

  /** The blocks that the requests write. */
  ghost function Buffers(threads: seq<Pc>): set<Block> {
    set t | 0 <= t < |threads| && threads[t].Find? :: threads[t].buf
  }

  lemma InitInv(hash: Block -> nat, s: State)
    requires Init(s)
    ensures Inv(hash, s, Buffers(s.threads))
  {}

  lemma {:induction false} RunInv(hash: Block -> nat, s: State, cs: seq<Choice>, s': State, blocks: set<Block>)
    requires Inv(hash, s, blocks) && Run(hash, s, cs, s')
    ensures Inv(hash, s', blocks) && Later(s, s')
    decreases |cs|
  {
    hide Inv, Later, Step, Ready;
    if cs != [] {
      var s1 := Step(hash, s, cs[0]);
      StepKeepsInv(hash, s, cs[0], blocks);
      RunInv(hash, s1, cs[1..], s', blocks);
      LaterTwice(s, s1, s');
    } else {
      LaterSame(s);
    }
  }

  lemma LaterSame(s: State)
    ensures Later(s, s)
  {}

  lemma LaterTwice(a: State, b: State, c: State)
    requires Later(a, b) && Later(b, c)
    ensures Later(a, c)
  {}

  // ---------------------------------------------------------------- results

  /** Write before publish: the LUN map and the ID store only ever name finished blocks, so no reader
      ever waits for a pending one, and no read of a visible block fails. */
  lemma {:induction false} NobodyWaits(hash: Block -> nat, s: State, cs: seq<Choice>, s': State)
    requires Init(s) && Run(hash, s, cs, s')
    ensures forall k :: 0 <= k < |s'.lun| ==> Visible(s'.stores, s'.lun[k])
    ensures forall h :: h in s'.db ==> Published(s'.stores, s'.db[h])
    ensures forall t :: 0 <= t < |s'.threads| ==>
              (Finished(s'.threads[t]) || Ready(s', t)) && !s'.threads[t].ReadFailed?
  {
    InitInv(hash, s);
    RunInv(hash, s, cs, s', Buffers(s.threads));
    hide Run, Step, Init, Later, Buffers;
    VisibleOnly(hash, s', Buffers(s.threads));
  }

  lemma VisibleOnly(hash: Block -> nat, s': State, blocks: set<Block>)
    requires Inv(hash, s', blocks)
    ensures forall k :: 0 <= k < |s'.lun| ==> Visible(s'.stores, s'.lun[k])
    ensures forall h :: h in s'.db ==> Published(s'.stores, s'.db[h])
    ensures forall t :: 0 <= t < |s'.threads| ==>
              (Finished(s'.threads[t]) || Ready(s', t)) && !s'.threads[t].ReadFailed?
  {
    hide Replay, LogOk, OwnIds, StoresOk, Alike;
    forall k | 0 <= k < |s'.lun| ensures Visible(s'.stores, s'.lun[k]) {
      assert CellOk(hash, s', blocks, k);
    }
    forall t | 0 <= t < |s'.threads| ensures (Finished(s'.threads[t]) || Ready(s', t)) && !s'.threads[t].ReadFailed? {
      assert PcOk(hash, s', blocks, t, s'.threads[t]);
    }
  }

  /** The plain disk holds zeros and written blocks. */
  lemma {:induction false} ReplayBlocks(s: State, blocks: set<Block>, n: nat, k: nat)
    requires LogOk(s, blocks) && n <= |s.log| && k < |s.lun|
    ensures var b := Replay(s.size, |s.lun|, s.log[..n])[k]; IsZeros(b) || b in blocks
    decreases n
  {
    if n > 0 {
      assert s.log[..n][..n - 1] == s.log[..n - 1];
      assert EventOk(s, blocks, n - 1);
      ReplayBlocks(s, blocks, n - 1, k);
    }
  }

  lemma AlikeIsSame(hash: Block -> nat, blocks: set<Block>, a: Block, b: Block)
    requires CollisionFree(hash, blocks) && Alike(hash, a, b) && (IsZeros(a) || a in blocks)
             && (IsZeros(b) || b in blocks)
    ensures a == b
  {}

  // ---------------------------------------------------------------- which request a thread serves

  /** A request that began at `start` can be at `pc`. */
  predicate Serves(start: Pc, pc: Pc) {
    match pc
    case WriteFailed => start.Find?
    case ReadFailed => start.Look?
    case Look(k) => start == Look(k)
    case Wait(k, _, _) => start == Look(k)
    case Fetch(k, _, _) => start == Look(k)
    case Got(_, k, _) => start == Look(k)
    case _ => start == Find(pc.buf, pc.k)
  }

  /** No step changes what a thread was asked to do. */
  lemma {:induction false} RequestKept(hash: Block -> nat, s: State, cs: seq<Choice>, s': State, start: Pc, t: nat)
    requires Run(hash, s, cs, s') && t < |s.threads| && Serves(start, s.threads[t])
    ensures t < |s'.threads| && Serves(start, s'.threads[t])
    decreases |cs|
  {
    if cs != [] {
      RequestKept(hash, Step(hash, s, cs[0]), cs[1..], s', start, t);
    }
  }

  /** A write has failed, or is about to. */
  predicate Failing(pc: Pc) {
    pc.WriteFailed? || (pc.Settle? && !pc.ok)
  }

  ghost predicate Refused(cs: seq<Choice>, t: nat) {
    exists i :: 0 <= i < |cs| && cs[i].t == t && !cs[i].ok
  }

  /** A write fails only if its own write to the block file does, or the IDs have run out. */
  lemma {:induction false} FailsOnlyIfRefused(hash: Block -> nat, s: State, cs: seq<Choice>, s': State, t: nat,
                                              blocks: set<Block>)
    requires Inv(hash, s, blocks) && Run(hash, s, cs, s') && t < |s.threads| && !Failing(s.threads[t])
    ensures |s'.threads| == |s.threads| && s.stores.nextID <= s'.stores.nextID
    ensures Failing(s'.threads[t]) ==> Refused(cs, t) || s'.stores.nextID > ZERO_BLOCK_ID
    decreases |cs|
  {
    if cs != [] {
      var c, s1 := cs[0], Step(hash, s, cs[0]);
      StepKeepsInv(hash, s, c, blocks);
      assert PcOk(hash, s, blocks, t, s.threads[t]) && StoresOk(s);
      hide Inv;
      if Failing(s1.threads[t]) {
        assert c.t == t && (c.ok ==> s.stores.nextID > ZERO_BLOCK_ID);
        assert !c.ok ==> cs[0].t == t;
        MoreIDs(hash, s1, cs[1..], s');
      } else {
        FailsOnlyIfRefused(hash, s1, cs[1..], s', t, blocks);
        if Refused(cs[1..], t) {
          var i :| 0 <= i < |cs[1..]| && cs[1..][i].t == t && !cs[1..][i].ok;
          assert cs[i + 1] == cs[1..][i];
        }
      }
    }
  }

  lemma {:induction false} MoreIDs(hash: Block -> nat, s: State, cs: seq<Choice>, s': State)
    requires Run(hash, s, cs, s')
    ensures |s'.threads| == |s.threads| && s.stores.nextID <= s'.stores.nextID
    decreases |cs|
  {
    if cs != [] {
      MoreIDs(hash, Step(hash, s, cs[0]), cs[1..], s');
    }
  }

  /**
   * Every run is a run of a plain disk that serves one request at a time, in the order of the log: a
   * finished read has its own entry and returns what the disk held just before it, a finished write has
   * its own entry, and a failed one has none. Reads and writes are those the threads began with, and a
   * write fails only if the block file refuses it or the IDs have run out.
   */
  lemma {:induction false} Linearizable(hash: Block -> nat, s: State, cs: seq<Choice>, s': State, t: nat)
    requires Init(s) && Run(hash, s, cs, s') && CollisionFree(hash, Buffers(s.threads)) && t < |s'.threads|
    ensures s'.threads[t].Got? ==>
              var r := s'.threads[t];
              r.k < |s'.lun| && r.at < |s'.log| && s'.log[r.at] == Looked(t, r.k)
                && r.block == Replay(s'.size, |s'.lun|, s'.log[..r.at])[r.k]
    ensures s'.threads[t].Wrote? ==>
              var w := s'.threads[t];
              w.at < |s'.log| && s'.log[w.at] == Mapped(t, w.buf, w.k)
    ensures forall i :: 0 <= i < |s'.log| && s'.log[i].t == t ==>
              (s'.threads[t].Wrote? || LookedUp(s'.threads[t])) && s'.threads[t].at == i
    ensures |s.threads| == |s'.threads|
    ensures s'.threads[t].Got? ==> s.threads[t] == Look(s'.threads[t].k)
    ensures s'.threads[t].Wrote? ==> s.threads[t] == Find(s'.threads[t].buf, s'.threads[t].k)
    ensures s'.threads[t].WriteFailed? ==>
              s.threads[t].Find? && (Refused(cs, t) || s'.stores.nextID > ZERO_BLOCK_ID)
  {
    var blocks := Buffers(s.threads);
    InitInv(hash, s);
    RunInv(hash, s, cs, s', blocks);
    MoreIDs(hash, s, cs, s');
    RequestKept(hash, s, cs, s', s.threads[t], t);
    FailsOnlyIfRefused(hash, s, cs, s', t, blocks);
    hide Run, Refused;
    var pc := s'.threads[t];
    assert PcOk(hash, s', blocks, t, pc);
    if pc.Got? {
      ReplayBlocks(s', blocks, pc.at, pc.k);
      AlikeIsSame(hash, blocks, pc.block, Replay(s'.size, |s'.lun|, s'.log[..pc.at])[pc.k]);
    }
    hide Replay;
    forall i | 0 <= i < |s'.log| && s'.log[i].t == t
      ensures (pc.Wrote? || LookedUp(pc)) && pc.at == i
    {
      assert EventOk(s', blocks, i);
    }
  }

  /** What the LUN map shows after any run is the plain disk after the logged writes. */
  lemma {:induction false} DiskIsReplayed(hash: Block -> nat, s: State, cs: seq<Choice>, s': State, k: nat)
    requires Init(s) && Run(hash, s, cs, s') && CollisionFree(hash, Buffers(s.threads)) && k < |s'.lun|
    ensures Shown(s'.size, s'.stores, s'.lun[k]) == Replay(s'.size, |s'.lun|, s'.log)[k]
  {
    var blocks := Buffers(s.threads);
    InitInv(hash, s);
    RunInv(hash, s, cs, s', blocks);
    assert CellOk(hash, s', blocks, k);
    assert s'.log[..|s'.log|] == s'.log;
    ReplayBlocks(s', blocks, |s'.log|, k);
    hide Replay;
    AlikeIsSame(hash, blocks, Shown(s'.size, s'.stores, s'.lun[k]), Replay(s'.size, |s'.lun|, s'.log)[k]);
  }

  /** The order respects time: a request that starts after another has finished comes later in the log. */
  lemma {:induction false} RealTimeOrder(hash: Block -> nat, s: State, cs: seq<Choice>, s1: State, cs': seq<Choice>,
                                         s2: State, a: nat, b: nat)
    requires Init(s) && Run(hash, s, cs, s1) && Run(hash, s1, cs', s2) && a < |s1.threads| && b < |s1.threads|
             && b < |s2.threads|
    requires (s1.threads[a].Wrote? || s1.threads[a].Got?) && (s1.threads[b].Find? || s1.threads[b].Look?)
    requires s2.threads[b].Wrote? || s2.threads[b].Got?
    ensures s1.threads[a].at < s2.threads[b].at
  {
    var blocks := Buffers(s.threads);
    InitInv(hash, s);
    RunInv(hash, s, cs, s1, blocks);
    RunInv(hash, s1, cs', s2, blocks);
    hide Run, Step, Init, Buffers;
    LaterEvent(hash, s1, s2, blocks, a, b);
  }

  lemma LaterEvent(hash: Block -> nat, s1: State, s2: State, blocks: set<Block>, a: nat, b: nat)
    requires Inv(hash, s1, blocks) && Inv(hash, s2, blocks) && Later(s1, s2)
    requires a < |s1.threads| && b < |s1.threads| && b < |s2.threads|
    requires (s1.threads[a].Wrote? || s1.threads[a].Got?) && (s1.threads[b].Find? || s1.threads[b].Look?)
    requires s2.threads[b].Wrote? || s2.threads[b].Got?
    ensures s1.threads[a].at < s2.threads[b].at
  {
    assert PcOk(hash, s1, blocks, a, s1.threads[a]);
    assert PcOk(hash, s2, blocks, b, s2.threads[b]);
    hide Replay, ThreadsOk, LunOk, IndexOk, OwnIds, StoresOk, Alike;
    var at := s2.threads[b].at;
    assert at < |s1.log| ==> EventOk(s1, blocks, at);
  }

  // ---------------------------------------------------------------- progress

  /** How many steps a request still takes at most. */
  function Left(pc: Pc): nat {
    match pc
    case Find(_, _) => 6
    case Put(_, _) => 5
    case Write(_, _, _) => 4
    case Settle(_, _, _, _) => 3
    case Index(_, _, _) => 2
    case Map(_, _, _) => 1
    case Look(_) => 3
    case Wait(_, _, _) => 2
    case Fetch(_, _, _) => 1
    case _ => 0
  }

  function TotalLeft(threads: seq<Pc>): nat {
    if threads == [] then 0 else Left(threads[0]) + TotalLeft(threads[1..])
  }

  lemma {:induction false} TotalDrops(threads: seq<Pc>, t: nat, pc: Pc)
    requires t < |threads| && Left(pc) < Left(threads[t])
    ensures TotalLeft(threads[t := pc]) < TotalLeft(threads)
  {
    if t > 0 {
      assert threads[t := pc][1..] == threads[1..][t - 1 := pc];
      TotalDrops(threads[1..], t - 1, pc);
    } else {
      assert threads[t := pc][1..] == threads[1..];
    }
  }

  lemma {:induction false} RunsAreShort(hash: Block -> nat, s: State, cs: seq<Choice>, s': State)
    requires Run(hash, s, cs, s')
    ensures |cs| + TotalLeft(s'.threads) <= TotalLeft(s.threads)
    decreases |cs|
  {
    if cs != [] {
      TotalDrops(s.threads, cs[0].t, NextPc(hash, s, s.threads[cs[0].t], cs[0]));
      RunsAreShort(hash, Step(hash, s, cs[0]), cs[1..], s');
    }
  }

  /** Every request is answered: no run is longer than its requests allow, and a run that cannot go on
      has finished them all. */
  lemma {:induction false} AllAnswered(hash: Block -> nat, s: State, cs: seq<Choice>, s': State)
    requires Init(s) && Run(hash, s, cs, s')
    ensures |cs| <= TotalLeft(s.threads)
    ensures (forall t :: 0 <= t < |s'.threads| ==> !Ready(s', t)) ==> forall t :: 0 <= t < |s'.threads| ==>
              Finished(s'.threads[t])
  {
    RunsAreShort(hash, s, cs, s');
    NobodyWaits(hash, s, cs, s');
  }

  /** What concurrency costs: two writers of one new block can both miss it and both store it. */
  lemma {:induction false} StoredTwice(hash: Block -> nat, buf: Block) returns (s: State, cs: seq<Choice>, s': State)
    requires !IsZeros(buf)
    ensures Init(s) && s.threads == [Find(buf, 0), Find(buf, 1)]
    ensures Run(hash, s, cs, s') && s'.stores.nextID == 2 && s'.stores.file == map[0 := buf, 1 := buf]
  {
    assert |buf| > 0;
    s := Two({}, map[], 0, Find(buf, 0), Find(buf, 1), |buf|);
    var first, second := Choice(0, true, []), Choice(1, true, []);
    hide IsZeros;
    var s1 := Two({}, map[], 0, Put(buf, 0), Find(buf, 1), |buf|);
    var s2 := Two({}, map[], 0, Put(buf, 0), Put(buf, 1), |buf|);
    var s3 := Two({0}, map[], 1, Write(buf, 0, 0), Put(buf, 1), |buf|);
    var s4 := Two({0, 1}, map[], 2, Write(buf, 0, 0), Write(buf, 1, 1), |buf|);
    var s5 := Two({0, 1}, map[0 := buf], 2, Settle(buf, 0, 0, true), Write(buf, 1, 1), |buf|);
    var s6 := Two({0, 1}, map[0 := buf, 1 := buf], 2, Settle(buf, 0, 0, true), Settle(buf, 1, 1, true), |buf|);
    assert Step(hash, s, first) == s1;
    assert Step(hash, s1, second) == s2;
    assert Step(hash, s2, first) == s3;
    assert Step(hash, s3, second) == s4;
    assert Step(hash, s4, first) == s5;
    assert Step(hash, s5, second) == s6;
    hide Step;
    assert Run(hash, s6, [], s6);
    hide Run;
    s' := s6;
    cs := [second];
    RunStep(hash, s5, second, [], s6);
    assert [second] + [] == cs;
    RunStep(hash, s4, first, cs, s6);
    cs := [first] + cs;
    RunStep(hash, s3, second, cs, s6);
    cs := [second] + cs;
    RunStep(hash, s2, first, cs, s6);
    cs := [first] + cs;
    RunStep(hash, s1, second, cs, s6);
    cs := [second] + cs;
    RunStep(hash, s, first, cs, s6);
    cs := [first] + cs;
  }

  /** Two requests on a disk of two blocks. */
  function Two(pending: set<nat>, file: map<nat, Block>, nextID: nat, a: Pc, b: Pc, size: nat): State {
    State(size, Stores(file, nextID, pending), map[], [ZERO_BLOCK_ID, ZERO_BLOCK_ID], [a, b], [])
  }

  lemma RunStep(hash: Block -> nat, s: State, c: Choice, cs: seq<Choice>, s': State)
    requires c.t < |s.threads| && Ready(s, c.t) && Run(hash, Step(hash, s, c), cs, s')
    ensures Run(hash, s, [c] + cs, s')
  {
    assert ([c] + cs)[1..] == cs;
  }
}
