/** The dedup disk: a LUN map, an ID store and a block store that together stand for a flat disk. */
module DedupDisk {
  import opened Bytes
  import opened Join
  import opened DedupStores

  datatype Err = Ok | Shutdown | OutOfBounds | Eof | UnexpectedEof | StoreError

  /** mmapLUNmap: which block each position of the disk shows. */
  class LunMap {
    const ids: array<nat>

    /** mmaplunmap.go:25-57 for a new file: every position shows the zero block. */
    constructor (idCount: nat)
      ensures fresh(ids) && ids.Length == idCount && forall i :: 0 <= i < idCount ==> ids[i] == ZERO_BLOCK_ID
    {
      ids := new nat[idCount];
      new;
      var i := 0;
      while i < idCount
        invariant 0 <= i <= idCount && forall k :: 0 <= k < i ==> ids[k] == ZERO_BLOCK_ID
      {
        ids[i] := ZERO_BLOCK_ID;
        i := i + 1;
      }
    }
  }

  lemma FewerBlocks(hash: Block -> nat, some: set<Block>, all: set<Block>)
    requires CollisionFree(hash, all) && some <= all
    ensures CollisionFree(hash, some)
  {}

  /** The non-zero blocks of a buffer. */
  ghost function NonZero(buf: seq<Byte>): set<Block> {
    if IsZeros(buf) then {} else {buf}
  }

  /** The index tells the truth: an ID's block has the hash it is found under, and was written. */
  ghost predicate IndexOk(hash: Block -> nat, db: map<nat, nat>, stored: map<nat, Block>, wrote: set<Block>) {
    forall h :: h in db ==>
      db[h] != ZERO_BLOCK_ID && db[h] in stored && hash(stored[db[h]]) == h && stored[db[h]] in wrote
        && !IsZeros(stored[db[h]])
  }

  /** Deduplication is exact: one stored block for each distinct non-zero block ever written. */
  ghost predicate Exact(hash: Block -> nat, db: map<nat, nat>, stored: map<nat, Block>, wrote: set<Block>,
                        nextID: nat) {
    && nextID == |wrote|
    && (forall b :: b in wrote ==> hash(b) in db)
    && (forall i :: 0 <= i < nextID ==> i in stored && hash(stored[i]) in db && db[hash(stored[i])] == i)
  }

  /** Stored blocks never change. */
  ghost predicate Grows(stored: map<nat, Block>, stored': map<nat, Block>) {
    forall i :: i in stored ==> i in stored' && stored'[i] == stored[i]
  }

  lemma IndexGrows(hash: Block -> nat, db: map<nat, nat>, stored: map<nat, Block>, stored': map<nat, Block>,
                   wrote: set<Block>, buf: Block)
    requires IndexOk(hash, db, stored, wrote) && Grows(stored, stored')
    ensures IndexOk(hash, db, stored', wrote + {buf})
  {}

  lemma IndexAdds(hash: Block -> nat, db: map<nat, nat>, stored: map<nat, Block>, wrote: set<Block>, id: nat)
    requires IndexOk(hash, db, stored, wrote) && id in stored && id != ZERO_BLOCK_ID && stored[id] in wrote
             && !IsZeros(stored[id])
    ensures IndexOk(hash, db[hash(stored[id]) := id], stored, wrote)
  {}

  /** A new block that is stored and indexed keeps deduplication exact. */
  lemma {:induction false} ExactAdds(hash: Block -> nat, db: map<nat, nat>, stored: map<nat, Block>, stored': map<nat,
                                     Block>, wrote: set<Block>,
                  id: nat, buf: Block)
    requires Exact(hash, db, stored, wrote, id) && Grows(stored, stored')
    requires id in stored' && stored'[id] == buf && hash(buf) !in db
    ensures Exact(hash, db[hash(buf) := id], stored', wrote + {buf}, id + 1)
  {
    assert buf !in wrote;
  }

  /** What exactness means: the stored blocks are pairwise distinct, and they are the blocks written. */
  lemma ExactMeaning(hash: Block -> nat, db: map<nat, nat>, stored: map<nat, Block>, wrote: set<Block>, nextID: nat)
    requires Exact(hash, db, stored, wrote, nextID) && IndexOk(hash, db, stored, wrote)
    ensures forall i, j :: 0 <= i < j < nextID ==> stored[i] != stored[j]
    ensures forall i :: 0 <= i < nextID ==> stored[i] in wrote && !IsZeros(stored[i])
  {
    forall i | 0 <= i < nextID ensures stored[i] in wrote && !IsZeros(stored[i]) {
      assert db[hash(stored[i])] == i;
    }
  }

  /** The bytes of the whole blocks in `n` bytes. */
  function Whole(n: nat, blockSize: nat): (w: nat)
    requires blockSize > 0
    ensures w <= n
  {
    BlockStart(n, blockSize);
    Offset(n / blockSize, blockSize)
  }

  /** The disk after `data` is written at `at`, and nothing else. */
  ghost predicate Overwrites(disk: seq<Byte>, at: int, data: seq<Byte>, disk': seq<Byte>) {
    0 <= at && at + |data| <= |disk| && disk' == Overwrite(disk, at, data)
  }

  /** Only the positions in `[lo, hi)` may differ. */
  ghost predicate SameOutside(before: seq<Block>, after: seq<Block>, lo: int, hi: int) {
    |before| == |after| && forall k :: 0 <= k < |before| && !(lo <= k < hi) ==> after[k] == before[k]
  }

  lemma SameOutsideTwice(a: seq<Block>, b: seq<Block>, c: seq<Block>, lo: nat, mid: nat)
    requires lo <= mid && SameOutside(a, b, lo, mid) && SameOutside(b, c, mid, mid + 1)
    ensures SameOutside(a, c, lo, mid + 1)
  {}

  class Disk {
    const blockSize: nat
    const lun: LunMap
    const idStore: IDStore
    const store: FileBlockStore
    var closed: bool
    ghost var failed: bool          // some store operation has failed
    ghost var wrote: set<Block>     // the non-zero blocks ever written

    /** Three new stores. */
    constructor (blockSize: nat, idCount: nat, hash: Block -> nat)
      requires blockSize > 0
      ensures Valid() && !closed && !failed && wrote == {} && this.blockSize == blockSize && lun.ids.Length == idCount
      ensures fresh(lun) && fresh(lun.ids) && fresh(idStore) && fresh(store) && idStore.hash == hash
      ensures forall k :: 0 <= k < idCount ==> Cell(k) == Zeros(blockSize)
    {
      this.blockSize := blockSize;
      lun := new LunMap(idCount);
      idStore := new IDStore(hash);
      store := new FileBlockStore(blockSize, []);
      closed, failed, wrote := false, false, {};
    }

    ghost predicate Published(id: nat)
      reads store
    {
      id == ZERO_BLOCK_ID || store.Has(id)
    }

    ghost function Stored(): map<nat, Block>
      reads store
    {
      map i | 0 <= i < store.nextID && store.Has(i) :: store.At(i)
    }

    /** Everything visible is stored, and the index is right. */
    ghost predicate StoresOk()
      reads this`wrote, lun.ids, idStore, store
    {
      && blockSize > 0 && store.blockSize == blockSize && store.Aligned()
      && (forall k :: 0 <= k < lun.ids.Length ==> Published(lun.ids[k]))
      && IndexOk(idStore.hash, idStore.db, Stored(), wrote)
    }

    ghost predicate Valid()
      reads this, lun.ids, idStore, store
    {
      && StoresOk()
      && (!failed && CollisionFree(idStore.hash, wrote) ==>
           Exact(idStore.hash, idStore.db, Stored(), wrote, store.nextID))
    }

    /** What position `k` of the disk shows. */
    ghost function Cell(k: nat): Block
      requires k < lun.ids.Length
      reads lun.ids, store
    {
      if lun.ids[k] == ZERO_BLOCK_ID || !store.Has(lun.ids[k]) then Zeros(store.blockSize) else store.At(lun.ids[k])
    }

    ghost function Cells(): (cs: seq<Block>)
      reads lun.ids, store
    {
      seq(lun.ids.Length, k requires 0 <= k < lun.ids.Length reads lun.ids, store => Cell(k))
    }

    /** The flat disk. */
    ghost function Contents(): seq<Byte>
      reads lun.ids, store
    {
      Flat(Cells())
    }

    /** Another block is already stored under this block's hash. */
    ghost predicate Clash(buf: Block)
      requires Valid()
      reads this, lun.ids, idStore, store
    {
      !IsZeros(buf) && idStore.hash(buf) in idStore.db && store.At(idStore.db[idStore.hash(buf)]) != buf
    }

    /** The ID that a write of `buf` maps: dedupdisk.go:163-172. */
    method FindOrStore(buf: Block) returns (id: nat, ok: bool)
      requires Valid() && (|buf| == blockSize || IsZeros(buf))
      modifies this`failed, this`wrote, idStore, store
      ensures Valid() && wrote == old(wrote) + NonZero(buf) && (old(failed) ==> failed)
      ensures Grows(old(Stored()), Stored())
      ensures ok ==> Published(id) && (id == ZERO_BLOCK_ID <==> IsZeros(buf))
      ensures ok && !IsZeros(buf) ==>
                store.At(id) == if old(Clash(buf)) then old(store.At(idStore.db[idStore.hash(buf)])) else buf
      ensures !ok ==> failed
    {
      var h, found;
      id, h, found, ok := idStore.GetID(buf);
      if !ok {
        failed := true;
        NoteWrite(buf);
      } else if !found {
        id, ok := StoreNew(buf, h);
      } else {
        NoteWrite(buf);
      }
    }

    /** A write that stores nothing new. */
    ghost method NoteWrite(buf: Block)
      requires StoresOk()
      requires failed || (Valid() && idStore.Lookup(buf).Some?)
      modifies this`wrote
      ensures Valid() && wrote == old(wrote) + NonZero(buf)
    {
      wrote := wrote + NonZero(buf);
      IndexGrows(idStore.hash, idStore.db, Stored(), Stored(), old(wrote), buf);
      if !failed && CollisionFree(idStore.hash, wrote) && !IsZeros(buf) {
        FewerBlocks(idStore.hash, old(wrote), wrote);
        assert Stored()[idStore.db[idStore.hash(buf)]] in old(wrote);
        assert buf in old(wrote);
        assert wrote == old(wrote);
      }
    }

    /** A block with a new hash: stored first, then indexed. */
    method StoreNew(buf: Block, h: nat) returns (id: nat, ok: bool)
      requires Valid() && |buf| == blockSize && !IsZeros(buf) && h == idStore.hash(buf) && h !in idStore.db
      modifies this`failed, this`wrote, idStore, store
      ensures Valid() && wrote == old(wrote) + {buf} && (old(failed) ==> failed)
      ensures Grows(old(Stored()), Stored())
      ensures ok ==> id != ZERO_BLOCK_ID && store.Has(id) && store.At(id) == buf
      ensures !ok ==> failed
    {
      hide StoresOk, IndexOk, Exact, Grows, Stored, CollisionFree, FileBlockStore.At, FileBlockStore.Has, IsZeros;
      id, ok := Append(buf);
      if !ok {
        failed := true;
        return;
      }
      if !failed && CollisionFree(idStore.hash, wrote) {
        FewerBlocks(idStore.hash, old(wrote), wrote);
        ExactAdds(idStore.hash, idStore.db, old(Stored()), Stored(), old(wrote), id, buf);
      }
      var indexed := Index(h, id);
      failed := failed || !indexed;
    }

    method Append(buf: Block) returns (id: nat, ok: bool)
      requires StoresOk() && |buf| == blockSize
      modifies this`wrote, store
      ensures StoresOk() && wrote == old(wrote) + {buf} && Grows(old(Stored()), Stored())
      ensures id == old(store.nextID) && store.nextID == id + 1
      ensures ok ==> id != ZERO_BLOCK_ID && store.Has(id) && store.At(id) == buf
      ensures ok ==> id in Stored() && Stored()[id] == buf
    {
      ghost var stored := Stored();
      id, ok := store.PutBlock(buf);
      wrote := wrote + {buf};
      assert Grows(stored, Stored());
      IndexGrows(idStore.hash, idStore.db, stored, Stored(), old(wrote), buf);
      hide IndexOk, Grows;
    }

    method Index(h: nat, id: nat) returns (ok: bool)
      requires StoresOk() && id in Stored() && id != ZERO_BLOCK_ID && Stored()[id] in wrote && !IsZeros(Stored()[id])
      requires h == idStore.hash(Stored()[id])
      modifies idStore
      ensures StoresOk() && idStore.db == if ok then old(idStore.db)[h := id] else old(idStore.db)
    {
      IndexAdds(idStore.hash, idStore.db, Stored(), wrote, id);
      ok := idStore.PutID(h, id);
    }

    /** While nothing has failed and no hashes collide, the store holds exactly the distinct non-zero
        blocks ever written, each once. */
    lemma {:induction false} StoredOnce()
      requires Valid() && !failed && CollisionFree(idStore.hash, wrote)
      ensures store.nextID == |wrote| && forall i :: 0 <= i < store.nextID ==> store.Has(i)
      ensures forall i, j :: 0 <= i < j < store.nextID ==> store.At(i) != store.At(j)
      ensures forall i :: 0 <= i < store.nextID ==> store.At(i) in wrote && !IsZeros(store.At(i))
      ensures forall b :: b in wrote ==> exists i :: 0 <= i < store.nextID && store.At(i) == b
    {
      var stored, db := Stored(), idStore.db;
      ExactMeaning(idStore.hash, db, stored, wrote, store.nextID);
      forall i | 0 <= i < store.nextID ensures store.Has(i) && stored[i] == store.At(i) {
        assert i in stored;
      }
      forall b | b in wrote ensures exists i :: 0 <= i < store.nextID && store.At(i) == b {
        var i := db[idStore.hash(b)];
        assert i in stored && stored[i] == b;
      }
    }

    // ---------------------------------------------------------------- writing

    /** What position `block` shows after a write of `buf`. */
    ghost function Shown(buf: Block): Block
      requires Valid()
      reads this, lun.ids, idStore, store
    {
      if IsZeros(buf) then Zeros(blockSize) else if Clash(buf) then store.At(idStore.db[idStore.hash(buf)]) else buf
    }

    /** dedupdisk.go:158-176. A zero-length write takes this path too, and clears its block. */
    method WriteBlock(buf: Block, block: nat) returns (ok: bool)
      requires Valid() && block < lun.ids.Length && (|buf| == blockSize || IsZeros(buf))
      modifies this`failed, this`wrote, idStore, store, lun.ids
      ensures Valid() && wrote == old(wrote) + NonZero(buf) && (old(failed) ==> failed)
      ensures Cells() == if ok then old(Cells())[block := old(Shown(buf))] else old(Cells())
      ensures !ok ==> failed
      ensures ok ==> (Cells()[block] == buf <==> |buf| == blockSize && !old(Clash(buf)))
    {
      var id: nat;
      id, ok := FindOrStore(buf);
      CellsKept(old(Stored()), old(lun.ids[..]), old(Cells()));
      if ok {
        lun.ids[block] := id;
        assert Cell(block) == old(Shown(buf)) by {
          assert IsZeros(buf) && |buf| == blockSize ==> buf == Zeros(blockSize);
        }
        assert IsZeros(buf) && |buf| == blockSize ==> buf == Zeros(blockSize);
      }
    }

    /** Storing blocks changes nothing that the disk shows. */
    lemma CellsKept(stored: map<nat, Block>, ids: seq<nat>, cells: seq<Block>)
      requires lun.ids[..] == ids && |cells| == |ids| && Grows(stored, Stored())
      requires forall k :: 0 <= k < |ids| ==> ids[k] == ZERO_BLOCK_ID || ids[k] in stored
      requires forall k :: 0 <= k < |ids| ==>
                 cells[k] == if ids[k] == ZERO_BLOCK_ID then Zeros(store.blockSize) else stored[ids[k]]
      ensures Cells() == cells
    {
      forall k | 0 <= k < |ids| ensures Cell(k) == cells[k] {
        assert lun.ids[..][k] == lun.ids[k];
      }
    }

    /** Under a hash without collisions, a write shows what was written. */
    lemma ShownIsWritten(buf: Block)
      requires Valid() && |buf| == blockSize && CollisionFree(idStore.hash, wrote + NonZero(buf))
      ensures Shown(buf) == buf
    {
      if IsZeros(buf) {
        assert buf == Zeros(blockSize);
      }
    }

    lemma CellsSize()
      requires Valid()
      ensures Pieces(Cells(), blockSize) && |Cells()| == lun.ids.Length
              && |Contents()| == Offset(lun.ids.Length, blockSize)
      ensures blockSize > 0
    {
      FlatSize(Cells(), blockSize);
    }

    /** One block of a request: the disk after it. */
    method WriteOne(buf: Block, block: nat) returns (ok: bool)
      requires Valid() && block < lun.ids.Length && |buf| == blockSize
      modifies this`failed, this`wrote, idStore, store, lun.ids
      ensures Valid() && old(wrote) <= wrote && (old(failed) ==> failed) && (!ok ==> failed)
      ensures SameOutside(old(Cells()), Cells(), block, block + 1)
      ensures Offset(block, blockSize) + blockSize <= |old(Contents())|
      ensures ok && CollisionFree(idStore.hash, wrote) ==>
                Contents() == Overwrite(old(Contents()), Offset(block, blockSize), buf)
    {
      CellsSize();
      FlatOverwrite(Cells(), blockSize, block, 0, buf);
      assert Overwrite(Cells()[block], 0, buf) == buf;
      if CollisionFree(idStore.hash, wrote + NonZero(buf)) {
        ShownIsWritten(buf);
      }
      ok := WriteBlock(buf, block);
      hide Valid, Flat, Cell;
    }

    /** dedupdisk.go:158-176 for a whole block, or for fewer zeros, which clear the block. */
    method WriteSingle(buf: Block, block: nat) returns (ok: bool)
      requires Valid() && block < lun.ids.Length && (|buf| == blockSize || (|buf| < blockSize && IsZeros(buf)))
      modifies this`failed, this`wrote, idStore, store, lun.ids
      ensures Valid() && old(wrote) <= wrote && (old(failed) ==> failed) && (!ok ==> failed)
      ensures SameOutside(old(Cells()), Cells(), block, block + 1)
      ensures Offset(block, blockSize) + blockSize <= |old(Contents())|
      ensures ok && |buf| == blockSize && CollisionFree(idStore.hash, wrote) ==>
                Contents() == Overwrite(old(Contents()), Offset(block, blockSize), buf)
      ensures ok && |buf| < blockSize ==>
                Contents() == Overwrite(old(Contents()), Offset(block, blockSize), Zeros(blockSize))
    {
      if |buf| < blockSize {
        CellsSize();
        FlatOverwrite(Cells(), blockSize, block, 0, Zeros(blockSize));
        assert Overwrite(Cells()[block], 0, Zeros(blockSize)) == Zeros(blockSize);
        ok := WriteBlock(buf, block);
        hide Valid, Flat, Cell;
      } else {
        hide *;
        ok := WriteOne(buf, block);
      }
    }

    /** dedupdisk.go:122-178. Only whole blocks are written, from the block that holds `pos` on: a position
        inside a block is rounded down and a last part of a block is left out. An empty write at the very
        end of the disk would panic. */
    method WriteAt(buf: seq<Byte>, pos: int) returns (count: int, err: Err)
      requires Valid() && (|buf| >= blockSize || IsZeros(buf))
      requires buf == [] ==> pos < Offset(lun.ids.Length, blockSize)
      modifies this`failed, this`wrote, idStore, store, lun.ids
      ensures Valid() && old(wrote) <= wrote && (old(failed) ==> failed)
      ensures closed ==> count == -1 && err == Shutdown
      ensures !closed && pos < 0 ==> count == 0 && err == OutOfBounds
      ensures !closed && pos >= 0 && pos + |buf| > Offset(lun.ids.Length, blockSize) ==>
                count == 0 && err == UnexpectedEof
      ensures closed || pos < 0 || pos + |buf| > Offset(lun.ids.Length, blockSize) ==> Contents() == old(Contents())
      ensures !closed && pos >= 0 && pos + |buf| <= Offset(lun.ids.Length, blockSize) ==>
                && ((err == Ok && count == |buf|) || (err == StoreError && count == 0 && failed))
                && |old(Contents())| == Offset(lun.ids.Length, blockSize)
                && var block, at := pos / blockSize, Whole(pos, blockSize);
                   && (err == Ok && |buf| >= blockSize && CollisionFree(idStore.hash, wrote) ==>
                         Overwrites(old(Contents()), at, buf[..Whole(|buf|, blockSize)], Contents()))
                   && (err == Ok && |buf| < blockSize ==>
                         Overwrites(old(Contents()), at, Zeros(blockSize), Contents()))
                   && SameOutside(old(Cells()), Cells(), block,
                                  block + if |buf| < blockSize then 1 else |buf| / blockSize)
      ensures err == Ok && buf != [] && pos % blockSize == 0 && |buf| % blockSize == 0
              && CollisionFree(idStore.hash, wrote) ==>
                Overwrites(old(Contents()), pos, buf, Contents())
    {
      CellsSize();
      if closed {
        return -1, Shutdown;
      }
      var size := Offset(lun.ids.Length, blockSize);
      if pos < 0 {
        return 0, OutOfBounds;
      }
      if pos + |buf| > size {
        return 0, UnexpectedEof;
      }
      var block := pos / blockSize;
      BlockStart(pos, blockSize);
      BlockStart(|buf|, blockSize);
      WholeBlock(|buf|, blockSize);
      WholeBlocks(pos, blockSize);
      WholeBlocks(|buf|, blockSize);
      assert |buf| % blockSize == 0 && buf != [] ==> |buf| >= blockSize;
      assert |buf| % blockSize == 0 ==> buf[..Whole(|buf|, blockSize)] == buf;
      assert Whole(pos, blockSize) == Offset(block, blockSize);
      hide Valid, Cells, Contents, CollisionFree, Offset, Overwrite, SameOutside;
      if |buf| > blockSize {
        ghost var n;
        err, n := WriteMany(buf, block, Offset(block, blockSize));
      } else {
        assert |buf| == blockSize ==> buf[..blockSize] == buf;
        BlockInside(block, lun.ids.Length, blockSize);
        var ok := WriteSingle(buf, block);
        err := if ok then Ok else StoreError;
      }
      count := if err == Ok then |buf| else 0;
    }

    method WriteNext(buf: seq<Byte>, block: nat, i: nat, bufPos: nat, err0: Err, ghost disk: seq<Byte>, ghost at: nat,
                     ghost cells: seq<Block>)
      returns (err: Err)
      requires Valid() && bufPos == Offset(i, blockSize) && bufPos + blockSize <= |buf|
               && (err0 == Ok || (err0 == StoreError && failed))
      requires at == Offset(block, blockSize) && at + |buf| <= Offset(lun.ids.Length, blockSize) == |disk|
      requires err0 == Ok && CollisionFree(idStore.hash, wrote) ==> Contents() == Overwrite(disk, at, buf[..bufPos])
      requires SameOutside(cells, Cells(), block, block + i)
      modifies this`failed, this`wrote, idStore, store, lun.ids
      ensures Valid() && old(wrote) <= wrote && (old(failed) ==> failed) && (err == Ok || (err == StoreError && failed))
      ensures err == Ok && CollisionFree(idStore.hash, wrote) ==>
                Contents() == Overwrite(disk, at, buf[..bufPos + blockSize])
      ensures SameOutside(cells, Cells(), block, block + i + 1)
    {
      hide *;
      CellsSize();
      OffsetSum(block, i, blockSize);
      BlockInside(block + i, lun.ids.Length, blockSize);
      var ok := WriteOne(buf[bufPos..bufPos + blockSize], block + i);
      SameOutsideTwice(cells, old(Cells()), Cells(), block, block + i);
      err := if !ok && err0 == Ok then StoreError else err0;
      if err == Ok && CollisionFree(idStore.hash, wrote) {
        FewerBlocks(idStore.hash, old(wrote), wrote);
        OneMoreBlock(disk, at, buf, bufPos, blockSize);
      }
    }

    /** dedupdisk.go:137-157: one block after the other; a failure does not stop the rest. */
    method WriteMany(buf: seq<Byte>, block: nat, ghost at: nat) returns (err: Err, ghost n: nat)
      requires Valid() && at == Offset(block, blockSize) && at + |buf| <= Offset(lun.ids.Length, blockSize)
      modifies this`failed, this`wrote, idStore, store, lun.ids
      ensures Valid() && old(wrote) <= wrote && (old(failed) ==> failed)
      ensures err == Ok || (err == StoreError && failed)
      ensures |old(Contents())| == Offset(lun.ids.Length, blockSize) && n == Whole(|buf|, blockSize) && n <= |buf|
      ensures at + n <= |old(Contents())|
      ensures err == Ok && CollisionFree(idStore.hash, wrote) ==> Contents() == Overwrite(old(Contents()), at, buf[..n])
      ensures SameOutside(old(Cells()), Cells(), block, block + |buf| / blockSize)
    {
      CellsSize();
      BlockStart(|buf|, blockSize);
      err := Ok;
      var blockc := |buf| / blockSize;
      var i, bufPos := 0, 0;
      ghost var disk, cells := Contents(), Cells();
      n := Whole(|buf|, blockSize);
      NothingWritten(disk, at, buf);
      assert Offset(0, blockSize) == 0 && SameOutside(cells, Cells(), block, block);
      hide Valid, Cells, Contents, CollisionFree, Offset, Overwrite, SameOutside;
      while i < blockc
        invariant 0 <= i <= blockc && bufPos == Offset(i, blockSize) && bufPos <= |buf|
        invariant Valid() && old(wrote) <= wrote && (old(failed) ==> failed)
        invariant err == Ok || (err == StoreError && failed)
        invariant err == Ok && CollisionFree(idStore.hash, wrote) ==> Contents() == Overwrite(disk, at, buf[..bufPos])
        invariant SameOutside(cells, Cells(), block, block + i)
      {
        OffsetOrder(i, blockc, blockSize);
        err := WriteNext(buf, block, i, bufPos, err, disk, at, cells);
        OffsetNext(i, blockSize);
        i := i + 1;
        bufPos := bufPos + blockSize;
      }
    }

    // ---------------------------------------------------------------- reading

    /** `n` bytes of one block of a read, from dedupdisk.go:85-93 or 101-107. */
    method ReadBlock(k: nat, buf: array<Byte>, lo: nat, n: nat) returns (ok: bool)
      requires Valid() && k < lun.ids.Length && n <= blockSize && lo + n <= buf.Length
      modifies buf
      ensures ok && 0 <= Offset(k, blockSize) && Offset(k, blockSize) + n <= |Contents()|
      ensures buf[..] == Overwrite(old(buf[..]), lo, Contents()[Offset(k, blockSize)..Offset(k, blockSize) + n])
    {
      CellsSize();
      FlatSlice(Cells(), blockSize, k, 0, n);
      assert Cells()[k][0..n] == Cell(k)[..n];
      assert Published(lun.ids[k]);
      assert Zeros(blockSize)[..n] == Zeros(n);
      hide Flat;
      ok := store.GetBlock(lun.ids[k], buf, lo, n);
    }

    method ReadNext(buf: array<Byte>, block: nat, i: nat, bufStart: nat, ghost disk: seq<Byte>, ghost pos: nat)
      requires Valid() && bufStart == Offset(i, blockSize) && bufStart + blockSize <= buf.Length && disk == Contents()
      requires pos == Offset(block, blockSize) && pos + buf.Length <= |disk| == Offset(lun.ids.Length, blockSize)
      requires buf[..bufStart] == disk[pos..pos + bufStart]
      modifies buf
      ensures buf[..bufStart + blockSize] == disk[pos..pos + bufStart + blockSize]
      ensures buf[bufStart + blockSize..] == old(buf[bufStart + blockSize..])
    {
      assert blockSize > 0;
      hide Valid, Contents, Offset, Overwrite;
      OffsetSum(block, i, blockSize);
      BlockInside(block + i, lun.ids.Length, blockSize);
      ghost var before := buf[..];
      assert before[..bufStart] == buf[..bufStart];
      var ok := ReadBlock(block + i, buf, bufStart, blockSize);
      ReadMore(disk, pos, before, buf[..], bufStart, blockSize);
      assert buf[..bufStart + blockSize] == buf[..][..bufStart + blockSize];
      assert buf[bufStart + blockSize..] == buf[..][bufStart + blockSize..];
      assert before[bufStart + blockSize..] == old(buf[bufStart + blockSize..]);
    }

    /** dedupdisk.go:56-110. A read returns the flat disk's bytes from the block that holds `pos` on, and
        leaves the last part of a block alone. An empty read at the very end of the disk would panic. */
    method ReadAt(buf: array<Byte>, pos: int) returns (count: int, err: Err)
      requires Valid() && (buf.Length == 0 ==> pos < Offset(lun.ids.Length, blockSize))
      modifies buf
      ensures closed ==> count == -1 && err == Shutdown
      ensures !closed && pos < 0 ==> count == 0 && err == OutOfBounds
      ensures !closed && pos >= 0 && pos + buf.Length > Offset(lun.ids.Length, blockSize) ==> count == 0 && err == Eof
      ensures !closed && pos >= 0 && pos + buf.Length <= Offset(lun.ids.Length, blockSize) ==>
                var at := Whole(pos, blockSize);
                var n := if buf.Length <= blockSize then buf.Length else Whole(buf.Length, blockSize);
                && err == Ok && count == buf.Length && n <= buf.Length && at + n <= |Contents()|
                && buf[..n] == Contents()[at..at + n] && buf[n..] == old(buf[n..])
      ensures err == Ok && pos % blockSize == 0 && buf.Length % blockSize == 0 ==>
                pos + buf.Length <= |Contents()| && buf[..] == Contents()[pos..pos + buf.Length]
      ensures err != Ok ==> buf[..] == old(buf[..])
    {
      CellsSize();
      if closed {
        return -1, Shutdown;
      }
      var readSize := buf.Length;
      if pos < 0 {
        return 0, OutOfBounds;
      }
      if pos + readSize > Offset(lun.ids.Length, blockSize) {
        return 0, Eof;
      }
      var block := pos / blockSize;
      BlockStart(pos, blockSize);
      WholeBlocks(pos, blockSize);
      WholeBlocks(readSize, blockSize);
      assert Whole(pos, blockSize) == Offset(block, blockSize);
      hide Valid, Contents, Offset, Whole;
      if readSize > blockSize {
        ReadMany(buf, block);
      } else {
        BlockInside(block, lun.ids.Length, blockSize);
        var ok := ReadBlock(block, buf, 0, readSize);
        assert buf[..] == buf[..readSize];
      }
      assert buf[..] == buf[..readSize];
      return readSize, Ok;
    }

    /** dedupdisk.go:72-98. */
    method ReadMany(buf: array<Byte>, block: nat)
      requires Valid() && blockSize > 0 && Offset(block, blockSize) + buf.Length <= Offset(lun.ids.Length, blockSize)
      modifies buf
      ensures var at, n := Offset(block, blockSize), Whole(buf.Length, blockSize);
              && at + n <= |Contents()| && buf[..n] == Contents()[at..at + n] && buf[n..] == old(buf[n..])
    {
      CellsSize();
      BlockStart(buf.Length, blockSize);
      assert Offset(0, blockSize) == 0;
      ghost var disk, at := Contents(), Offset(block, blockSize);
      hide Valid, Contents, Offset;
      var blockc := buf.Length / blockSize;
      var i, bufStart := 0, 0;
      while i < blockc
        invariant 0 <= i <= blockc && bufStart == Offset(i, blockSize) && bufStart <= buf.Length && Valid()
                  && Contents() == disk
        invariant buf[..bufStart] == disk[at..at + bufStart] && buf[bufStart..] == old(buf[bufStart..])
      {
        OffsetOrder(i, blockc, blockSize);
        ghost var rest := buf[bufStart..];
        assert rest[blockSize..] == buf[bufStart + blockSize..]
               && old(buf[bufStart..])[blockSize..] == old(buf[bufStart + blockSize..]);
        ReadNext(buf, block, i, bufStart, disk, at);
        OffsetNext(i, blockSize);
        i := i + 1;
        bufStart := bufStart + blockSize;
      }
    }
  }

  lemma ReadMore(disk: seq<Byte>, pos: nat, before: seq<Byte>, after: seq<Byte>, n: nat, blockSize: nat)
    requires n + blockSize <= |before| && pos + n + blockSize <= |disk| && before[..n] == disk[pos..pos + n]
    requires after == Overwrite(before, n, disk[pos + n..pos + n + blockSize])
    ensures after[..n + blockSize] == disk[pos..pos + n + blockSize]
            && after[n + blockSize..] == before[n + blockSize..]
  {
    forall j | 0 <= j < n ensures after[j] == disk[pos + j] {
      assert before[..n][j] == disk[pos..pos + n][j];
    }
  }

  lemma NothingWritten(disk: seq<Byte>, at: nat, buf: seq<Byte>)
    requires at <= |disk|
    ensures Overwrite(disk, at, buf[..0]) == disk
  {}

  lemma OneMoreBlock(disk: seq<Byte>, at: nat, buf: seq<Byte>, n: nat, blockSize: nat)
    requires n + blockSize <= |buf| && at + |buf| <= |disk|
    ensures Overwrite(Overwrite(disk, at, buf[..n]), at + n, buf[n..n + blockSize]) ==
              Overwrite(disk, at, buf[..n + blockSize])
  {
    OverwriteTwice(disk, at, buf[..n], buf[n..n + blockSize]);
    assert buf[..n] + buf[n..n + blockSize] == buf[..n + blockSize];
  }

  lemma BlockStart(pos: nat, blockSize: nat)
    requires blockSize > 0
    ensures Offset(pos / blockSize, blockSize) <= pos < Offset(pos / blockSize, blockSize) + blockSize
  {}

  lemma WholeBlocks(n: nat, blockSize: nat)
    requires blockSize > 0
    ensures n % blockSize == 0 ==> Whole(n, blockSize) == n
  {}

  lemma WholeBlock(n: nat, blockSize: nat)
    requires blockSize > 0
    ensures n < blockSize ==> Offset(n / blockSize, blockSize) == 0
    ensures n == blockSize ==> n / blockSize == 1 && Offset(1, blockSize) == blockSize
  {}

  lemma BlockInside(block: nat, n: nat, blockSize: nat)
    requires blockSize > 0 && Offset(block, blockSize) < Offset(n, blockSize)
    ensures block < n
  {
    if n < block {
      OffsetOrder(n, block, blockSize);
    }
  }

  lemma OffsetSum(a: nat, b: nat, blockSize: nat)
    ensures Offset(a + b, blockSize) == Offset(a, blockSize) + Offset(b, blockSize)
  {}
}
