/** The three stores behind the dedup disk, used by one thread at a time. */
module DedupStores {
  import opened Bytes
  import opened Options

  const ZERO_BLOCK_ID: nat := 0xFFFF_FFFF_FFFF_FFFF
  const MAX_OFFSET: nat := 0x7FFF_FFFF_FFFF_FFFF

  type Block = seq<Byte>

  /** No two of these blocks share a hash. */
  ghost predicate CollisionFree(hash: Block -> nat, blocks: set<Block>) {
    forall a, b :: a in blocks && b in blocks && hash(a) == hash(b) ==> a == b
  }

  /** Where block `id` lies in the file. */
  function Offset(id: nat, blockSize: nat): nat {
    id * blockSize
  }

  lemma OffsetNext(id: nat, blockSize: nat)
    ensures Offset(id + 1, blockSize) == Offset(id, blockSize) + blockSize
  {}

  lemma {:induction false} OffsetOrder(i: nat, j: nat, blockSize: nat)
    requires i < j
    ensures Offset(i, blockSize) + blockSize <= Offset(j, blockSize)
    decreases j
  {
    if i + 1 < j {
      OffsetOrder(i, j - 1, blockSize);
    }
    OffsetNext(j - 1, blockSize);
  }

  /** A file after a write at `pos`, stretched with zeros if need be. */
  function WriteAt(file: seq<Byte>, pos: nat, data: seq<Byte>): (r: seq<Byte>)
    ensures |r| == if |file| < pos + |data| then pos + |data| else |file|
    ensures forall i :: 0 <= i < |r| ==>
              r[i] == if pos <= i < pos + |data| then data[i - pos] else if i < |file| then file[i] else 0
  {
    var padded := if |file| < pos + |data| then file + Zeros(pos + |data| - |file|) else file;
    Overwrite(padded, pos, data)
  }

  /** fileBlockStore: blocks are appended and never change. */
  class FileBlockStore {
    const blockSize: nat
    var file: seq<Byte>
    var nextID: nat
    var nextPos: nat

    /** fileblkstore.go:30-48. `nextID` is restored from an existing file, `nextPos` is not: the store
        is ready for use exactly when the file holds no block yet. */
    constructor (blockSize: nat, file: seq<Byte>)
      requires blockSize > 0
      ensures this.blockSize == blockSize && this.file == file && nextID == |file| / blockSize && nextPos == 0
      ensures Aligned() <==> |file| < blockSize
    {
      this.blockSize, this.file, this.nextID, this.nextPos := blockSize, file, |file| / blockSize, 0;
      new;
      if |file| >= blockSize {
        assert |file| / blockSize >= 1;
        OffsetOrder(0, nextID, blockSize);
      }
    }

    /** The next block goes where its ID says. */
    ghost predicate Aligned()
      reads this
    {
      nextPos == Offset(nextID, blockSize)
    }

    predicate Has(id: nat)
      reads this
    {
      id < nextID && Offset(id, blockSize) + blockSize <= |file|
    }

    function At(id: nat): (b: Block)
      requires Has(id)
      reads this
      ensures |b| == blockSize
    {
      file[Offset(id, blockSize)..Offset(id, blockSize) + blockSize]
    }

    /** fileblkstore.go:50-66: the first `n` bytes of a block, into `buf[lo..lo + n]`. Reading past the
        file is an error. */
    method GetBlock(id: nat, buf: array<Byte>, lo: nat, n: nat) returns (ok: bool)
      requires lo + n <= buf.Length && n <= blockSize
      modifies buf
      ensures id == ZERO_BLOCK_ID ==> ok && buf[..] == Overwrite(old(buf[..]), lo, Zeros(n))
      ensures id != ZERO_BLOCK_ID && Has(id) ==> ok && buf[..] == Overwrite(old(buf[..]), lo, At(id)[..n])
      ensures id != ZERO_BLOCK_ID ==> ok == (Offset(id, blockSize) + n <= |file|)
      ensures !ok ==> buf[..] == old(buf[..])
    {
      var pos := Offset(id, blockSize);
      if id != ZERO_BLOCK_ID && pos + n > |file| {
        return false;
      }
      var bytes := if id == ZERO_BLOCK_ID then Zeros(n) else file[pos..pos + n];
      forall k | lo <= k < lo + n {
        buf[k] := bytes[k - lo];
      }
      assert id != ZERO_BLOCK_ID && Has(id) ==> bytes == At(id)[..n];
      return true;
    }

    /** fileblkstore.go:68-92. A write may fail; a file offset past the int64 range always does. */
    method PutBlock(buf: Block) returns (id: nat, ok: bool)
      requires blockSize > 0 && |buf| == blockSize
      modifies this
      ensures nextID == old(nextID) + 1 && nextPos == old(nextPos) + blockSize && id == old(nextID)
      ensures file == if ok then WriteAt(old(file), old(nextPos), buf) else old(file)
      ensures old(Aligned()) ==> Aligned() && (ok ==> id < ZERO_BLOCK_ID && Has(id) && At(id) == buf)
      ensures old(Aligned()) ==> forall i :: old(Has(i)) ==> Has(i) && At(i) == old(At(i))
    {
      var pos := nextPos;
      id := nextID;
      nextPos := nextPos + blockSize;
      nextID := nextID + 1;
      OffsetNext(id, blockSize);
      ok := *;
      if pos > MAX_OFFSET {
        ok := false;
      }
      if ok {
        IdBelowOffset(id, blockSize);
        file := WriteAt(file, pos, buf);
        if old(Aligned()) {
          assert At(id) == buf;
          forall i | old(Has(i)) ensures Has(i) && At(i) == old(At(i)) {
            OffsetOrder(i, id, blockSize);
          }
        }
      }
    }
  }

  /** A store that is reopened on a file with blocks overwrites its first block, and the ID it hands
      out points past the end of the file. */
  method ReopenedStoreOverwrites(blockSize: nat, file: seq<Byte>, buf: Block)
    returns (store: FileBlockStore, id: nat, ok: bool)
    requires blockSize > 0 && |file| >= blockSize && |buf| == blockSize
    ensures ok ==> store.Has(0) && store.At(0) == buf && !store.Has(id)
  {
    store := new FileBlockStore(blockSize, file);
    id, ok := store.PutBlock(buf);
    if ok {
      PastTheEnd(|file|, blockSize);
      assert store.At(0) == buf;
    }
  }

  lemma PastTheEnd(n: nat, blockSize: nat)
    requires blockSize > 0
    ensures n < Offset(n / blockSize, blockSize) + blockSize
  {}

  /** pebbleIDStore: from block hashes to IDs. A put may be lost without notice. */
  class IDStore {
    const hash: Block -> nat
    var db: map<nat, nat>

    constructor (hash: Block -> nat)
      ensures this.hash == hash && db == map[]
    {
      this.hash, db := hash, map[];
    }

    /** The ID under which a block is known. */
    ghost function Lookup(block: Block): Option<nat>
      reads this
    {
      if IsZeros(block) then Some(ZERO_BLOCK_ID) else if hash(block) in db then Some(db[hash(block)]) else None
    }

    /** pebbleidstore.go:52-76. The database is not asked for a zero block; otherwise it may fail. */
    method GetID(block: Block) returns (id: nat, h: nat, found: bool, ok: bool)
      ensures IsZeros(block) ==> ok && found
      ensures ok ==> Lookup(block) == if found then Some(id) else None
      ensures ok && !found ==> h == hash(block)
    {
      if IsZeros(block) {
        return ZERO_BLOCK_ID, 0, true, true;
      }
      h := hash(block);
      found := h in db;
      id := if found then db[h] else 0;
      ok := *;
    }

    /** pebbleidstore.go:78-85; dedupdisk.go:167 ignores its error. After a put that worked, exactly the
        blocks with this hash are known under the new ID, and every other block is known as before. */
    method PutID(h: nat, id: nat) returns (ok: bool)
      modifies this
      ensures ok ==> forall b: Block :: Lookup(b) == if !IsZeros(b) && hash(b) == h then Some(id) else old(Lookup(b))
      ensures db == if ok then old(db)[h := id] else old(db)
    {
      ok := *;
      if ok {
        db := db[h := id];
      }
    }
  }

  lemma {:induction false} IdBelowOffset(id: nat, blockSize: nat)
    requires blockSize > 0
    ensures id <= Offset(id, blockSize)
  {
    if id > 0 {
      IdBelowOffset(id - 1, blockSize);
      OffsetNext(id - 1, blockSize);
    }
  }
}
