/** A segment of an object-store device, used by one thread at a time: segment.go over storeparams.go.
    The container is a map from segment IDs to objects; a `Put` may fail at any time. */
module ObjSegment {
  import opened Bytes
  import opened Options
  import SparseCopy

  datatype Err = Ok | Capacity | UploadFailed | Eof | Shutdown | NoVictim | Rejected

  /** storeParams: the container and the quota semaphore (unlimited when there is no quota). */
  class Store {
    const size: nat           // segmentBytes
    const thick: bool
    const limited: bool
    const slots: nat
    var free: nat
    var objects: map<nat, seq<Byte>>
    ghost var failures: nat   // uploads that have failed

    constructor (size: nat, thick: bool, limited: bool, slots: nat, objects: map<nat, seq<Byte>>)
      ensures this.size == size && this.thick == thick && this.limited == limited && this.slots == slots
      ensures free == slots && this.objects == objects
    {
      this.size, this.thick, this.limited, this.slots := size, thick, limited, slots;
      this.free, this.objects, this.failures := slots, objects, 0;
    }

    method ClaimCapacity() returns (ok: bool)
      modifies this`free
      ensures ok == (limited ==> old(free) > 0)
      ensures free == if limited && ok then old(free) - 1 else old(free)
    {
      ok := !limited || free > 0;
      if limited && ok {
        free := free - 1;
      }
    }

    /** A release that over-fills the semaphore would panic. */
    method ReleaseCapacity()
      requires limited ==> free < slots
      modifies this`free
      ensures free == if limited then old(free) + 1 else old(free)
    {
      if limited {
        free := free + 1;
      }
    }

    /** Container.Put of `size` bytes. One that reports a failure may have stored the object all the same. */
    method Put(id: nat, data: seq<Byte>) returns (ok: bool)
      requires size <= |data|
      modifies this`objects, this`failures
      ensures objects == old(objects) || objects == old(objects)[id := data[..size]]
      ensures ok ==> id in objects && objects[id] == data[..size]
      ensures failures == old(failures) + if ok then 0 else 1
    {
      ok := *;
      failures := failures + if ok then 0 else 1;
      var stored: bool := *;
      if ok || stored {
        objects := objects[id := data[..size]];
      }
    }
  }

  /** Only the object `id` may have changed. */
  ghost predicate OnlyObject(id: nat, was: map<nat, seq<Byte>>, now: map<nat, seq<Byte>>) {
    forall j :: j != id ==> (j in now <==> j in was) && (j in now ==> now[j] == was[j])
  }

  /** What is wrong with a segment that counts as clean and has no remote item. `stranded`: its local
      file is the only place that has its data. `unsettled`: its file or the container holds something. */
  datatype Risk = Risk(stranded: bool, unsettled: bool)
  {
    predicate NoWorse(was: Risk) {
      (stranded ==> was.stranded) && (unsettled ==> was.unsettled)
    }
  }

  class Segment {
    const id: nat
    const store: Store
    var localFile: Option<seq<Byte>>
    var remoteItem: bool
    var dirty: bool
    var backed: bool
    var lastRead: nat         // 0: never
    var lastWrite: nat

    constructor (id: nat, store: Store)
      ensures this.id == id && this.store == store && localFile.None? && !remoteItem && !dirty && !backed
      ensures lastRead == 0 && lastWrite == 0
    {
      this.id, this.store := id, store;
      localFile, remoteItem, dirty, backed, lastRead, lastWrite := None, false, false, false, 0, 0;
    }

    ghost function Remote(): seq<Byte>
      reads this, store
    {
      if remoteItem && id in store.objects then store.objects[id] else Zeros(store.size)
    }

    /** The bytes of the segment, wherever they are. */
    ghost function Contents(): seq<Byte>
      reads this, store
    {
      if localFile.Some? && store.size <= |localFile.value| then localFile.value[..store.size] else Remote()
    }

    /** What a newly opened device would find. */
    ghost function Object(): seq<Byte>
      reads this, store
    {
      if id in store.objects then store.objects[id] else Zeros(store.size)
    }

    ghost predicate Valid()
      reads this, store
    {
      && (id in store.objects ==> |store.objects[id]| == store.size) && (remoteItem ==> id in store.objects)
      && (localFile.Some? ==> store.size <= |localFile.value| <= store.size + 1)
      && (localFile.Some? && store.thick ==> |localFile.value| == store.size)
      && backed == localFile.Some? && (localFile.None? ==> !dirty)
      && (!dirty && remoteItem ==> Remote() == Contents())
      && store.size > 0
    }

    /** Loaded, clean and without a remote item, as a failed upload leaves it, with data to lose. */
    ghost predicate Stranded()
      reads this, store
    {
      localFile.Some? && !dirty && !remoteItem && !IsZeros(Contents())
    }

    /** Clean and without a remote item, but there is something in the file or in the container. */
    ghost predicate Unsettled()
      reads this, store
    {
      !dirty && !remoteItem && (id in store.objects || !IsZeros(Contents()))
    }

    ghost function AtRisk(): Risk
      reads this, store
    {
      Risk(Stranded(), Unsettled())
    }

    /** The container has what a segment that is neither dirty nor unsettled shows. */
    lemma {:induction false} SettledIsStored()
      requires Valid() && !dirty && !Unsettled()
      ensures Object() == Contents()
    {
      if !remoteItem {
        assert |Contents()| == store.size;
        assert Contents() == Zeros(store.size);
      }
    }

    /** Whether a load needs a slot: the file is missing, and there is something to load or create. */
    predicate NeedsSlot(createWrite: bool)
      reads this
    {
      localFile.None? && (remoteItem || createWrite)
    }

    /** The local file that a load makes. */
    ghost function LoadedFile(): (f: seq<Byte>)
      requires Valid()
      reads this, store
      ensures |f| == store.size || (|f| == store.size + 1 && !store.thick && remoteItem)
    {
      if !remoteItem then Zeros(store.size)
      else if store.thick then store.objects[id] else SparseCopy.Image(store.objects[id])
    }

    /** segment.go:137-170 with createFile and downloadFile. Loading is invisible. */
    method LoadFile(createWrite: bool) returns (err: Err)
      requires Valid()
      modifies this`localFile, this`backed, store`free
      ensures Valid() && Contents() == old(Contents())
      ensures err == if old(NeedsSlot(createWrite)) && store.limited && old(store.free) == 0 then Capacity else Ok
      ensures err == Ok && old(NeedsSlot(createWrite)) ==>
                localFile == Some(old(LoadedFile()))
                  && store.free == if store.limited then old(store.free) - 1 else old(store.free)
      ensures err != Ok || !old(NeedsSlot(createWrite)) ==> localFile == old(localFile) && store.free == old(store.free)
      ensures err == Ok && createWrite ==> localFile.Some?
    {
      if localFile.Some? {
        return Ok;
      }
      if !remoteItem {
        if !createWrite {
          return Ok;
        }
        var ok := store.ClaimCapacity();
        if !ok {
          return Capacity;
        }
        localFile := Some(Zeros(store.size));
      } else {
        var ok := store.ClaimCapacity();
        if !ok {
          return Capacity;
        }
        var data := Download(store.objects[id]);
        localFile := Some(data);
      }
      backed := true;
      return Ok;
    }

    /** storeparams.go:106-134. A sparse download that does not end in zero is one byte too long. */
    method Download(object': seq<Byte>) returns (data: seq<Byte>)
      ensures data == if store.thick then object' else SparseCopy.Image(object')
    {
      if store.thick {
        return object';
      }
      var file := new SparseCopy.File();
      var n, ok := SparseCopy.Copy(file, object', false);
      data := file.data;
    }

    /** How far the segment can be read: a sparse download may be one byte too long. */
    ghost function Extent(): nat
      reads this
    {
      if localFile.Some? then |localFile.value| else store.size
    }

    /** segment.go:85-107, into `buf[lo..hi]`. A position past the segment would panic. */
    method ReadAt(buf: array<Byte>, lo: nat, hi: nat, pos: nat, now: nat) returns (count: nat, err: Err)
      requires Valid() && lo <= hi <= buf.Length && pos <= store.size
      modifies this`localFile, this`backed, this`lastRead, store`free, buf
      ensures Valid() && Contents() == old(Contents()) && lastRead == now
      ensures err == Capacity <==> old(NeedsSlot(false)) && store.limited && old(store.free) == 0
      ensures err != Capacity ==> err == if pos + (hi - lo) <= Extent() then Ok else Eof
      ensures err != Capacity && old(NeedsSlot(false)) ==>
                localFile.Some? && store.free == if store.limited then old(store.free) - 1 else old(store.free)
      ensures err == Capacity || !old(NeedsSlot(false)) ==> localFile == old(localFile) && store.free == old(store.free)
      ensures !remoteItem && old(localFile.None?) ==>
                localFile.None? && err == (if pos + (hi - lo) <= store.size then Ok else Eof)
      ensures count == if err == Capacity then 0 else if err == Ok then hi - lo else Extent() - pos
      ensures pos + count <= store.size ==> buf[..] == Overwrite(old(buf[..]), lo, Contents()[pos..pos + count])
      ensures pos + count > store.size ==>
                buf[..lo] == old(buf[..lo]) && buf[lo..lo + (store.size - pos)] == Contents()[pos..]
    {
      lastRead := now;
      count := 0;
      err := LoadFile(false);
      if err != Ok {
        assert |Contents()| == store.size;
        assert Overwrite(buf[..], lo, Contents()[pos..pos]) == buf[..];
        return;
      }
      hide Contents, Overwrite;
      count, err := ReadFile(buf, lo, hi, pos);
    }

    /** segment.go:93-106: from the local file, or zeros if there is none. */
    method ReadFile(buf: array<Byte>, lo: nat, hi: nat, pos: nat) returns (count: nat, err: Err)
      requires Valid() && (localFile.None? ==> !remoteItem) && lo <= hi <= buf.Length && pos <= store.size
      modifies buf
      ensures err == if pos + (hi - lo) <= Extent() then Ok else Eof
      ensures count == if err == Ok then hi - lo else Extent() - pos
      ensures |Contents()| == store.size
      ensures pos + count <= store.size ==> buf[..] == Overwrite(old(buf[..]), lo, Contents()[pos..pos + count])
      ensures pos + count > store.size ==>
                buf[..lo] == old(buf[..lo]) && buf[lo..lo + (store.size - pos)] == Contents()[pos..]
    {
      err := Ok;
      var end := if localFile.None? then store.size else |localFile.value|;
      count := hi - lo;
      if pos + count > end {
        count, err := end - pos, Eof;
      }
      var bytes := if localFile.None? then Zeros(count) else localFile.value[pos..pos + count];
      ReadBytes(pos, count);
      hide Contents, Valid, Overwrite;
      Fill(buf, lo, bytes);
      FilledPrefix(buf[..], old(buf[..]), lo, bytes);
    }

    /** The bytes that a read takes from the file, or makes up, are the contents. */
    lemma ReadBytes(pos: nat, count: nat)
      requires Valid() && (localFile.None? ==> !remoteItem) && pos <= store.size && pos + count <= Extent()
      ensures |Contents()| == store.size
      ensures var bytes := if localFile.None? then Zeros(count) else localFile.value[pos..pos + count];
              if pos + count <= store.size then bytes == Contents()[pos..pos + count]
                else bytes[..store.size - pos] == Contents()[pos..]
    {}

    static lemma FilledPrefix(now: seq<Byte>, was: seq<Byte>, lo: nat, bytes: seq<Byte>)
      requires lo + |bytes| <= |was| && now == Overwrite(was, lo, bytes)
      ensures now[..lo] == was[..lo] && forall n :: 0 <= n <= |bytes| ==> now[lo..lo + n] == bytes[..n]
    {}


    static method Fill(buf: array<Byte>, lo: nat, bytes: seq<Byte>)
      requires lo + |bytes| <= buf.Length
      modifies buf
      ensures buf[..] == Overwrite(old(buf[..]), lo, bytes)
    {
      forall k | lo <= k < lo + |bytes| {
        buf[k] := bytes[k - lo];
      }
    }

    /** The zero-write shortcut is taken: nothing is stored. */
    predicate Dropped(buf: seq<Byte>)
      reads this
    {
      IsZeros(buf) && localFile.None?
    }

    /** segment.go:111-134. The write takes effect exactly when the shortcut is not taken, or finds
        zeros there already. */
    method WriteAt(buf: seq<Byte>, pos: nat, now: nat) returns (count: nat, err: Err)
      requires Valid() && pos + |buf| <= store.size
      modifies this`localFile, this`backed, this`lastWrite, this`dirty, store`free
      ensures Valid() && lastWrite == now
      ensures err == (if !old(Dropped(buf)) && old(localFile.None?) && store.limited && old(store.free) == 0
                      then Capacity else Ok)
      ensures count == if err == Ok then |buf| else 0
      ensures err == Ok ==>
                Contents() == if old(Dropped(buf)) then old(Contents()) else Overwrite(old(Contents()), pos, buf)
      ensures err == Ok ==> (Contents() == Overwrite(old(Contents()), pos, buf) <==>
                             !(old(Dropped(buf)) && !IsZeros(old(Contents())[pos..pos + |buf|])))
      ensures err == Ok && !old(Dropped(buf)) ==>
                localFile == Some(Overwrite(old(if localFile.Some? then localFile.value else LoadedFile()), pos, buf))
      ensures dirty == (old(dirty) || (err == Ok && !old(Dropped(buf)) && |buf| > 0))
      ensures err == Ok && !old(Dropped(buf)) && old(localFile.None?) ==>
                store.free == if store.limited then old(store.free) - 1 else old(store.free)
      ensures err != Ok ==> Contents() == old(Contents())
      ensures err != Ok || old(Dropped(buf)) || old(localFile.Some?) ==>
                localFile.Some? == old(localFile.Some?) && store.free == old(store.free)
    {
      lastWrite := now;
      if IsZeros(buf) {
        ZerosOverZeros(Contents(), pos, buf);
        if localFile.None? {
          return |buf|, Ok;
        }
      }
      count := 0;
      err := LoadFile(true);
      if err != Ok {
        return;
      }
      ghost var before := Contents();
      var file := localFile.value;
      localFile := Some(Overwrite(file, pos, buf));
      assert Overwrite(file, pos, buf)[..store.size] == Overwrite(before, pos, buf);
      count := |buf|;
      if count > 0 {
        dirty := true;
      } else {
        assert Overwrite(before, pos, buf) == before;
      }
    }

    /** segment.go:175-201 with syncFile. `buffered`: the caller lent a large enough buffer. A buffered
        flush of a file that is one byte too long always fails; either way the dirty flag is gone. */
    method Flush(buffered: bool) returns (err: Err)
      requires Valid()
      modifies this`dirty, this`remoteItem, store`objects, store`failures
      ensures Valid() && Contents() == old(Contents()) && !dirty && OnlyObject(id, old(store.objects), store.objects)
      ensures err == Ok ==> (Remote() == Contents() <==> !old(Stranded()))
      ensures err == Ok ==> AtRisk().NoWorse(old(AtRisk())) && (Stranded() <==> old(Stranded()))
      ensures err == Ok && old(dirty) ==> Object() == Contents()
      ensures err != Ok ==> err == UploadFailed && (Stranded() <==> !IsZeros(Contents()))
      ensures !old(dirty) ==> err == Ok && remoteItem == old(remoteItem) && store.objects == old(store.objects)
      ensures old(dirty) ==> remoteItem == (err == Ok)
      ensures old(dirty) && buffered && |localFile.value| != store.size ==> err == UploadFailed
      ensures store.failures == old(store.failures) +
                if err == Ok || (buffered && |localFile.value| != store.size) then 0 else 1
    {
      if !remoteItem {
        NoneMeansZeros();
      }
      if !dirty {
        return Ok;
      }
      dirty := false;
      var ok := false;
      if !buffered || |localFile.value| == store.size {
        ok := store.Put(id, localFile.value);
      }
      remoteItem := ok;
      return if ok then Ok else UploadFailed;
    }

    /** Without a remote item there is nothing but zeros to load. */
    lemma NoneMeansZeros()
      requires Valid() && !remoteItem
      ensures Remote() == Contents() <==> IsZeros(Contents())
    {
      assert IsZeros(Contents()) ==> Contents() == Zeros(store.size);
    }

    /** segment.go:204-226: eviction. It changes the contents if and only if they are stranded. */
    method DeleteFile() returns (err: Err)
      requires Valid() && (store.limited && backed ==> store.free < store.slots)
      modifies this`dirty, this`remoteItem, this`localFile, this`backed, store
      ensures Valid() && OnlyObject(id, old(store.objects), store.objects)
      ensures err == Ok ==> localFile.None? && AtRisk().NoWorse(old(AtRisk()))
      ensures !old(dirty) ==> err == Ok && remoteItem == old(remoteItem) && store.objects == old(store.objects)
      ensures err == Ok ==> Contents() == if old(Stranded()) then Zeros(store.size) else old(Contents())
      ensures err == Ok ==> (Contents() == old(Contents()) <==> !old(Stranded()))
      ensures err == Ok ==> store.free == if store.limited && old(backed) then old(store.free) + 1 else old(store.free)
      ensures err != Ok ==> err == UploadFailed && Contents() == old(Contents())
      ensures err != Ok ==> localFile == old(localFile) && store.free == old(store.free)
      ensures store.failures == old(store.failures) + if err == Ok then 0 else 1
    {
      if !backed {
        return Ok;
      }
      err := Flush(false);
      if err != Ok {
        return;
      }
      backed := false;
      localFile := None;
      store.ReleaseCapacity();
    }
  }

  // ---------------------------------------------------------------- where the code departs from its intent

  /** An all-zero write to an evicted segment is acknowledged and lost. */
  method ZeroWriteIsLost() returns (written: Err, readBack: Byte)
    ensures written == Ok && readBack == 7
  {
    var store := new Store(1, true, false, 0, map[0 := [7]]);
    var seg := new Segment(0, store);
    seg.remoteItem := true;
    var count;
    count, written := seg.WriteAt([0], 0, 1);
    var buf := new Byte[1];
    var n, err := seg.ReadAt(buf, 0, 1, 0, 2);
    assert buf[..][0] == 7;
    readBack := buf[0];
  }

  /** A downloaded sparse file that does not end in zero cannot be flushed through a buffer; after the
      failure the segment counts as clean, so an eviction throws the written byte away. */
  method FailedFlushLosesData() returns (written: Err, flushed: Err, evicted: Err, readBack: Byte)
    ensures written == Ok && flushed == UploadFailed && evicted == Ok && readBack == 0
  {
    var store := new Store(1, false, false, 0, map[0 := [7]]);
    var seg := new Segment(0, store);
    seg.remoteItem := true;
    var count;
    assert |seg.LoadedFile()| == 2;
    count, written := seg.WriteAt([9], 0, 1);
    flushed := seg.Flush(true);
    evicted := seg.DeleteFile();
    var buf := new Byte[1];
    var n, err := seg.ReadAt(buf, 0, 1, 0, 2);
    assert buf[..][0] == 0;
    readBack := buf[0];
  }
}
