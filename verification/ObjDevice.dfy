/** The object-store device used by one thread at a time: device.go over its segments. */
module ObjDevice {
  import opened Bytes
  import opened Join
  import opened ObjSegment
  import opened Options

  const MAX_CAP_TRIES := 10

  function Count(flags: seq<bool>): nat {
    if flags == [] then 0 else (if flags[0] then 1 else 0) + Count(flags[1..])
  }

  lemma {:induction false} CountUpdate(flags: seq<bool>, k: nat, b: bool)
    requires k < |flags|
    ensures Count(flags[k := b]) + (if flags[k] then 1 else 0) == Count(flags) + (if b then 1 else 0)
    decreases k
  {
    if k == 0 {
      assert flags[0 := b][1..] == flags[1..];
    } else {
      assert flags[k := b][1..] == flags[1..][k - 1 := b];
      CountUpdate(flags[1..], k - 1, b);
    }
  }

  lemma {:induction false} CountNone(flags: seq<bool>)
    requires forall i :: 0 <= i < |flags| ==> !flags[i]
    ensures Count(flags) == 0
  {
    if flags != [] {
      CountNone(flags[1..]);
    }
  }

  lemma {:induction false} CountAtLeast(flags: seq<bool>, k: nat)
    requires k < |flags| && flags[k]
    ensures Count(flags) > 0
    decreases k
  {
    if k > 0 {
      CountAtLeast(flags[1..], k - 1);
    }
  }

  /** What a completed access did: a read filled the buffer, a write changed segment `k` only, and not
      even that when the zero-write shortcut dropped it. */
  ghost predicate Accessed(readOp: bool, before: seq<seq<Byte>>, after: seq<seq<Byte>>, buf: seq<Byte>, buf': seq<Byte>,
                           k: nat, lo: nat, hi: nat, pos: nat, dropped: bool)
  {
    && k < |before| == |after| && lo <= hi <= |buf| && pos + (hi - lo) <= |before[k]|
    && if readOp then after == before && buf' == Overwrite(buf, lo, before[k][pos..pos + (hi - lo)])
       else buf' == buf && after == if dropped then before else before[k := Overwrite(before[k], pos, buf[lo..hi])]
  }

  /** The times after segment `k` was read or written at `now`. */
  ghost function Stamp(times: seq<(nat, nat)>, k: nat, readOp: bool, now: nat): (ts: seq<(nat, nat)>)
    requires k < |times|
    ensures |ts| == |times|
  {
    times[k := if readOp then (now, times[k].1) else (times[k].0, now)]
  }

  /** A local file is not of the segment's size, as a sparse download may leave it: storeparams.go:236-241. */
  ghost predicate SomeTooLong(files: seq<Option<seq<Byte>>>, size: nat) {
    exists i :: 0 <= i < |files| && files[i].Some? && |files[i].value| != size
  }

  ghost predicate CleanUpTo(i: nat, dirty: seq<bool>) {
    i <= |dirty| && forall k :: 0 <= k < i ==> !dirty[k]
  }

  /** What flushing the first `i` segments does to risks, objects and dirty flags; the rest stays. */
  ghost predicate FlushedUpTo(i: nat, risks': seq<Risk>, objects': seq<seq<Byte>>, dirty': seq<bool>,
                              cells: seq<seq<Byte>>, risks: seq<Risk>, objects: seq<seq<Byte>>, dirty: seq<bool>)
  {
    && |risks'| == |objects'| == |dirty'| == |cells| == |risks| == |objects| == |dirty| && i <= |cells|
    && (forall k :: i <= k < |cells| ==> risks'[k] == risks[k] && objects'[k] == objects[k] && dirty'[k] == dirty[k])
    && (forall k :: 0 <= k < i ==>
          && risks'[k].NoWorse(risks[k]) && risks'[k].stranded == risks[k].stranded
          && objects'[k] == if dirty[k] then cells[k] else objects[k])
  }

  lemma NothingFlushed(risks: seq<Risk>, objects: seq<seq<Byte>>, dirty: seq<bool>, cells: seq<seq<Byte>>)
    requires |risks| == |objects| == |dirty| == |cells|
    ensures FlushedUpTo(0, risks, objects, dirty, cells, risks, objects, dirty) && CleanUpTo(0, dirty)
  {}

  lemma OneMoreFlushed(i: nat, r: seq<Risk>, o: seq<seq<Byte>>, d: seq<bool>, r': seq<Risk>, o': seq<seq<Byte>>,
                       d': seq<bool>, cells: seq<seq<Byte>>, risks: seq<Risk>, objects: seq<seq<Byte>>,
                       dirty: seq<bool>)
    requires i < |r| == |r'| == |o| == |o'| == |d| == |d'|
    requires r' == r[i := r'[i]] && o' == o[i := o'[i]] && d' == d[i := false]
    ensures CleanUpTo(i, d) ==> CleanUpTo(i + 1, d')
    ensures FlushedUpTo(i, r, o, d, cells, risks, objects, dirty) && r'[i].NoWorse(r[i])
            && r'[i].stranded == r[i].stranded && o'[i] == (if d[i] then cells[i] else o[i]) ==>
              FlushedUpTo(i + 1, r', o', d', cells, risks, objects, dirty)
  {}

  lemma StampTwice(times: seq<(nat, nat)>, k: nat, readOp: bool, a: nat, b: nat)
    requires k < |times|
    ensures Stamp(Stamp(times, k, readOp, a), k, readOp, b) == Stamp(times, k, readOp, b)
  {}

  /** The segments from `lo` to `hi`, and no others, have been read or written since `since`. */
  ghost predicate Stamped(was: seq<(nat, nat)>, now: seq<(nat, nat)>, lo: nat, hi: nat, readOp: bool, since: nat) {
    && |was| == |now| && (forall i :: 0 <= i < |now| && !(lo <= i < hi) ==> now[i] == was[i])
    && (forall i :: 0 <= i < |now| && lo <= i < hi ==>
          if readOp then since <= now[i].0 && now[i].1 == was[i].1 else since <= now[i].1 && now[i].0 == was[i].0)
  }

  lemma StampedNext(was: seq<(nat, nat)>, now: seq<(nat, nat)>, lo: nat, k: nat, readOp: bool, since: nat, time: nat)
    requires Stamped(was, now, lo, k, readOp, since) && lo <= k < |now| && since <= time
    ensures Stamped(was, Stamp(now, k, readOp, time), lo, k + 1, readOp, since)
  {}

  lemma StampedOutside(was: seq<(nat, nat)>, now: seq<(nat, nat)>, lo: nat, k: nat, hi: nat, readOp: bool, since: nat)
    requires Stamped(was, now, lo, k, readOp, since) && (k <= hi || |now| <= hi)
    ensures |was| == |now| && forall i :: 0 <= i < |now| && !(lo <= i < hi) ==> now[i] == was[i]
  {}

  /** No segment is at more risk than before. */
  ghost predicate NoWorse(was: seq<Risk>, now: seq<Risk>) {
    |was| == |now| && forall i :: 0 <= i < |now| ==> now[i].NoWorse(was[i])
  }

  lemma NoWorseSame(now: seq<Risk>)
    ensures NoWorse(now, now)
  {}

  ghost predicate SafeRisks(risks: seq<Risk>, limited: bool) {
    !limited || NoneStranded(risks)
  }

  ghost predicate NoneStranded(risks: seq<Risk>) {
    forall i :: 0 <= i < |risks| ==> !risks[i].stranded
  }

  /** While no segment is stranded, none can be lost. */
  lemma StaySafe(was: seq<Risk>, now: seq<Risk>, lost: set<nat>, limited: bool)
    requires NoWorse(was, now) && SafeRisks(was, limited)
    requires forall i :: i in lost ==> i < |was| && limited && was[i].stranded
    ensures SafeRisks(now, limited) && lost == {}
  {
    assert forall i :: i !in lost;
  }

  lemma NoWorseLost(was: seq<Risk>, now: seq<Risk>, lost: set<nat>)
    requires NoWorse(was, now) && forall i :: i in lost ==> i < |now| && now[i].stranded
    ensures |was| == |now| && forall i :: i in lost ==> was[i].stranded
  {}

  lemma NoWorseTwice(a: seq<Risk>, b: seq<Risk>, c: seq<Risk>)
    requires NoWorse(a, b) && NoWorse(b, c)
    ensures NoWorse(a, c)
  {}

  /** The cells after the segments `lost` have forgotten what they held. */
  ghost function Without(cells: seq<seq<Byte>>, lost: set<nat>, size: nat): (cs: seq<seq<Byte>>)
    ensures |cs| == |cells|
  {
    seq(|cells|, i requires 0 <= i < |cells| => if i in lost then Zeros(size) else cells[i])
  }

  lemma WithoutOne(cells: seq<seq<Byte>>, k: nat, size: nat)
    requires k < |cells|
    ensures Without(cells, {k}, size) == cells[k := Zeros(size)] && Without(cells, {}, size) == cells
  {}

  /** How many of the segments from `lo` to `hi` are not loaded. */
  ghost function Missing(loaded: seq<bool>, lo: nat, hi: nat): nat
    requires hi <= |loaded|
    decreases hi - lo
  {
    if lo >= hi then 0 else (if loaded[lo] then 0 else 1) + Missing(loaded, lo + 1, hi)
  }

  /** The loads of a request find free slots, so that nothing is evicted. */
  ghost predicate Fits(at: nat, len: nat, size: nat, loaded: seq<bool>, limited: bool, free: nat)
    requires size > 0
  {
    !limited || Missing(loaded, SegmentOf(at, size), LastTouched(at, len, size, |loaded|)) <= free
  }

  /** The segments from `k` on are loaded as they were, but for evictions, if there are any. */
  ghost predicate NotLoadedMore(k: nat, now: seq<bool>, loaded: seq<bool>, evicts: bool) {
    && |loaded| == |now|
    && (forall i :: k <= i < |now| ==> (now[i] ==> loaded[i]) && (!evicts ==> now[i] == loaded[i]))
  }

  /** The segments from `k` to `hi` can be loaded without an eviction. */
  ghost predicate Room(k: nat, hi: nat, loaded: seq<bool>, evicts: bool, limited: bool, free: nat)
    requires hi <= |loaded|
  {
    !evicts && limited ==> Missing(loaded, k, hi) <= free
  }

  /** Without evictions so far, the next load needs none either. */
  lemma RoomForNext(k: nat, hi: nat, now: seq<bool>, loaded: seq<bool>, evicts: bool, limited: bool, free: nat)
    requires k < hi <= |loaded| && NotLoadedMore(k, now, loaded, evicts) && Room(k, hi, loaded, evicts, limited, free)
    ensures |now| == |loaded| && (now[k] ==> loaded[k]) && (!evicts ==> now[k] == loaded[k])
    ensures !evicts ==> !limited || free > 0 || now[k]
  {}

  lemma LoadedNext(k: nat, hi: nat, was: seq<bool>, now: seq<bool>, loaded: seq<bool>, evicts: bool, limited: bool,
                   free: nat, free': nat)
    requires k < hi <= |loaded| == |now| && NotLoadedMore(k, was, loaded, evicts)
             && Room(k, hi, loaded, evicts, limited, free)
    requires Evicted(was, now[k := was[k]])
    requires !evicts ==> now[k := was[k]] == was && free <= free' + if was[k] then 0 else 1
    ensures NotLoadedMore(k + 1, now, loaded, evicts) && Room(k + 1, hi, loaded, evicts, limited, free')
  {
    assert forall i :: k < i < |now| ==> now[k := was[k]][i] == now[i];
  }

  /** The end of the range of segments that a request touches. */
  ghost function LastTouched(at: nat, len: nat, size: nat, n: nat): (k: nat)
    requires size > 0
    ensures k <= n
  {
    if len == 0 then 0 else if SegmentOf(at + len - 1, size) < n then SegmentOf(at + len - 1, size) + 1 else n
  }

  /** Nothing has been loaded since. */
  ghost predicate Evicted(was: seq<bool>, now: seq<bool>) {
    |was| == |now| && forall i :: 0 <= i < |now| && now[i] ==> was[i]
  }

  lemma EvictedSame(now: seq<bool>)
    ensures Evicted(now, now)
  {}

  lemma EvictedTwice(a: seq<bool>, b: seq<bool>, c: seq<bool>)
    requires Evicted(a, b) && Evicted(b, c)
    ensures Evicted(a, c)
  {}

  // ---------------------------------------------------------------- the flat disk

  /** Where segment `k` begins on the disk. */
  function Start(k: nat, size: nat): nat {
    k * size
  }

  /** The segment that holds byte `x` of the disk. */
  function SegmentOf(x: nat, size: nat): nat
    requires size > 0
  {
    x / size
  }

  /** The segment that holds byte `j` of a request at `at`. */
  function SegmentAt(at: nat, j: nat, size: nat): nat
    requires size > 0
  {
    SegmentOf(at + j, size)
  }

  lemma FirstSegment(at: nat, size: nat)
    requires size > 0
    ensures Start(SegmentOf(at, size), size) <= at < Start(SegmentOf(at, size), size) + size
  {}

  lemma SegmentIs(k: nat, x: nat, size: nat)
    requires size > 0
    ensures SegmentOf(x, size) == k <==> Start(k, size) <= x < Start(k, size) + size
  {
    FirstSegment(x, size);
    if Start(k, size) <= x < Start(k, size) + size {
      SameSegment(k, SegmentOf(x, size), x, size);
    }
  }

  lemma SameSegment(k: nat, j: nat, x: nat, size: nat)
    requires Start(k, size) <= x < Start(k, size) + size && Start(j, size) <= x < Start(j, size) + size
    ensures j == k
  {
    StartOrder(k, j, size);
    StartOrder(j, k, size);
  }

  lemma LastSegment(total: nat, size: nat)
    requires size > 0
    ensures Start(total / size, size) <= total
    ensures total % size == 0 <==> Start(total / size, size) == total
  {}

  method Locate(at: nat, size: nat) returns (segID: nat, pos: nat)
    requires size > 0
    ensures at == Start(segID, size) + pos && pos < size && segID == SegmentOf(at, size)
  {
    segID := at / size;
    FirstSegment(at, size);
    pos := at - Start(segID, size);
  }

  lemma StartOrder(a: nat, b: nat, size: nat)
    ensures if a >= b then Start(b, size) <= Start(a, size)
            else Start(a + 1, size) == Start(a, size) + size <= Start(b, size)
  {
    if a >= b {
      Scaled(b, a, size);
    } else {
      Scaled(a + 1, b, size);
    }
  }

  lemma NothingStamped(times: seq<(nat, nat)>, lo: nat, readOp: bool, since: nat)
    ensures Stamped(times, times, lo, lo, readOp, since) && Stamped(times, times, lo, 0, readOp, since)
  {}

  lemma NotStamped(was: seq<(nat, nat)>, now: seq<(nat, nat)>, lo: nat, readOp: bool, since: nat)
    requires Stamped(was, now, lo, lo, readOp, since)
    ensures now == was
  {}

  lemma TouchedUpTo(at: nat, len: nat, size: nat, n: nat)
    requires size > 0
    ensures len > 0 ==>
              var last := SegmentOf(at + len - 1, size);
              LastTouched(at, len, size, n) == if last < n then last + 1 else n
    ensures len == 0 ==> LastTouched(at, len, size, n) == 0
  {}

  lemma LastIs(k: nat, x: nat, size: nat, n: nat)
    requires size > 0 && x < Start(k, size) && k <= SegmentOf(x, size) + 1 && k <= n
    ensures SegmentOf(x, size) + 1 == k
  {
    FirstSegment(x, size);
    StartOrder(SegmentOf(x, size), k, size);
  }

  lemma TouchedBelow(k: nat, x: nat, size: nat)
    requires size > 0 && Start(k, size) <= x
    ensures k <= SegmentOf(x, size)
  {
    FirstSegment(x, size);
    StartOrder(SegmentOf(x, size), k, size);
  }

  /** The part of a request that lies in segment `k` is all zeros. */
  ghost predicate ZeroPart(given: seq<Byte>, at: nat, k: nat, size: nat)
    requires size > 0
  {
    forall j :: 0 <= j < |given| && SegmentAt(at, j, size) == k ==> given[j] == 0
  }

  /** `len` bytes from `n` on are all of the request that lies in segment `k`. */
  ghost predicate WholePart(given: seq<Byte>, at: nat, n: nat, len: nat, k: nat, pos: nat, size: nat) {
    && 0 < len && n + len <= |given| && pos + len <= size && at + n == Start(k, size) + pos
    && (n == 0 || pos == 0) && (n + len == |given| || pos + len == size)
  }

  lemma PartIndices(given: seq<Byte>, at: nat, n: nat, len: nat, k: nat, pos: nat, size: nat)
    requires WholePart(given, at, n, len, k, pos, size)
    ensures size > 0 && forall j :: 0 <= j < |given| ==> (SegmentAt(at, j, size) == k <==> n <= j < n + len)
  {
    hide Start, SegmentOf;
    forall j | 0 <= j < |given| ensures SegmentAt(at, j, size) == k <==> n <= j < n + len {
      SegmentIs(k, at + j, size);
    }
  }

  lemma PartIsZero(given: seq<Byte>, at: nat, n: nat, len: nat, k: nat, pos: nat, size: nat)
    requires WholePart(given, at, n, len, k, pos, size)
    ensures size > 0 && (ZeroPart(given, at, k, size) <==> IsZeros(given[n..n + len]))
  {
    PartIndices(given, at, n, len, k, pos, size);
    hide SegmentAt;
    var part := given[n..n + len];
    assert forall j :: n <= j < n + len ==> given[j] == part[j - n];
    assert forall i :: 0 <= i < len ==> part[i] == given[n + i];
  }

  /** What a write leaves on the disk: the old bytes in the dropped segments, its own elsewhere. */
  ghost function Left(given: seq<Byte>, was: seq<Byte>, at: nat, size: nat, dropped: set<nat>): (l: seq<Byte>)
    requires size > 0 && |given| == |was|
    ensures |l| == |given|
  {
    seq(|given|, j requires 0 <= j < |given| => if SegmentAt(at, j, size) in dropped then was[j] else given[j])
  }

  lemma LeftAppend(given: seq<Byte>, disk: seq<Byte>, at: nat, n: nat, len: nat, k: nat, pos: nat, size: nat,
                   dropped: set<nat>, d: bool)
    requires WholePart(given, at, n, len, k, pos, size) && at + n + len <= |disk| && k !in dropped && size > 0
    ensures var dropped' := if d then dropped + {k} else dropped;
            Left(given[..n + len], disk[at..at + n + len], at, size, dropped') ==
            Left(given[..n], disk[at..at + n], at, size, dropped) +
            if d then disk[at + n..at + n + len] else given[n..n + len]
  {
    PartIndices(given, at, n, len, k, pos, size);
    hide SegmentAt;
  }

  /** After `n` bytes: a read has filled `buf[..n]` from the disk, a write has changed its range. */
  ghost predicate Transferred(readOp: bool, disk: seq<Byte>, disk': seq<Byte>, buf: seq<Byte>, buf': seq<Byte>,
                              at: nat, n: nat, size: nat, dropped: set<nat>)
  {
    && n <= |buf| && size > 0
    && (n == 0 ==> disk' == disk && buf' == buf)
    && (n > 0 ==>
         && at + n <= |disk|
         && if readOp then disk' == disk && buf' == Overwrite(buf, 0, disk[at..at + n])
            else buf' == buf && disk' == Overwrite(disk, at, Left(buf[..n], disk[at..at + n], at, size, dropped)))
  }

  /** Which segments drop their part: only all-zero parts are dropped, and only in segments that are not
      loaded when the request gets there. A segment that was not loaded when the request began is not
      loaded when it gets there; one that was may have been evicted meanwhile, if `evicts` allows it. */
  ghost predicate Drops(given: seq<Byte>, at: nat, n: nat, size: nat, loaded: seq<bool>, evicts: bool,
                        dropped: set<nat>) {
    && size > 0
    && (forall k :: k in dropped ==> k < |loaded| && ZeroPart(given, at, k, size) && (evicts || !loaded[k]))
    && (forall j :: 0 <= j < n && j < |given| ==> DroppedAt(given, at, j, size, loaded, dropped))
    && (n == 0 ==> dropped == {}) && (forall k :: k in dropped ==> Start(k, size) < at + n)
  }

  ghost predicate DroppedAt(given: seq<Byte>, at: nat, j: nat, size: nat, loaded: seq<bool>, dropped: set<nat>)
    requires size > 0
  {
    var k := SegmentAt(at, j, size);
    k < |loaded| && (ZeroPart(given, at, k, size) && !loaded[k] ==> k in dropped)
  }

  lemma DropsStep(given: seq<Byte>, at: nat, n: nat, len: nat, k: nat, pos: nat, size: nat, loaded: seq<bool>,
                  evicts: bool, dropped: set<nat>, now: bool)
    requires WholePart(given, at, n, len, k, pos, size) && Drops(given, at, n, size, loaded, evicts, dropped)
    requires k < |loaded| && (now ==> loaded[k]) && (!evicts ==> now == loaded[k])
    ensures k !in dropped
    ensures var d := IsZeros(given[n..n + len]) && !now;
            Drops(given, at, n + len, size, loaded, evicts, if d then dropped + {k} else dropped)
  {
    PartIndices(given, at, n, len, k, pos, size);
    PartIsZero(given, at, n, len, k, pos, size);
    hide SegmentAt, ZeroPart, IsZeros;
    var dropped' := if IsZeros(given[n..n + len]) && !now then dropped + {k} else dropped;
    forall j | 0 <= j < n + len ensures DroppedAt(given, at, j, size, loaded, dropped') {
      assert j < n ==> DroppedAt(given, at, j, size, loaded, dropped);
    }
  }

  /** The byte would be lost if its segment dropped its part: the part is all zeros, the byte is not. */
  ghost predicate AtRisk(disk: seq<Byte>, given: seq<Byte>, at: nat, j: nat, size: nat)
    requires size > 0 && at + j < |disk|
  {
    ZeroPart(given, at, SegmentAt(at, j, size), size) && disk[at + j] != 0
  }

  /** A write is exact when it puts no all-zero part over data; if its loads fit into the quota, exactly
      when it does so in no segment that was not loaded. */
  lemma {:induction false} WriteIsExact(disk: seq<Byte>, disk': seq<Byte>, given: seq<Byte>, at: nat, n: nat, size: nat,
                     loaded: seq<bool>, evicts: bool, dropped: set<nat>)
    requires Transferred(false, disk, disk', given, given, at, n, size, dropped) && n > 0
    requires Drops(given, at, n, size, loaded, evicts, dropped)
    ensures at + n <= |disk| && forall j :: 0 <= j < n ==> SegmentAt(at, j, size) < |loaded|
    ensures (forall j :: 0 <= j < n ==> !AtRisk(disk, given, at, j, size)) ==> disk' == Overwrite(disk, at, given[..n])
    ensures !evicts ==>
              (disk' == Overwrite(disk, at, given[..n]) <==>
               forall j :: 0 <= j < n && AtRisk(disk, given, at, j, size) ==> loaded[SegmentAt(at, j, size)])
  {
    hide SegmentAt, Drops, Transferred, Overwrite, ZeroPart, Left, AtRisk;
    TransferredWrite(disk, disk', given, at, n, size, dropped);
    var left := Left(given[..n], disk[at..at + n], at, size, dropped);
    OverwriteSame(disk, at, left, given[..n]);
    forall j | 0 <= j < n
      ensures SegmentAt(at, j, size) < |loaded|
      ensures left[j] != given[j] ==> AtRisk(disk, given, at, j, size) && (evicts || !loaded[SegmentAt(at, j, size)])
      ensures AtRisk(disk, given, at, j, size) && !loaded[SegmentAt(at, j, size)] ==> left[j] != given[j]
    {
      LeftByte(disk, given, at, n, j, size, loaded, evicts, dropped);
    }
    assert left == given[..n] <==> forall j :: 0 <= j < n ==> left[j] == given[j];
  }

  /** A read that is done has filled its buffer with the disk's bytes. */
  lemma {:induction false} ReadIsExact(disk: seq<Byte>, disk': seq<Byte>, buf: seq<Byte>, buf': seq<Byte>, at: nat,
                                       size: nat, dropped: set<nat>)
    requires Transferred(true, disk, disk', buf, buf', at, |buf|, size, dropped) && buf != []
    ensures disk' == disk && at + |buf| <= |disk| && buf' == disk[at..at + |buf|]
  {}

  lemma TransferredWrite(disk: seq<Byte>, disk': seq<Byte>, given: seq<Byte>, at: nat, n: nat, size: nat,
                         dropped: set<nat>)
    requires Transferred(false, disk, disk', given, given, at, n, size, dropped) && n > 0
    ensures size > 0 && n <= |given| && at + n <= |disk|
    ensures disk' == Overwrite(disk, at, Left(given[..n], disk[at..at + n], at, size, dropped))
  {}

  lemma LeftByte(disk: seq<Byte>, given: seq<Byte>, at: nat, n: nat, j: nat, size: nat, loaded: seq<bool>, evicts: bool,
                 dropped: set<nat>)
    requires Drops(given, at, n, size, loaded, evicts, dropped) && j < n <= |given| && at + n <= |disk|
    ensures var left, k := Left(given[..n], disk[at..at + n], at, size, dropped), SegmentAt(at, j, size);
            && k < |loaded|
            && (left[j] != given[j] ==> AtRisk(disk, given, at, j, size) && (evicts || !loaded[k]))
            && (AtRisk(disk, given, at, j, size) && !loaded[k] ==> left[j] != given[j])
  {
    assert DroppedAt(given, at, j, size, loaded, dropped);
    hide SegmentAt;
  }

  lemma OverwriteSame(disk: seq<Byte>, at: nat, a: seq<Byte>, b: seq<Byte>)
    requires |a| == |b| && at + |a| <= |disk|
    ensures Overwrite(disk, at, a) == Overwrite(disk, at, b) <==> a == b
  {
    if Overwrite(disk, at, a) == Overwrite(disk, at, b) {
      assert a == Overwrite(disk, at, a)[at..at + |a|];
      assert b == Overwrite(disk, at, b)[at..at + |b|];
    }
  }

  lemma NothingYet(readOp: bool, disk: seq<Byte>, buf: seq<Byte>, at: nat, size: nat, loaded: seq<bool>, evicts: bool)
    requires size > 0
    ensures Transferred(readOp, disk, disk, buf, buf, at, 0, size, {})
    ensures Drops(buf, at, 0, size, loaded, evicts, {})
  {}

  lemma SameBuffer(readOp: bool, disk: seq<Byte>, disk': seq<Byte>, buf: seq<Byte>, buf': seq<Byte>, at: nat, n: nat,
                   size: nat, dropped: set<nat>)
    requires Transferred(readOp, disk, disk', buf, buf', at, n, size, dropped)
    ensures if readOp then disk' == disk else buf' == buf
  {}

  lemma ReadStep(disk: seq<Byte>, buf: seq<Byte>, buf1: seq<Byte>, at: nat, n: nat, bytes: seq<Byte>, size: nat,
                 dropped: set<nat>)
    requires Transferred(true, disk, disk, buf, buf1, at, n, size, dropped) && |buf1| == |buf|
    requires bytes != [] && n + |bytes| <= |buf| && at + n + |bytes| <= |disk|
             && bytes == disk[at + n..at + n + |bytes|]
    ensures Transferred(true, disk, disk, buf, Overwrite(buf1, n, bytes), at, n + |bytes|, size, dropped)
  {
    var got := disk[at..at + n];
    assert got + bytes == disk[at..at + n + |bytes|];
    OverwriteTwice(buf, 0, got, bytes);
    assert n == 0 ==> Overwrite(buf, 0, got) == buf;
  }

  lemma ReadChunk(disk: seq<Byte>, cells: seq<seq<Byte>>, size: nat, buf: seq<Byte>, buf1: seq<Byte>,
                  at: nat, n: nat, len: nat, k: nat, pos: nat, dropped: set<nat>)
    requires Pieces(cells, size) && k < |cells| && at + n == Start(k, size) + pos && pos + len <= size && 0 < len
             && n + len <= |buf|
    requires disk == Flat(cells) && |buf1| == |buf|
    requires Transferred(true, disk, disk, buf, buf1, at, n, size, dropped)
    ensures Transferred(true, disk, disk, buf, Overwrite(buf1, n, cells[k][pos..pos + len]), at, n + len, size, dropped)
  {
    hide Transferred, Flat, Overwrite;
    FlatSlice(cells, size, k, pos, len);
    ReadStep(disk, buf, buf1, at, n, cells[k][pos..pos + len], size, dropped);
  }

  /** More of a write: `more` follows what has been left so far. */
  lemma WriteStep(disk: seq<Byte>, left: seq<Byte>, more: seq<Byte>, at: nat)
    requires at + |left| + |more| <= |disk|
    ensures Overwrite(Overwrite(disk, at, left), at + |left|, more) == Overwrite(disk, at, left + more)
    ensures Overwrite(disk, at, left)[at + |left|..at + |left| + |more|] == disk[at + |left|..at + |left| + |more|]
    ensures Overwrite(disk, at, left + disk[at + |left|..at + |left| + |more|]) == Overwrite(disk, at, left)
  {
    OverwriteTwice(disk, at, left, more);
  }

  lemma WriteChunk(disk: seq<Byte>, cells: seq<seq<Byte>>, cells': seq<seq<Byte>>, size: nat, buf: seq<Byte>,
                   at: nat, n: nat, len: nat, k: nat, pos: nat, dropped: set<nat>, d: bool)
    requires Pieces(cells, size) && k < |cells| && WholePart(buf, at, n, len, k, pos, size) && k !in dropped
    requires |disk| == |Flat(cells)| && Transferred(false, disk, Flat(cells), buf, buf, at, n, size, dropped)
    requires cells' == if d then cells else cells[k := Overwrite(cells[k], pos, buf[n..n + len])]
    ensures Transferred(false, disk, Flat(cells'), buf, buf, at, n + len, size, if d then dropped + {k} else dropped)
  {
    hide Flat, Left, Overwrite, Pieces, WholePart;
    PartInside(buf, at, n, len, k, pos, size);
    FlatOverwrite(cells, size, k, pos, buf[n..n + len]);
    LeftAppend(buf, disk, at, n, len, k, pos, size, dropped, d);
    var left := Left(buf[..n], disk[at..at + n], at, size, dropped);
    if n == 0 {
      OverwriteNothing(disk, at, left);
    }
    WriteStep(disk, left, buf[n..n + len], at);
  }

  lemma PartInside(given: seq<Byte>, at: nat, n: nat, len: nat, k: nat, pos: nat, size: nat)
    requires WholePart(given, at, n, len, k, pos, size)
    ensures 0 < len && n + len <= |given| && pos + len <= size && at + n == k * size + pos
  {}

  lemma OverwriteNothing(disk: seq<Byte>, at: nat, left: seq<Byte>)
    requires at <= |disk| && left == []
    ensures Overwrite(disk, at, left) == disk
  {}

  lemma AccessedBuffer(before: seq<seq<Byte>>, after: seq<seq<Byte>>, buf: seq<Byte>, buf': seq<Byte>,
                       k: nat, lo: nat, hi: nat, pos: nat, dropped: bool)
    requires Accessed(false, before, after, buf, buf', k, lo, hi, pos, dropped)
    ensures buf' == buf
  {}

  /** One chunk of a request, seen on the flat disk. */
  lemma AccessStep(readOp: bool, disk: seq<Byte>, cells: seq<seq<Byte>>, cells': seq<seq<Byte>>, size: nat,
                   buf: seq<Byte>, buf1: seq<Byte>, buf2: seq<Byte>, at: nat, n: nat, len: nat, k: nat, pos: nat,
                   dropped: set<nat>, d: bool)
    requires Pieces(cells, size) && k !in dropped && WholePart(buf, at, n, len, k, pos, size)
    requires |disk| == |Flat(cells)| && |buf1| == |buf|
    requires Transferred(readOp, disk, Flat(cells), buf, buf1, at, n, size, dropped)
    requires Accessed(readOp, cells, cells', buf1, buf2, k, n, n + len, pos, d)
    ensures Transferred(readOp, disk, Flat(cells'), buf, buf2, at, n + len, size,
                        if !readOp && d then dropped + {k} else dropped)
  {
    SameBuffer(readOp, disk, Flat(cells), buf, buf1, at, n, size, dropped);
    hide Transferred, Flat, Overwrite, Pieces;
    if readOp {
      ReadChunk(disk, cells, size, buf, buf1, at, n, len, k, pos, dropped);
    } else {
      WriteChunk(disk, cells, cells', size, buf, at, n, len, k, pos, dropped, d);
    }
  }

  /** A request of which `n` bytes are done, as far as `safe` and `evicts` promise. */
  ghost predicate Halfway(readOp: bool, disk: seq<Byte>, disk': seq<Byte>, bytes: seq<Byte>, buf: seq<Byte>, at: nat,
                          n: nat, size: nat, loaded: seq<bool>, dropped: set<nat>, safe: bool, evicts: bool,
                          risks: seq<Risk>, limited: bool)
  {
    && (safe ==> SafeRisks(risks, limited) && Transferred(readOp, disk, disk', bytes, buf, at, n, size, dropped))
    && (if readOp then dropped == {} else buf == bytes && Drops(bytes, at, n, size, loaded, evicts, dropped))
  }

  /** The part of a request in segment `k`, which was loaded if `now` says so. */
  lemma ChunkStep(readOp: bool, disk: seq<Byte>, cells: seq<seq<Byte>>, cells': seq<seq<Byte>>, size: nat,
                  bytes: seq<Byte>, buf: seq<Byte>, buf': seq<Byte>, at: nat, n: nat, len: nat, k: nat, pos: nat,
                  loaded: seq<bool>, dropped: set<nat>, safe: bool, evicts: bool, risks: seq<Risk>,
                  risks': seq<Risk>, limited: bool,
                  now: bool, lost: set<nat>) returns (dropped': set<nat>)
    requires Pieces(cells, size) && WholePart(bytes, at, n, len, k, pos, size)
    requires |disk| == |Flat(cells)| && |buf| == |bytes| && k < |cells|
    requires Halfway(readOp, disk, Flat(cells), bytes, buf, at, n, size, loaded, dropped, safe, evicts, risks, limited)
    requires Accessed(readOp, Without(cells, lost, size), cells', buf, buf', k, n, n + len, pos,
               IsZeros(buf[n..n + len]) && !now)
    requires NoWorse(risks, risks') && forall i :: i in lost ==> i < |risks| && limited && risks[i].stranded
    requires k < |loaded| && (now ==> loaded[k]) && (!evicts ==> now == loaded[k])
    ensures Halfway(readOp, disk, Flat(cells'), bytes, buf', at, n + len, size, loaded, dropped', safe, evicts, risks',
              limited)
  {
    var d := IsZeros(buf[n..n + len]) && !now;
    dropped' := if !readOp && d then dropped + {k} else dropped;
    hide Transferred, Accessed, Flat, Drops, IsZeros, NoWorse, SafeRisks, WholePart, Pieces;
    if !readOp {
      AccessedBuffer(Without(cells, lost, size), cells', buf, buf', k, n, n + len, pos, d);
      DropsStep(bytes, at, n, len, k, pos, size, loaded, evicts, dropped, now);
    }
    if safe {
      StaySafe(risks, risks', lost, limited);
      WithoutOne(cells, k, size);
      AccessStep(readOp, disk, cells, cells', size, bytes, buf, buf', at, n, len, k, pos, dropped, d);
    }
  }

  class Device {
    const total: nat
    const store: Store
    const segments: seq<Segment>
    const persistCache: bool
    var closed: bool
    var clock: nat

    constructor (total: nat, store: Store, segments: seq<Segment>, persistCache: bool)
      ensures this.total == total && this.store == store && this.segments == segments
              && this.persistCache == persistCache
      ensures !closed
    {
      this.total, this.store, this.segments, this.persistCache := total, store, segments, persistCache;
      closed, clock := false, 0;
    }

    predicate Wired() {
      forall i :: 0 <= i < |segments| ==> segments[i].id == i && segments[i].store == store
    }

    ghost predicate Valid()
      reads store, segments
    {
      && store.size > 0 && |segments| == total / store.size && Wired()
      && (forall i :: 0 <= i < |segments| ==> segments[i].Valid())
      && (store.limited ==> 1 <= store.slots && store.free + Count(Loaded()) == store.slots)
      && (forall i :: i in store.objects ==> i < |segments|)
    }

    /** Which segments hold a slot of the quota. */
    ghost function Loaded(): (flags: seq<bool>)
      reads segments
      ensures |flags| == |segments|
    {
      seq(|segments|, i requires 0 <= i < |segments| reads segments => segments[i].backed)
    }

    ghost function Cells(): (cs: seq<seq<Byte>>)
      requires Wired()
      reads segments, store
      ensures |cs| == |segments|
    {
      seq(|segments|, i requires 0 <= i < |segments| reads segments, store => segments[i].Contents())
    }

    /** The flat disk that the device stands for. */
    ghost function Disk(): seq<Byte>
      requires Wired()
      reads segments, store
    {
      Flat(Cells())
    }

    ghost function Risks(): (risks: seq<Risk>)
      requires Wired()
      reads segments, store
      ensures |risks| == |segments|
    {
      seq(|segments|, i requires 0 <= i < |segments| reads segments, store => segments[i].AtRisk())
    }

    /** An eviction cannot lose anything: there is none, or no segment is stranded. */
    ghost predicate Safe()
      requires Wired()
      reads segments, store
    {
      SafeRisks(Risks(), store.limited)
    }

    twostate lemma OthersKept(k: nat)
      requires Wired() && k < |segments| && segments[k].Valid()
      requires old(forall i :: 0 <= i < |segments| ==> segments[i].Valid())
      requires forall i :: 0 <= i < |segments| && i != k ==> unchanged(segments[i])
      requires OnlyObject(k, old(store.objects), store.objects)
      ensures forall i :: 0 <= i < |segments| ==> segments[i].Valid()
      ensures Loaded() == old(Loaded())[k := segments[k].backed]
      ensures Cells() == old(Cells())[k := segments[k].Contents()] && Risks() == old(Risks())[k := segments[k].AtRisk()]
    {}

    /** An operation on segment `k` that pays for its slot leaves the other segments and the quota alone. */
    twostate lemma OneSegmentChanged(k: nat)
      requires old(Valid()) && k < |segments| && segments[k].Valid()
      requires forall i :: 0 <= i < |segments| && i != k ==> unchanged(segments[i])
      requires OnlyObject(k, old(store.objects), store.objects)
      requires store.limited ==>
                 store.free + (if segments[k].backed then 1 else 0) ==
                     old(store.free) + (if old(segments[k].backed) then 1 else 0)
      ensures Valid()
      ensures Loaded() == old(Loaded())[k := segments[k].backed]
      ensures Cells() == old(Cells())[k := segments[k].Contents()] && Risks() == old(Risks())[k := segments[k].AtRisk()]
    {
      OthersKept(k);
      CountUpdate(old(Loaded()), k, segments[k].backed);
    }

    /** When each segment was last read and last written. */
    ghost function Times(): (ts: seq<(nat, nat)>)
      reads segments
      ensures |ts| == |segments|
    {
      seq(|segments|, i requires 0 <= i < |segments| reads segments => (segments[i].lastRead, segments[i].lastWrite))
    }

    /** segment.go:239-245: the earlier of the last read and the last write; 0 when either is missing. */
    function LastOp(i: nat): (op: nat)
      requires i < |segments|
      reads segments[i]
      ensures op <= segments[i].lastRead && op <= segments[i].lastWrite
      ensures op == segments[i].lastRead || op == segments[i].lastWrite
    {
      if segments[i].lastRead < segments[i].lastWrite then segments[i].lastRead else segments[i].lastWrite
    }

    /** The victim is another loaded segment, dirty only if none is clean, and the least recently used of its
        kind if and only if every candidate has been read and written, or the last one has not. */
    ghost predicate Chosen(idx: nat, forIdx: nat)
      requires idx < |segments|
      reads segments
    {
      && Candidate(idx, forIdx, segments[idx].dirty)
      && (Least(|segments|, forIdx, segments[idx].dirty, idx) <==>
          || AllTimed(|segments|, forIdx, segments[idx].dirty)
          || LastUntimed(|segments|, forIdx, segments[idx].dirty))
      && (segments[idx].dirty ==> forall i :: 0 <= i < |segments| ==> !Candidate(i, forIdx, false))
    }

    predicate Candidate(i: nat, forIdx: nat, dirty: bool)
      requires i < |segments|
      reads segments[i]
    {
      i != forIdx && segments[i].backed && segments[i].dirty == dirty
    }

    /** device.go:339-381, undisturbed: a clean loaded segment if there is one, else a dirty one. */
    method PickVictim(forIdx: nat) returns (idx: int)
      ensures -1 <= idx < |segments|
      ensures idx == -1 ==> forall i :: 0 <= i < |segments| ==>
                !Candidate(i, forIdx, false) && !Candidate(i, forIdx, true)
      ensures idx != -1 ==> Chosen(idx, forIdx)
    {
      hide Pick, LastOp;
      var clean, dirty := -1, -1;
      var cleanOp: nat, dirtyOp: nat := 0, 0;
      var i := 0;
      PickNone(forIdx, false);
      PickNone(forIdx, true);
      while i < |segments|
        invariant 0 <= i <= |segments| && Pick(i, forIdx, false, clean, cleanOp)
                  && Pick(i, forIdx, true, dirty, dirtyOp)
      {
        PickNext(i, forIdx, false, clean, cleanOp);
        PickNext(i, forIdx, true, dirty, dirtyOp);
        if i != forIdx && segments[i].backed {
          var lastOp := LastOp(i);
          if segments[i].dirty {
            if lastOp < dirtyOp || dirtyOp == 0 {
              dirty, dirtyOp := i, lastOp;
            }
          } else {
            if lastOp < cleanOp || cleanOp == 0 {
              clean, cleanOp := i, lastOp;
            }
          }
        }
        i := i + 1;
      }
      idx := if clean != -1 then clean else dirty;
      PickMeaning(forIdx, false, clean, cleanOp);
      PickMeaning(forIdx, true, dirty, dirtyOp);
    }

    lemma PickNone(forIdx: nat, dirty: bool)
      ensures Pick(0, forIdx, dirty, -1, 0)
    {}

    lemma PickMeaning(forIdx: nat, dirty: bool, best: int, bestOp: nat)
      requires Pick(|segments|, forIdx, dirty, best, bestOp)
      ensures -1 <= best < |segments|
      ensures best == -1 <==> forall i :: 0 <= i < |segments| ==> !Candidate(i, forIdx, dirty)
      ensures best != -1 ==>
                && Candidate(best, forIdx, dirty)
                && (Least(|segments|, forIdx, dirty, best) <==>
                     AllTimed(|segments|, forIdx, dirty) || LastUntimed(|segments|, forIdx, dirty))
    {
      hide LastOp;
    }

    /** No candidate of its kind among the first `n` segments has been used less recently than `best`. */
    ghost predicate Least(n: nat, forIdx: nat, dirty: bool, best: nat)
      requires n <= |segments| && best < |segments|
      reads segments
    {
      forall i :: 0 <= i < n && Candidate(i, forIdx, dirty) ==> LastOp(best) <= LastOp(i)
    }

    /** Every candidate has been both read and written. */
    ghost predicate AllTimed(n: nat, forIdx: nat, dirty: bool)
      requires n <= |segments|
      reads segments
    {
      forall i :: 0 <= i < n && Candidate(i, forIdx, dirty) ==> LastOp(i) != 0
    }

    /** The last candidate lacks a read or a write. */
    ghost predicate LastUntimed(n: nat, forIdx: nat, dirty: bool)
      requires n <= |segments|
      reads segments
    {
      exists j :: 0 <= j < n && Candidate(j, forIdx, dirty) && LastOp(j) == 0
                  && forall i :: j < i < n ==> !Candidate(i, forIdx, dirty)
    }

    /** The scan after `n` segments. A missing time counts as unset, so the next candidate replaces it. */
    ghost predicate Pick(n: nat, forIdx: nat, dirty: bool, best: int, bestOp: nat)
      requires n <= |segments|
      reads segments
    {
      && -1 <= best < n && (best == -1 ==> bestOp == 0)
      && (best == -1 <==> forall i :: 0 <= i < n ==> !Candidate(i, forIdx, dirty))
      && (best != -1 ==>
            && Candidate(best, forIdx, dirty) && bestOp == LastOp(best)
            && (bestOp == 0 <==> LastUntimed(n, forIdx, dirty))
            && (AllTimed(n, forIdx, dirty) ==> Least(n, forIdx, dirty, best)))
    }

    lemma PickNext(n: nat, forIdx: nat, dirty: bool, best: int, bestOp: nat)
      requires n < |segments| && Pick(n, forIdx, dirty, best, bestOp)
      ensures if Candidate(n, forIdx, dirty) && (LastOp(n) < bestOp || bestOp == 0)
              then Pick(n + 1, forIdx, dirty, n, LastOp(n))
              else Pick(n + 1, forIdx, dirty, best, bestOp)
    {
      hide LastOp;
      assert !Candidate(n, forIdx, dirty) ==> (LastUntimed(n + 1, forIdx, dirty) <==> LastUntimed(n, forIdx, dirty));
      assert Candidate(n, forIdx, dirty) ==> (LastUntimed(n + 1, forIdx, dirty) <==> LastOp(n) == 0);
      assert AllTimed(n + 1, forIdx, dirty) ==> AllTimed(n, forIdx, dirty);
    }

    lemma NoneLoaded(forIdx: nat)
      requires forall i :: 0 <= i < |segments| ==> !Candidate(i, forIdx, false) && !Candidate(i, forIdx, true)
      requires forIdx < |segments| && !segments[forIdx].backed
      ensures Count(Loaded()) == 0
    {
      forall i | 0 <= i < |segments| ensures !segments[i].backed {
        assert !Candidate(i, forIdx, segments[i].dirty);
      }
      CountNone(Loaded());
    }

    /** Evicts one other segment. A client can see it if and only if the victim is stranded. */
    method RemoveLeastRecentUsed(forIdx: nat) returns (idx: nat, err: Err)
      requires Valid() && forIdx < |segments| && !segments[forIdx].backed
      modifies segments, store
      ensures Valid() && unchanged(segments[forIdx])
      ensures err == Ok || err == NoVictim || err == UploadFailed
      ensures err == NoVictim <==> old(Count(Loaded())) == 0
      ensures store.failures == old(store.failures) + if err == UploadFailed then 1 else 0
      ensures err != NoVictim ==> idx < |segments| && old(Chosen(idx, forIdx))
      ensures Times() == old(Times())
      ensures err != Ok ==> Cells() == old(Cells())
      ensures err == Ok ==>
                && idx < |segments|
                && Cells() == (if old(Risks())[idx].stranded then old(Cells())[idx := Zeros(store.size)]
                   else old(Cells()))
                && (Cells() == old(Cells()) <==> !old(Risks())[idx].stranded)
                && NoWorse(old(Risks()), Risks())
      ensures err == Ok && store.limited ==> store.free == old(store.free) + 1
      ensures err == Ok ==> Evicted(old(Loaded()), Loaded()) && Loaded()[forIdx] == old(Loaded())[forIdx]
    {
      hide Chosen, Count, Valid, Candidate, Evicted, NoWorse, Risks, Cells, Times;
      var pick := PickVictim(forIdx);
      if pick == -1 {
        NoneLoaded(forIdx);
        return 0, NoVictim;
      }
      idx := pick;
      CandidateLoaded(idx, forIdx);
      err := EvictOne(idx);
    }

    lemma CandidateLoaded(i: nat, forIdx: nat)
      requires i < |segments| && Chosen(i, forIdx)
      ensures i != forIdx && segments[i].backed && Count(Loaded()) > 0
    {
      CountAtLeast(Loaded(), i);
    }

    method EvictOne(idx: nat) returns (err: Err)
      requires Valid() && idx < |segments| && segments[idx].backed
      modifies segments[idx], store
      ensures Valid() && Loaded() == old(Loaded())[idx := segments[idx].backed] && Evicted(old(Loaded()), Loaded())
      ensures store.failures == old(store.failures) + (if err == UploadFailed then 1 else 0) && Times() == old(Times())
      ensures err == Ok ==>
                && Cells() == (if old(Risks())[idx].stranded then old(Cells())[idx := Zeros(store.size)]
                   else old(Cells()))
                && (Cells() == old(Cells()) <==> !old(Risks())[idx].stranded)
                && NoWorse(old(Risks()), Risks())
      ensures err == Ok && store.limited ==> store.free == old(store.free) + 1
      ensures err != Ok ==> err == UploadFailed && Cells() == old(Cells())
    {
      CountAtLeast(Loaded(), idx);
      hide Count;
      err := segments[idx].DeleteFile();
      OneSegmentChanged(idx);
      hide Valid;
      assert old(Cells())[idx := old(Cells())[idx]] == old(Cells());
      assert Cells()[idx] == segments[idx].Contents() && old(Cells())[idx] == old(segments[idx].Contents());
    }

    /** One try of device.go:171-175. */
    method TryRead(k: nat, buf: array<Byte>, lo: nat, hi: nat, pos: nat, now: nat) returns (count: nat, err: Err)
      requires Valid() && k < |segments| && lo <= hi <= buf.Length && pos + (hi - lo) <= store.size
      modifies segments[k], store, buf
      ensures Valid() && Cells() == old(Cells()) && NoWorse(old(Risks()), Risks())
      ensures store.failures == old(store.failures) && Times() == old(Times())[k := (now, old(Times())[k].1)]
      ensures err == Ok || (err == Capacity && store.limited && store.free == 0 && !segments[k].backed)
      ensures old(store.free) > 0 || old(Loaded())[k] ==> err == Ok
      ensures old(store.free) <= store.free + if old(Loaded())[k] then 0 else 1
      ensures err != Ok ==> count == 0 && buf[..] == old(buf[..])
      ensures err == Ok ==> count == hi - lo
      ensures err == Ok ==> buf[..] == Overwrite(old(buf[..]), lo, old(Cells())[k][pos..pos + count])
      ensures Loaded() == old(Loaded())[k := segments[k].backed] && (err != Ok ==> Loaded() == old(Loaded()))
    {
      count, err := segments[k].ReadAt(buf, lo, hi, pos, now);
      OneSegmentChanged(k);
      assert old(Cells())[k := old(Cells())[k]] == old(Cells());
    }

    method TryWrite(k: nat, data: seq<Byte>, pos: nat, now: nat) returns (count: nat, err: Err)
      requires Valid() && k < |segments| && data != [] && pos + |data| <= store.size
      modifies segments[k], store
      ensures Valid() && NoWorse(old(Risks()), Risks())
      ensures store.failures == old(store.failures) && Times() == old(Times())[k := (old(Times())[k].0, now)]
      ensures err == Ok || (err == Capacity && store.limited && store.free == 0 && !segments[k].backed)
      ensures old(store.free) > 0 || old(Loaded())[k] ==> err == Ok
      ensures old(store.free) <= store.free + if old(Loaded())[k] then 0 else 1
      ensures err != Ok ==> count == 0 && Cells() == old(Cells())
      ensures err == Ok ==>
                && count == |data| && |old(Cells())[k]| == store.size
                && Cells() == if IsZeros(data) && !old(Loaded())[k] then old(Cells())
                   else old(Cells())[k := Overwrite(old(Cells())[k], pos, data)]
      ensures Loaded() == old(Loaded())[k := segments[k].backed] && (err != Ok ==> Loaded() == old(Loaded()))
    {
      count, err := segments[k].WriteAt(data, pos, now);
      assert Times() == old(Times())[k := (old(Times())[k].0, now)];
      hide Times;
      OneSegmentChanged(k);
      assert old(Cells())[k := old(Cells())[k]] == old(Cells());
    }

    method Try(readOp: bool, k: nat, buf: array<Byte>, lo: nat, hi: nat, pos: nat) returns (count: nat, err: Err)
      requires Valid() && k < |segments| && lo < hi <= buf.Length && pos + (hi - lo) <= store.size
      modifies segments[k], store, buf, this`clock
      ensures Valid() && NoWorse(old(Risks()), Risks())
      ensures store.failures == old(store.failures) && old(clock) <= clock
      ensures Times() == Stamp(old(Times()), k, readOp, clock)
      ensures err == Ok || (err == Capacity && store.limited && store.free == 0 && !segments[k].backed)
      ensures old(store.free) > 0 || old(Loaded())[k] ==> err == Ok
      ensures old(store.free) <= store.free + if old(Loaded())[k] then 0 else 1
      ensures err != Ok ==> count == 0 && buf[..] == old(buf[..]) && Cells() == old(Cells())
      ensures err == Ok ==>
                && count == hi - lo
                && Accessed(readOp, old(Cells()), Cells(), old(buf[..]), buf[..], k, lo, hi, pos,
                     old(IsZeros(buf[lo..hi]) && !Loaded()[k]))
      ensures Loaded() == old(Loaded())[k := segments[k].backed] && (err != Ok ==> Loaded() == old(Loaded()))
    {
      var now: nat :| now >= clock;
      clock := now;
      CellSize(k);
      if readOp {
        count, err := TryRead(k, buf, lo, hi, pos, now);
      } else {
        count, err := TryWrite(k, buf[lo..hi], pos, now);
        assert buf[..][lo..hi] == buf[lo..hi];
      }
    }

    lemma CellSize(k: nat)
      requires Valid() && k < |segments|
      ensures |Cells()[k]| == store.size
    {
      assert segments[k].Valid();
    }

    /** device.go:168-187. A refused slot is freed by one eviction; no second one is ever needed, and a
        victim can always be found. `lost`: a stranded victim, if that is what was evicted. */
    method AccessSegment(readOp: bool, k: nat, buf: array<Byte>, lo: nat, hi: nat, pos: nat)
      returns (count: nat, err: Err, ghost lost: set<nat>)
      requires Valid() && k < |segments| && lo < hi <= buf.Length && pos + (hi - lo) <= store.size
      modifies segments, store, buf, this`clock
      ensures Valid() && (err == Ok || (err == UploadFailed && store.limited))
      ensures store.failures == old(store.failures) + if err == UploadFailed then 1 else 0
      ensures old(clock) <= clock && Times() == Stamp(old(Times()), k, readOp, clock)
      ensures err != Ok ==> count == 0 && buf[..] == old(buf[..]) && Cells() == old(Cells())
      ensures forall i :: i in lost ==> i < |segments| && store.limited && old(Risks())[i].stranded
      ensures err == Ok ==>
                && count == hi - lo && NoWorse(old(Risks()), Risks())
                && Accessed(readOp, Without(old(Cells()), lost, store.size), Cells(), old(buf[..]), buf[..],
                            k, lo, hi, pos,
                            old(IsZeros(buf[lo..hi]) && !Loaded()[k]))
      ensures err == Ok ==> Evicted(old(Loaded()), Loaded()[k := old(Loaded())[k]])
      ensures err == Ok && (!store.limited || old(store.free) > 0 || old(Loaded())[k]) ==>
                lost == {} && Loaded()[k := old(Loaded())[k]] == old(Loaded())
                  && old(store.free) <= store.free + if old(Loaded())[k] then 0 else 1
    {
      assert Wired();
      EvictedSame(Loaded());
      NoWorseSame(Risks());
      lost := {};
      WithoutOne(Cells(), k, store.size);
      hide Accessed, Count, Valid, Evicted, NoWorse, IsZeros, Wired, Loaded, Cells, Risks, Without, Times, Stamp;
      var capTries := 0;
      while true
        invariant Valid() && buf[..] == old(buf[..]) && 0 <= capTries <= 1 && (capTries == 1 ==> store.free > 0)
        invariant Cells() == Without(old(Cells()), lost, store.size) && NoWorse(old(Risks()), Risks())
        invariant forall i :: i in lost ==> i < |segments| && store.limited && old(Risks())[i].stranded
        invariant Loaded()[k] == old(Loaded())[k] && Evicted(old(Loaded()), Loaded())
        invariant capTries == 0 ==> lost == {} && Loaded() == old(Loaded()) && store.free == old(store.free)
        invariant capTries == 1 ==> store.limited && old(store.free) == 0 && !old(Loaded())[k]
        invariant store.failures == old(store.failures) && old(clock) <= clock
        invariant if capTries == 0 then Times() == old(Times()) else Times() == Stamp(old(Times()), k, readOp, clock)
        decreases 1 - capTries
      {
        ghost var before, risks, last := Loaded(), Risks(), clock;
        count, err := Try(readOp, k, buf, lo, hi, pos);
        NoWorseTwice(old(Risks()), risks, Risks());
        StampTwice(old(Times()), k, readOp, last, clock);
        if err == Ok || capTries >= MAX_CAP_TRIES {
          assert Loaded()[k := before[k]] == before;
          return;
        }
        risks := Risks();
        err, lost := EvictFor(k);
        if err != Ok {
          return;
        }
        NoWorseLost(old(Risks()), risks, lost);
        NoWorseTwice(old(Risks()), risks, Risks());
        EvictedTwice(old(Loaded()), before, Loaded());
        capTries := capTries + 1;
      }
    }

    /** device.go:178-181: an eviction for segment `k`, which found no free slot. */
    method EvictFor(k: nat) returns (err: Err, ghost lost: set<nat>)
      requires Valid() && k < |segments| && !segments[k].backed && store.limited && store.free == 0
      modifies segments, store
      ensures Valid() && (err == Ok || err == UploadFailed) && (err != Ok ==> Cells() == old(Cells()) && lost == {})
      ensures store.failures == old(store.failures) + (if err == UploadFailed then 1 else 0) && Times() == old(Times())
      ensures forall i :: i in lost ==> i < |segments| && old(Risks())[i].stranded
      ensures err == Ok ==>
                && Cells() == Without(old(Cells()), lost, store.size) && NoWorse(old(Risks()), Risks())
                   && store.free == 1
                && Evicted(old(Loaded()), Loaded()) && Loaded()[k] == old(Loaded())[k]
    {
      assert store.slots == Count(Loaded());
      hide Count, Valid, Evicted, NoWorse, Loaded, Cells, Risks, Times, Chosen;
      var idx;
      idx, err := RemoveLeastRecentUsed(k);
      lost := if err == Ok && old(Risks())[idx].stranded then {idx} else {};
      if err == Ok {
        WithoutOne(old(Cells()), idx, store.size);
      }
    }

    lemma CellsSize()
      requires Valid()
      ensures Pieces(Cells(), store.size) && |Disk()| == Start(|segments|, store.size)
      ensures store.size > 0 && |segments| == total / store.size
    {
      forall k | 0 <= k < |segments| ensures |Cells()[k]| == store.size {
        CellSize(k);
      }
      FlatSize(Cells(), store.size);
    }

    /** A request of which `n` bytes are done. */
    ghost predicate Ongoing(readOp: bool, disk: seq<Byte>, bytes: seq<Byte>, buf: array<Byte>, at: nat, n: nat,
                            loaded: seq<bool>, dropped: set<nat>, safe: bool, evicts: bool)
      requires Wired()
      reads segments, store, buf
    {
      && |disk| == Start(|segments|, store.size) && |bytes| == buf.Length
      && Halfway(readOp, disk, Disk(), bytes, buf[..], at, n, store.size, loaded, dropped, safe, evicts, Risks(),
           store.limited)
    }

    /** device.go:163-187: the part of a request that lies in one segment. */
    method IoChunk(readOp: bool, buf: array<Byte>, at: nat, totalRead: nat, segID: nat, pos: nat,
                   ghost disk: seq<Byte>, ghost bytes: seq<Byte>, ghost loaded: seq<bool>, ghost dropped: set<nat>,
                   ghost safe: bool, ghost evicts: bool, ghost hi: nat)
      returns (count: nat, err: Err, ghost dropped': set<nat>)
      requires Valid() && segID < |segments| && pos < store.size && totalRead < buf.Length
      requires at + totalRead == Start(segID, store.size) + pos && (totalRead == 0 || pos == 0)
      requires NotLoadedMore(segID, Loaded(), loaded, evicts)
      requires segID < hi <= |loaded| && Room(segID, hi, loaded, evicts, store.limited, store.free)
      requires Ongoing(readOp, disk, bytes, buf, at, totalRead, loaded, dropped, safe, evicts)
      modifies segments, store, buf, this`clock
      ensures Valid() && (err == Ok || (err == UploadFailed && store.limited && count == 0))
      ensures store.failures == old(store.failures) + if err == Ok then 0 else 1
      ensures old(clock) <= clock && Times() == Stamp(old(Times()), segID, readOp, clock)
      ensures err != Ok ==> dropped' == dropped && Disk() == old(Disk()) && buf[..] == old(buf[..])
      ensures err == Ok ==>
                && count == (if buf.Length - totalRead > store.size - pos then store.size - pos
                   else buf.Length - totalRead)
                && NoWorse(old(Risks()), Risks())
                && NotLoadedMore(segID + 1, Loaded(), loaded, evicts)
                   && Room(segID + 1, hi, loaded, evicts, store.limited, store.free)
                && Ongoing(readOp, disk, bytes, buf, at, totalRead + count, loaded, dropped', safe, evicts)
    {
      hide Transferred, Accessed, Count, Flat, Drops, IsZeros, NoWorse, SafeRisks, Evicted;
      dropped' := dropped;
      ghost var cells, filled, risks := Cells(), buf[..], Risks();
      CellsSize();
      RoomForNext(segID, hi, Loaded(), loaded, evicts, store.limited, store.free);
      ghost var before, free := Loaded(), store.free;
      hide Valid, Cells, Loaded, Risks, NotLoadedMore, Room, Times, Stamp;
      var remaining := buf.Length - totalRead;
      var chunk := if remaining > store.size - pos then store.size - pos else remaining;
      ghost var lost;
      count, err, lost := AccessSegment(readOp, segID, buf, totalRead, totalRead + chunk, pos);
      if err == Ok {
        LoadedNext(segID, hi, before, Loaded(), loaded, evicts, store.limited, free, store.free);
        assert WholePart(bytes, at, totalRead, count, segID, pos, store.size);
        dropped' := ChunkStep(readOp, disk, cells, Cells(), store.size, bytes, filled, buf[..], at, totalRead,
                              count, segID, pos,
                              loaded, dropped, safe, evicts, risks, Risks(), store.limited, before[segID], lost);
      }
    }

    /** The segments end inside the device, and with it exactly when they divide it. */
    lemma {:induction false} EndInside()
      requires Valid()
      ensures Start(|segments|, store.size) <= total
      ensures total % store.size == 0 <==> Start(|segments|, store.size) == total
    {
      LastSegment(total, store.size);
    }

    /** device.go:141-196. An access inside the device succeeds unless the upload of a victim fails. If no
        segment that could be evicted is stranded, a read returns the flat disk's bytes, a write changes
        its range only, and evictions are invisible. `dropped`: the segments whose all-zero part of a
        write was dropped. `done`: how far the request got, also when it ended in an error. */
    method IoAt(readOp: bool, buf: array<Byte>, at: nat)
      returns (count: nat, err: Err, ghost done: nat, ghost dropped: set<nat>)
      requires Valid()
      modifies segments, store, buf, this`clock
      ensures Valid()
      ensures closed ==> count == 0 && err == Shutdown && Disk() == old(Disk()) && buf[..] == old(buf[..])
      ensures err == UploadFailed ==> store.limited && count == 0
      ensures store.failures == old(store.failures) + if err == UploadFailed then 1 else 0
      ensures !closed && err != UploadFailed ==> done == count && NoWorse(old(Risks()), Risks())
      ensures |old(Disk())| == |segments| * store.size
      ensures !closed && err != UploadFailed ==>
                if at <= total && (buf.Length == 0 || at + buf.Length <= |old(Disk())|)
                then err == Ok && count == buf.Length
                else err == Eof && count == if at < |old(Disk())| then |old(Disk())| - at else 0
      ensures readOp && err == Ok && buf.Length > 0 && old(Safe()) ==>
                Disk() == old(Disk()) && at + buf.Length <= |Disk()| && buf[..] == Disk()[at..at + buf.Length]
      ensures !closed && err == Ok ==>
                Stamped(old(Times()), Times(), SegmentOf(at, store.size),
                        LastTouched(at, buf.Length, store.size, |segments|), readOp, old(clock))
      ensures forall i :: 0 <= i < |segments|
                          && !(SegmentOf(at, store.size) <= i < LastTouched(at, buf.Length, store.size, |segments|)) ==>
                Times()[i] == old(Times())[i]
      ensures !closed && old(Safe()) ==>
                Transferred(readOp, old(Disk()), Disk(), old(buf[..]), buf[..], at, done, store.size, dropped)
      ensures !closed && !readOp ==>
                Drops(old(buf[..]), at, done, store.size, old(Loaded()),
                      !old(Fits(at, buf.Length, store.size, Loaded(), store.limited, store.free)), dropped)
    {
      CellsSize();
      EndInside();
      NoWorseSame(Risks());
      assert Wired();
      hide Transferred, Flat, Count, Valid, Cells, Drops, Fits, NoWorse, Risks, Safe, Stamped, Times, SegmentOf;
      done := 0;
      NothingYet(readOp, Disk(), buf[..], at, store.size, Loaded(),
          !Fits(at, buf.Length, store.size, Loaded(), store.limited, store.free));
      if closed {
        return 0, Shutdown, 0, {};
      }
      if at > total {
        return 0, Eof, 0, {};
      }
      count, err, done, dropped := IoLoop(readOp, buf, at, Disk(), buf[..], Loaded());
      if readOp && err == Ok && buf.Length > 0 && old(Safe()) {
        ReadIsExact(old(Disk()), Disk(), old(buf[..]), buf[..], at, store.size, dropped);
      }
    }

    /** device.go:151-196. */
    method IoLoop(readOp: bool, buf: array<Byte>, at: nat, ghost disk: seq<Byte>, ghost bytes: seq<Byte>,
                  ghost loaded: seq<bool>)
      returns (count: nat, err: Err, ghost done: nat, ghost dropped: set<nat>)
      requires Valid() && disk == Disk() && bytes == buf[..] && loaded == Loaded()
      modifies segments, store, buf, this`clock
      ensures Valid() && (err == UploadFailed ==> store.limited && count == 0)
      ensures store.failures == old(store.failures) + if err == UploadFailed then 1 else 0
      ensures err == Ok ==>
                Stamped(old(Times()), Times(), SegmentOf(at, store.size),
                        LastTouched(at, buf.Length, store.size, |segments|), readOp, old(clock))
      ensures forall i :: 0 <= i < |segments|
                          && !(SegmentOf(at, store.size) <= i < LastTouched(at, buf.Length, store.size, |segments|)) ==>
                Times()[i] == old(Times())[i]
      ensures err != UploadFailed ==>
                var capacity := Start(|segments|, store.size);
                && done == count && NoWorse(old(Risks()), Risks())
                && if buf.Length == 0 || at + buf.Length <= capacity then err == Ok && count == buf.Length
                   else err == Eof && count == if at < capacity then capacity - at else 0
      ensures old(Safe()) ==> Transferred(readOp, disk, Disk(), bytes, buf[..], at, done, store.size, dropped)
      ensures !readOp ==>
                Drops(bytes, at, done, store.size, loaded,
                    !old(Fits(at, buf.Length, store.size, loaded, store.limited, store.free)), dropped)
    {
      hide Transferred, Flat, Count, Start, Valid, Wired, Loaded, Cells, Disk, Drops, NotLoadedMore, Ongoing, Room,
           Safe, Risks, NoWorse, SegmentOf, Times, Stamp, Stamped, LastTouched;
      ghost var safe, hi, evicts := Begins(readOp, buf, at);
      NoWorseSame(Risks());
      dropped := {};
      var segID, pos := Locate(at, store.size);
      var maxSegID := |segments|;
      ghost var capacity := Start(maxSegID, store.size);
      var totalRead, remaining := 0, buf.Length;
      ghost var first := segID;
      NothingStamped(Times(), first, readOp, clock);
      TouchedUpTo(at, buf.Length, store.size, |segments|);
      while remaining > 0
        invariant Valid() && 0 <= totalRead && totalRead + remaining == buf.Length && 0 <= remaining && 0 <= segID
        invariant remaining > 0 ==> at + totalRead == Start(segID, store.size) + pos && 0 <= pos < store.size
        invariant totalRead > 0 ==> segID <= maxSegID && at + totalRead <= capacity && pos == 0
        invariant NotLoadedMore(segID, Loaded(), loaded, evicts)
                  && Room(segID, hi, loaded, evicts, store.limited, store.free)
        invariant NoWorse(old(Risks()), Risks())
        invariant Ongoing(readOp, disk, bytes, buf, at, totalRead, loaded, dropped, safe, evicts)
        invariant store.failures == old(store.failures) && old(clock) <= clock && first <= segID
        invariant Stamped(old(Times()), Times(), first, segID, readOp, old(clock))
        invariant totalRead == 0 ==> segID == first
        invariant totalRead > 0 ==> at + totalRead <= Start(segID, store.size)
        invariant totalRead > 0 ==> segID <= SegmentOf(at + buf.Length - 1, store.size) + 1
        decreases remaining
      {
        StartOrder(segID, maxSegID, store.size);
        OngoingMeaning(readOp, disk, bytes, buf, at, totalRead, loaded, dropped, safe, evicts);
        TouchedBelow(segID, at + buf.Length - 1, store.size);
        if segID >= maxSegID {
          StampedOutside(old(Times()), Times(), first, segID, hi, readOp, old(clock));
          return totalRead, Eof, totalRead, dropped;
        }
        ghost var risks, times := Risks(), Times();
        count, err, dropped := IoChunk(readOp, buf, at, totalRead, segID, pos, disk, bytes, loaded, dropped, safe,
            evicts, hi);
        StampedNext(old(Times()), times, first, segID, readOp, old(clock), clock);
        if err != Ok {
          done := totalRead;
          StampedOutside(old(Times()), Times(), first, segID + 1, hi, readOp, old(clock));
          return;
        }
        NoWorseTwice(old(Risks()), risks, Risks());
        remaining := remaining - count;
        totalRead := totalRead + count;
        segID := segID + 1;
        pos := 0;
      }
      if buf.Length > 0 {
        LastIs(segID, at + buf.Length - 1, store.size, |segments|);
        StampedOutside(old(Times()), Times(), first, segID, hi, readOp, old(clock));
      } else {
        NotStamped(old(Times()), Times(), first, readOp, old(clock));
        NothingStamped(Times(), first, readOp, old(clock));
      }
      OngoingMeaning(readOp, disk, bytes, buf, at, totalRead, loaded, dropped, safe, evicts);
      return totalRead, Ok, totalRead, dropped;
    }

    lemma Begins(readOp: bool, buf: array<Byte>, at: nat) returns (safe: bool, hi: nat, evicts: bool)
      requires Valid()
      ensures Wired() && store.size > 0 && |Loaded()| == |segments|
      ensures safe == Safe() && hi == LastTouched(at, buf.Length, store.size, |segments|)
      ensures evicts == !Fits(at, buf.Length, store.size, Loaded(), store.limited, store.free)
      ensures Ongoing(readOp, Disk(), buf[..], buf, at, 0, Loaded(), {}, safe, evicts)
      ensures NotLoadedMore(SegmentOf(at, store.size), Loaded(), Loaded(), evicts)
      ensures Room(SegmentOf(at, store.size), hi, Loaded(), evicts, store.limited, store.free)
    {
      CellsSize();
      safe, hi := Safe(), LastTouched(at, buf.Length, store.size, |segments|);
      evicts := !Fits(at, buf.Length, store.size, Loaded(), store.limited, store.free);
      NothingYet(readOp, Disk(), buf[..], at, store.size, Loaded(), evicts);
    }

    lemma OngoingMeaning(readOp: bool, disk: seq<Byte>, bytes: seq<Byte>, buf: array<Byte>, at: nat, n: nat,
                         loaded: seq<bool>,
                         dropped: set<nat>, safe: bool, evicts: bool)
      requires Wired() && Ongoing(readOp, disk, bytes, buf, at, n, loaded, dropped, safe, evicts)
      ensures safe ==> Transferred(readOp, disk, Disk(), bytes, buf[..], at, n, store.size, dropped)
      ensures !readOp ==> Drops(bytes, at, n, store.size, loaded, evicts, dropped)
    {}

    // ---------------------------------------------------------------- durability

    /** What the container has of each segment. */
    ghost function Objects(): (cs: seq<seq<Byte>>)
      requires Wired()
      reads segments, store
      ensures |cs| == |segments|
    {
      ObjectCells(store.objects, |segments|, store.size)
    }

    /** A flush will store segment `i`, or the container has its contents already. */
    ghost predicate Stored(i: nat)
      requires Wired() && i < |segments|
      reads segments, store
    {
      segments[i].dirty || Objects()[i] == Cells()[i]
    }

    /** If no segment is unsettled, all are stored or will be. */
    lemma {:induction false} SettledAreStored()
      requires Valid() && forall i :: 0 <= i < |segments| ==> !Risks()[i].unsettled
      ensures forall i :: 0 <= i < |segments| ==> Stored(i)
    {
      forall i | 0 <= i < |segments| ensures Stored(i) {
        assert segments[i].Valid() && !Risks()[i].unsettled;
        if !segments[i].dirty {
          segments[i].SettledIsStored();
        }
      }
    }

    /** device.go:214-292. Every dirty segment is uploaded, with or without a buffer; the contents stay. */
    method FlushAll() returns (err: Err)
      requires Valid()
      modifies segments, store
      ensures Valid() && Cells() == old(Cells()) && store.free == old(store.free) && (err == Ok || err == UploadFailed)
      ensures forall i :: 0 <= i < |segments| ==> !segments[i].dirty
      ensures err == Ok ==> forall i :: 0 <= i < |segments| ==>
                FlushedOne(i, old(Risks()), old(segments[i].dirty), old(Objects()))
      ensures err != Ok ==> store.failures > old(store.failures) || SomeTooLong(old(Files()), store.size)
    {
      err := Ok;
      var i := 0;
      assert Wired();
      ghost var risks, objects, cells, dirty, files := Risks(), Objects(), Cells(), Dirties(), Files();
      hide Valid, Risks, Objects, Cells, Wired, Dirties, FlushedUpTo, CleanUpTo, SomeTooLong, Files;
      NothingFlushed(risks, objects, dirty, cells);
      while i < |segments|
        invariant 0 <= i <= |segments| && Valid() && Cells() == cells && store.free == old(store.free)
        invariant (err == Ok || err == UploadFailed) && store.failures >= old(store.failures)
        invariant err != Ok ==> store.failures > old(store.failures) || SomeTooLong(files, store.size)
        invariant Files() == files
        invariant CleanUpTo(i, Dirties())
        invariant err == Ok ==> FlushedUpTo(i, Risks(), Objects(), Dirties(), cells, risks, objects, dirty)
      {
        ghost var before, r, o, d := store.failures, Risks(), Objects(), Dirties();
        var segErr := FlushNext(i);
        OneMoreFlushed(i, r, o, d, Risks(), Objects(), Dirties(), cells, risks, objects, dirty);
        if segErr != Ok {
          err := segErr;
        }
        i := i + 1;
      }
      AllFlushed(risks, objects, dirty, cells, err == Ok);
    }

    lemma AllFlushed(risks: seq<Risk>, objects: seq<seq<Byte>>, dirty: seq<bool>, cells: seq<seq<Byte>>, ok: bool)
      requires Wired() && |risks| == |objects| == |dirty| == |cells| == |segments| && cells == Cells()
      requires CleanUpTo(|segments|, Dirties())
      requires ok ==> FlushedUpTo(|segments|, Risks(), Objects(), Dirties(), cells, risks, objects, dirty)
      ensures forall i :: 0 <= i < |segments| ==> !segments[i].dirty
      ensures ok ==> forall i :: 0 <= i < |segments| ==> FlushedOne(i, risks, dirty[i], objects)
    {
      hide Risks, Objects, Cells;
      forall i | 0 <= i < |segments| ensures !segments[i].dirty {
        assert !Dirties()[i];
      }
    }

    ghost function Dirties(): (flags: seq<bool>)
      reads segments
      ensures |flags| == |segments| && forall i :: 0 <= i < |segments| ==> flags[i] == segments[i].dirty
    {
      seq(|segments|, i requires 0 <= i < |segments| reads segments => segments[i].dirty)
    }

    /** The local files. */
    ghost function Files(): (files: seq<Option<seq<Byte>>>)
      reads segments
      ensures |files| == |segments| && forall i :: 0 <= i < |segments| ==> files[i] == segments[i].localFile
    {
      seq(|segments|, i requires 0 <= i < |segments| reads segments => segments[i].localFile)
    }

    /** After its flush, segment `i` is as safe as before and the container has it, or what it had. */
    ghost predicate FlushedOne(i: nat, risks: seq<Risk>, dirty: bool, objects: seq<seq<Byte>>)
      requires Wired() && i < |segments| == |risks| == |objects|
      reads segments, store
    {
      && Risks()[i].NoWorse(risks[i]) && Risks()[i].stranded == risks[i].stranded
      && Objects()[i] == if dirty then Cells()[i] else objects[i]
    }

    method FlushNext(i: nat) returns (err: Err)
      requires Valid() && i < |segments|
      modifies segments[i], store
      ensures Valid() && Cells() == old(Cells()) && store.free == old(store.free) && (err == Ok || err == UploadFailed)
      ensures !segments[i].dirty
      ensures store.failures >= old(store.failures)
      ensures err != Ok ==> store.failures > old(store.failures) || SomeTooLong(Files(), store.size)
      ensures Files() == old(Files())
      ensures err == Ok ==> FlushedOne(i, old(Risks()), old(segments[i].dirty), old(Objects()))
      ensures Dirties() == old(Dirties())[i := false] && Risks() == old(Risks())[i := Risks()[i]]
      ensures Objects() == old(Objects())[i := Objects()[i]]
    {
      var buffered: bool := *;
      err := segments[i].Flush(buffered);
      assert err != Ok && store.failures == old(store.failures) ==>
               Files()[i].Some? && |Files()[i].value| != store.size;
      assert Files() == old(Files());
      hide SomeTooLong, Files;
      OneSegmentChanged(i);
      assert old(Cells())[i := old(Cells())[i]] == old(Cells());
    }

    /** device.go:308-314. A clean segment shows the same without its file, unless it is stranded. */
    method DeleteAll() returns (err: Err)
      requires Valid() && forall i :: 0 <= i < |segments| ==> !segments[i].dirty
      modifies segments, store
      ensures Valid() && err == Ok && store.objects == old(store.objects)
      ensures forall i :: 0 <= i < |segments| ==>
                Cells()[i] == if old(Risks())[i].stranded then Zeros(store.size) else old(Cells())[i]
      ensures forall i :: 0 <= i < |segments| ==> !segments[i].backed && !segments[i].dirty
    {
      err := Ok;
      var i := 0;
      while i < |segments|
        invariant 0 <= i <= |segments| && Valid() && err == Ok && store.objects == old(store.objects)
        invariant forall k :: 0 <= k < i ==>
                    Cells()[k] == if old(Risks())[k].stranded then Zeros(store.size) else old(Cells())[k]
        invariant forall k :: i <= k < |segments| ==> Cells()[k] == old(Cells())[k] && Risks()[k] == old(Risks())[k]
        invariant forall k :: 0 <= k < |segments| ==> !segments[k].dirty && (k < i ==> !segments[k].backed)
      {
        DeleteNext(i);
        i := i + 1;
      }
    }

    method DeleteNext(i: nat)
      requires Valid() && i < |segments| && !segments[i].dirty
      modifies segments[i], store
      ensures Valid() && store.objects == old(store.objects) && !segments[i].backed && !segments[i].dirty
      ensures Cells() == old(Cells())[i := if old(Risks())[i].stranded then Zeros(store.size) else old(Cells())[i]]
      ensures forall k :: 0 <= k < |segments| && k != i ==> Risks()[k] == old(Risks())[k]
    {
      if segments[i].backed {
        CountAtLeast(Loaded(), i);
      }
      var segErr := segments[i].DeleteFile();
      OneSegmentChanged(i);
    }

    /** device.go:295-320. After a close that succeeds the container alone is the disk if and only if it
        had what every clean segment showed. Without the persistent cache the device itself shows the
        same disk if and only if no segment was stranded. */
    method Close() returns (err: Err)
      requires Valid()
      modifies segments, store, this`closed
      ensures Valid() && closed && (err == Ok || err == UploadFailed)
      ensures old(closed) || err != Ok ==> Disk() == old(Disk())
      ensures old(closed) ==> err == Ok
      ensures err != Ok ==> store.failures > old(store.failures) || SomeTooLong(old(Files()), store.size)
      ensures !old(closed) && err == Ok ==>
                && (Disk() == old(Disk()) <==> persistCache || NoneStranded(old(Risks())))
                && (Flat(Objects()) == old(Disk()) <==> forall i :: 0 <= i < |segments| ==> old(Stored(i)))
                && (forall i :: 0 <= i < |segments| && !persistCache ==> !segments[i].backed)
    {
      if closed {
        return Ok;
      }
      assert Wired();
      hide Stored, Objects, Disk, Valid, Risks, Wired, SomeTooLong, Files;
      closed := true;
      assert forall i :: 0 <= i < |segments| ==> Stored(i) == old(Stored(i));
      err := FlushDisk();
      if err == Ok && !persistCache {
        DropCache();
      }
    }

    /** FlushAll, seen on the flat disk. */
    method FlushDisk() returns (err: Err)
      requires Valid()
      modifies segments, store
      ensures Valid() && Disk() == old(Disk()) && (err == Ok || err == UploadFailed)
      ensures forall i :: 0 <= i < |segments| ==> !segments[i].dirty
      ensures err == Ok ==> (NoneStranded(Risks()) <==> NoneStranded(old(Risks())))
      ensures err == Ok ==> (Flat(Objects()) == Disk() <==> forall i :: 0 <= i < |segments| ==> old(Stored(i)))
      ensures err != Ok ==> store.failures > old(store.failures) || SomeTooLong(old(Files()), store.size)
    {
      ghost var risks, objects, cells := Risks(), Objects(), Cells();
      ghost var dirty := seq(|segments|, i requires 0 <= i < |segments| reads segments => segments[i].dirty);
      assert forall i :: 0 <= i < |segments| ==> (Stored(i) <==> dirty[i] || objects[i] == cells[i]);
      assert forall i :: 0 <= i < |segments| ==> dirty[i] == segments[i].dirty;
      hide Stored, FlushedOne, Flat, Valid, Risks, Objects, Cells;
      err := FlushAll();
      if err == Ok {
        forall i | 0 <= i < |segments| ensures FlushedOne(i, risks, dirty[i], objects) {}
        FlushedMeaning(risks, dirty, objects);
      }
    }

    lemma FlushedMeaning(risks: seq<Risk>, dirty: seq<bool>, objects: seq<seq<Byte>>)
      requires Valid() && |risks| == |dirty| == |objects| == |segments|
      requires forall i :: 0 <= i < |segments| ==> FlushedOne(i, risks, dirty[i], objects)
      ensures NoneStranded(Risks()) <==> NoneStranded(risks)
      ensures Flat(Objects()) == Disk() <==> forall i :: 0 <= i < |segments| ==> dirty[i] || objects[i] == Cells()[i]
    {
      CellsSize();
      ObjectsSize();
      FlatInjective(Objects(), Cells(), store.size);
      forall i | 0 <= i < |segments|
        ensures Risks()[i].stranded == risks[i].stranded && Objects()[i] == if dirty[i] then Cells()[i] else objects[i]
      {
        assert FlushedOne(i, risks, dirty[i], objects);
      }
      hide Valid, Flat, Cells, Objects, Risks, FlushedOne;
      assert forall i :: 0 <= i < |segments| ==> Risks()[i].stranded == risks[i].stranded;
      assert Objects() == Cells() <==> forall i :: 0 <= i < |segments| ==> Objects()[i] == Cells()[i];
    }

    /** device.go:308-314, seen on the flat disk. */
    method DropCache()
      requires Valid() && forall i :: 0 <= i < |segments| ==> !segments[i].dirty
      modifies segments, store
      ensures Valid() && Objects() == old(Objects()) && forall i :: 0 <= i < |segments| ==> !segments[i].backed
      ensures Disk() == old(Disk()) <==> NoneStranded(old(Risks()))
    {
      CellsSize();
      StrandedShows();
      hide Flat, Risks;
      var err := DeleteAll();
      CellsSize();
      FlatInjective(Cells(), old(Cells()), store.size);
      hide Valid, Cells;
      assert Cells() == old(Cells()) <==> forall i :: 0 <= i < |segments| ==> Cells()[i] == old(Cells())[i];
    }

    lemma ObjectsSize()
      requires Valid()
      ensures Pieces(Objects(), store.size) && |Objects()| == |segments|
    {
      forall i | 0 <= i < |segments| ensures |Objects()[i]| == store.size {
        assert segments[i].Valid();
      }
    }

    lemma StrandedShows()
      requires Valid()
      ensures forall i :: 0 <= i < |segments| && Risks()[i].stranded ==> Cells()[i] != Zeros(store.size)
    {
      forall i | 0 <= i < |segments| && Risks()[i].stranded ensures Cells()[i] != Zeros(store.size) {
        assert !IsZeros(segments[i].Contents());
      }
    }
  }

  /** The disk that a container stands for: one object per segment, zeros where there is none. */
  function ObjectCells(objects: map<nat, seq<Byte>>, n: nat, size: nat): (cs: seq<seq<Byte>>)
    ensures |cs| == n
  {
    seq(n, i => if i in objects then objects[i] else Zeros(size))
  }

  predicate Untouched(s: Segment, remoteItem: bool)
    reads s
  {
    s.localFile.None? && !s.dirty && !s.backed && s.remoteItem == remoteItem && s.lastRead == 0 && s.lastWrite == 0
  }

  /** segment.go:42-81: one segment per ID, with a remote item where the container has one. Too many
      items, or one with an ID past the segments, are refused; an ID that equals their number would panic. */
  method LoadSegments(store: Store, n: nat) returns (segments: seq<Segment>, ok: bool)
    requires n !in store.objects
    ensures ok <==> forall i :: i in store.objects ==> i < n
    ensures ok ==> |segments| == n && fresh(segments)
    ensures ok ==> forall i :: 0 <= i < n ==>
              segments[i].id == i && segments[i].store == store && Untouched(segments[i], i in store.objects)
  {
    segments := [];
    if |store.objects| > n {
      TooManyItems(store.objects.Keys, n);
      return [], false;
    }
    if exists i :: i in store.objects && i > n {
      return [], false;
    }
    while |segments| < n
      invariant |segments| <= n && fresh(segments)
      invariant forall i :: 0 <= i < |segments| ==>
                  segments[i].id == i && segments[i].store == store && Untouched(segments[i], i in store.objects)
    {
      var s := new Segment(|segments|, store);
      s.remoteItem := |segments| in store.objects;
      segments := segments + [s];
    }
    ok := true;
  }

  lemma {:induction false} TooManyItems(ids: set<nat>, n: nat)
    requires |ids| > n
    ensures exists i :: i in ids && i >= n
    decreases n
  {
    if n == 0 {
      var i :| i in ids;
      assert i >= 0;
    } else {
      TooManyItems(ids - {n - 1}, n - 1);
    }
  }

  /** A freshly loaded device: nothing loaded or at risk, the disk is the container's. */
  lemma FreshDevice(dev: Device)
    requires dev.Wired() && dev.store.size > 0 && |dev.segments| == dev.total / dev.store.size
    requires forall i :: 0 <= i < |dev.segments| ==> Untouched(dev.segments[i], i in dev.store.objects)
    requires forall i :: i in dev.store.objects ==> i < |dev.segments| && |dev.store.objects[i]| == dev.store.size
    requires dev.store.limited ==> 1 <= dev.store.slots && dev.store.free == dev.store.slots
    ensures dev.Valid() && dev.Cells() == ObjectCells(dev.store.objects, |dev.segments|, dev.store.size)
    ensures forall i :: 0 <= i < |dev.segments| ==> dev.Risks()[i] == Risk(false, false)
  {
    CountNone(dev.Loaded());
  }

  lemma QuotaHoldsOne(quota: nat, size: nat)
    requires size > 0
    ensures size <= quota ==> 1 <= quota / size
  {}

  /** NewDevice and loadSegments. */
  method Open(objects: map<nat, seq<Byte>>, total: nat, size: nat, quota: nat, thick: bool, persistCache: bool)
    returns (dev: Device?, err: Err)
    requires size > 0 && total / size !in objects && forall i :: i in objects ==> |objects[i]| == size
    ensures err == Ok <==>
            size <= total && (quota == 0 || size <= quota) && forall i :: i in objects ==> i < total / size
    ensures err != Ok ==> err == Rejected && dev == null
    ensures err == Ok ==> dev != null && fresh(dev) && fresh(dev.segments) && fresh(dev.store)
    ensures err == Ok ==> dev.Valid() && !dev.closed
    ensures err == Ok ==> dev.Disk() == Flat(ObjectCells(objects, total / size, size))
    ensures err == Ok ==> forall i :: 0 <= i < |dev.segments| ==> dev.Risks()[i] == Risk(false, false)
    ensures err == Ok ==> dev.store.objects == objects && dev.store.size == size && dev.total == total
    ensures err == Ok ==> dev.store.thick == thick && dev.persistCache == persistCache
    ensures err == Ok ==> dev.store.limited == (0 < quota < total)
    ensures err == Ok && 0 < quota < total ==> dev.store.slots == quota / size
  {
    dev := null;
    if size > total || (0 < quota < size) {
      return null, Rejected;
    }
    var n := total / size;
    var store := new Store(size, thick, 0 < quota < total, if 0 < quota < total then quota / size else 0, objects);
    var segments, ok := LoadSegments(store, n);
    if !ok {
      return null, Rejected;
    }
    dev := new Device(total, store, segments, persistCache);
    QuotaHoldsOne(quota, size);
    FreshDevice(dev);
    return dev, Ok;
  }

  /** Durability: close a device, open a new one on its container, and find the same disk if and only if
      the container had what every clean segment showed. */
  method CloseAndReopen(dev: Device, quota: nat, thick: bool, persistCache: bool)
    returns (closeErr: Err, again: Device?)
    requires dev.Valid() && !dev.closed && dev.store.size <= dev.total && (quota == 0 || dev.store.size <= quota)
    modifies dev, dev.segments, dev.store
    ensures closeErr == Ok ==>
              && again != null && again.Valid()
              && (again.Disk() == old(dev.Disk()) <==> forall i :: 0 <= i < |dev.segments| ==> old(dev.Stored(i)))
  {
    again := null;
    closeErr := dev.Close();
    if closeErr != Ok {
      return;
    }
    forall i | i in dev.store.objects ensures |dev.store.objects[i]| == dev.store.size {
      assert dev.segments[i].Valid();
    }
    var openErr: Err;
    again, openErr := Open(dev.store.objects, dev.total, dev.store.size, quota, thick, persistCache);
  }

  // ---------------------------------------------------------------- where the code departs from its intent

  /** Segment 1 has never been read, segment 2 was last used at 9, and segment 2 is the victim. */
  method VictimIsNotLeast() returns (idx: int, lastOps: (nat, nat))
    ensures idx == 2 && lastOps == (0, 9)
  {
    var store := new Store(1, true, false, 0, map[]);
    var a := new Segment(0, store);
    var b := new Segment(1, store);
    var c := new Segment(2, store);
    b.backed, b.lastWrite := true, 5;
    c.backed, c.lastRead, c.lastWrite := true, 9, 9;
    var dev := new Device(3, store, [a, b, c], false);
    idx := dev.PickVictim(0);
    assert dev.Candidate(1, 0, false) && dev.Candidate(2, 0, false) && !dev.Candidate(0, 0, false);
    lastOps := (dev.LastOp(1), dev.LastOp(2));
  }
}
