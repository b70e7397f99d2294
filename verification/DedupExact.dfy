/** When concurrent writers store each block once: exactly when no two of them are storing the same block at
    the same time. */
module DedupExact {
  import opened Bytes
  import opened DedupStores
  import opened DedupProtocol

  /** The request has missed its block in the index and has not yet put it there. */
  predicate Making(pc: Pc) {
    pc.Put? || pc.Write? || pc.Settle? || pc.Index?
  }

  /** Two requests are making the same block. */
  ghost predicate Overlap(s: State) {
    exists t, u :: 0 <= t < u < |s.threads| && Making(s.threads[t]) && Making(s.threads[u])
      && s.threads[t].buf == s.threads[u].buf
  }

  /** At no time of the run do two requests make the same block. */
  ghost predicate NeverOverlap(hash: Block -> nat, s: State, cs: seq<Choice>)
    decreases |cs|
  {
    !Overlap(s) && (cs != [] && cs[0].t < |s.threads| ==> NeverOverlap(hash, Step(hash, s, cs[0]), cs[1..]))
  }

  /** No access to a store fails in the run. */
  ghost predicate AllWell(hash: Block -> nat, s: State, cs: seq<Choice>)
    decreases |cs|
  {
    cs != [] && cs[0].t < |s.threads| ==> Well(s, cs[0]) && AllWell(hash, Step(hash, s, cs[0]), cs[1..])
  }

  predicate Well(s: State, c: Choice)
    requires c.t < |s.threads|
  {
    c.ok && (s.threads[c.t].Write? ==> Written(s.threads[c.t].id, c))
  }

  /** No block is stored twice. */
  ghost predicate Distinct(file: map<nat, Block>) {
    forall i, j :: i in file && j in file && i != j ==> file[i] != file[j]
  }

  // ---------------------------------------------------------------- who has which ID

  predicate HasId(pc: Pc) {
    pc.Write? || pc.Settle? || pc.Index?
  }

  ghost predicate MadeOk(s: State, t: nat)
    requires t < |s.threads|
  {
    var pc := s.threads[t];
    && (HasId(pc) ==> pc.id < s.stores.nextID)
    && (pc.Write? ==> pc.id !in s.stores.file)
    && (pc.Settle? || pc.Index? ==> pc.id in s.stores.file && s.stores.file[pc.id] == pc.buf)
    && (pc.Settle? ==> pc.ok)
  }

  /** IDs are handed out once, and a block is in the file once it has been written. */
  ghost predicate IdsOk(s: State) {
    && (forall id :: id in s.stores.file ==> id < s.stores.nextID)
    && (forall t :: 0 <= t < |s.threads| ==> MadeOk(s, t))
    && (forall t, u :: 0 <= t < u < |s.threads| && HasId(s.threads[t]) && HasId(s.threads[u]) ==>
         s.threads[t].id != s.threads[u].id)
  }

  lemma OtherId(s: State, t: nat, u: nat)
    requires IdsOk(s) && t < |s.threads| && u < |s.threads| && t != u && HasId(s.threads[t]) && HasId(s.threads[u])
    ensures s.threads[t].id != s.threads[u].id
  {}

  lemma IdsKept(hash: Block -> nat, s: State, c: Choice)
    requires IdsOk(s) && c.t < |s.threads| && Well(s, c)
    ensures IdsOk(Step(hash, s, c))
  {
    var s', pc := Step(hash, s, c), s.threads[c.t];
    assert MadeOk(s, c.t);
    forall t | 0 <= t < |s'.threads| ensures MadeOk(s', t) {
      assert MadeOk(s, t);
      if t != c.t && HasId(pc) && HasId(s.threads[t]) {
        OtherId(s, t, c.t);
      }
    }
    forall t, u | 0 <= t < u < |s'.threads| && HasId(s'.threads[t])
      && HasId(s'.threads[u]) ensures s'.threads[t].id != s'.threads[u].id {
      assert MadeOk(s, t) && MadeOk(s, u);
      if HasId(s.threads[t]) && HasId(s.threads[u]) {
        OtherId(s, t, u);
      }
    }
  }

  // ---------------------------------------------------------------- no overlap, no duplicate

  /** The stored block is in the index, or about to be put there. */
  ghost predicate Accounted(hash: Block -> nat, s: State, id: nat)
    requires id in s.stores.file
  {
    hash(s.stores.file[id]) in s.db || exists t :: 0 <= t < |s.threads| && HasId(s.threads[t]) && s.threads[t].id == id
  }

  /** Whoever makes a block is the only one who has stored it. */
  ghost predicate Alone(s: State, t: nat)
    requires t < |s.threads|
  {
    var pc := s.threads[t];
    Making(pc) ==> forall id :: id in s.stores.file && s.stores.file[id] == pc.buf ==> HasId(pc) && pc.id == id
  }

  ghost predicate SingleOk(hash: Block -> nat, s: State) {
    && Distinct(s.stores.file)
    && (forall id :: id in s.stores.file ==> Accounted(hash, s, id))
    && (forall t :: 0 <= t < |s.threads| ==> Alone(s, t))
  }

  lemma DistinctKept(hash: Block -> nat, s: State, c: Choice)
    requires IdsOk(s) && SingleOk(hash, s) && c.t < |s.threads| && Well(s, c)
    ensures Distinct(Step(hash, s, c).stores.file)
  {
    assert MadeOk(s, c.t) && Alone(s, c.t);
  }

  lemma AccountedKept(hash: Block -> nat, s: State, c: Choice, id: nat)
    requires IdsOk(s) && SingleOk(hash, s) && c.t < |s.threads| && Well(s, c) && id in Step(hash, s, c).stores.file
    ensures Accounted(hash, Step(hash, s, c), id)
  {
    var s', pc := Step(hash, s, c), s.threads[c.t];
    assert MadeOk(s, c.t);
    if pc.Write? && id == pc.id {
      assert HasId(s'.threads[c.t]) && s'.threads[c.t].id == id;
    } else {
      assert id in s.stores.file && s'.stores.file[id] == s.stores.file[id] && Accounted(hash, s, id);
      if hash(s.stores.file[id]) !in s.db {
        var t :| 0 <= t < |s.threads| && HasId(s.threads[t]) && s.threads[t].id == id;
        assert t != c.t ==> HasId(s'.threads[t]) && s'.threads[t].id == id;
        assert t == c.t ==> !pc.Write?;
        assert t == c.t && pc.Settle? ==> HasId(s'.threads[t]) && s'.threads[t].id == id;
      }
    }
  }

  lemma AloneKept(hash: Block -> nat, s: State, c: Choice, t: nat)
    requires IdsOk(s) && SingleOk(hash, s) && c.t < |s.threads| && t < |s.threads| && Well(s, c)
    requires !Overlap(s) && !Overlap(Step(hash, s, c))
    ensures Alone(Step(hash, s, c), t)
  {
    var s', pc := Step(hash, s, c), s.threads[c.t];
    var me := s'.threads[t];
    assert MadeOk(s, c.t) && MadeOk(s, t) && Alone(s, t) && Alone(s, c.t);
    if Making(me) {
      forall id | id in s'.stores.file && s'.stores.file[id] == me.buf ensures HasId(me) && me.id == id {
        if t == c.t && pc.Find? {
          assert Accounted(hash, s, id);
          var u :| 0 <= u < |s.threads| && HasId(s.threads[u]) && s.threads[u].id == id;
          assert MadeOk(s, u);
          Meet(s', t, u);
        } else if t != c.t && pc.Write? && id == pc.id {
          Meet(s, t, c.t);
        }
      }
    }
  }

  /** Two requests that make the same block overlap. */
  lemma Meet(s: State, t: nat, u: nat)
    requires t < |s.threads| && u < |s.threads| && t != u
    ensures Making(s.threads[t]) && Making(s.threads[u]) && s.threads[t].buf == s.threads[u].buf ==> Overlap(s)
  {
    var a, b := if t < u then t else u, if t < u then u else t;
    assert a < b;
  }

  lemma SingleKept(hash: Block -> nat, s: State, c: Choice)
    requires IdsOk(s) && SingleOk(hash, s) && c.t < |s.threads| && Well(s, c) && !Overlap(s)
             && !Overlap(Step(hash, s, c))
    ensures SingleOk(hash, Step(hash, s, c))
  {
    var s' := Step(hash, s, c);
    DistinctKept(hash, s, c);
    forall id | id in s'.stores.file ensures Accounted(hash, s', id) {
      AccountedKept(hash, s, c, id);
    }
    forall t | 0 <= t < |s'.threads| ensures Alone(s', t) {
      AloneKept(hash, s, c, t);
    }
  }

  lemma {:induction false} NoOverlapNoDuplicate(hash: Block -> nat, s: State, cs: seq<Choice>, s': State)
    requires IdsOk(s) && SingleOk(hash, s) && Run(hash, s, cs, s') && AllWell(hash, s, cs) && NeverOverlap(hash, s, cs)
    ensures Distinct(s'.stores.file)
    decreases |cs|
  {
    hide IdsOk, Overlap, Well, Ready, Step, Distinct;
    if cs != [] {
      var s1 := Step(hash, s, cs[0]);
      assert NeverOverlap(hash, s1, cs[1..]);
      IdsKept(hash, s, cs[0]);
      SingleKept(hash, s, cs[0]);
      hide SingleOk;
      NoOverlapNoDuplicate(hash, s1, cs[1..], s');
    }
  }

  // ---------------------------------------------------------------- an overlap makes a duplicate

  /** The block will be stored by this request. */
  predicate ToStore(pc: Pc, b: Block) {
    (pc.Put? || pc.Write?) && pc.buf == b
  }

  ghost predicate Twice(file: map<nat, Block>, b: Block) {
    exists i, j :: i in file && j in file && i != j && file[i] == b && file[j] == b
  }

  ghost predicate Once(file: map<nat, Block>, b: Block) {
    exists i :: i in file && file[i] == b
  }

  /** Block `b` has been or will be stored at least twice. */
  ghost predicate Doubled(s: State, b: Block) {
    || Twice(s.stores.file, b)
    || (Once(s.stores.file, b) && exists t :: 0 <= t < |s.threads| && ToStore(s.threads[t], b))
    || (exists t, u :: 0 <= t < u < |s.threads| && ToStore(s.threads[t], b) && ToStore(s.threads[u], b))
  }

  lemma OverlapDoubles(s: State) returns (b: Block)
    requires IdsOk(s) && Overlap(s)
    ensures Doubled(s, b)
  {
    var t, u :| 0 <= t < u < |s.threads| && Making(s.threads[t]) && Making(s.threads[u])
      && s.threads[t].buf == s.threads[u].buf;
    b := s.threads[t].buf;
    assert MadeOk(s, t) && MadeOk(s, u);
    if HasId(s.threads[t]) && HasId(s.threads[u]) {
      OtherId(s, t, u);
    }
  }

  lemma DoubledKept(hash: Block -> nat, s: State, c: Choice, b: Block)
    requires IdsOk(s) && Doubled(s, b) && c.t < |s.threads| && Well(s, c)
    ensures Doubled(Step(hash, s, c), b)
  {
    var s', pc := Step(hash, s, c), s.threads[c.t];
    assert MadeOk(s, c.t);
    assert forall i :: i in s.stores.file ==> i in s'.stores.file && s'.stores.file[i] == s.stores.file[i];
    assert ToStore(pc, b) && pc.Write? ==>
             pc.id in s'.stores.file && s'.stores.file[pc.id] == b && pc.id !in s.stores.file;
    assert ToStore(pc, b) && pc.Put? ==> ToStore(s'.threads[c.t], b);
    if Twice(s.stores.file, b) {
      var i, j :| i in s.stores.file && j in s.stores.file && i != j && s.stores.file[i] == b && s.stores.file[j] == b;
      assert Twice(s'.stores.file, b);
    } else if Once(s.stores.file, b) && exists t :: 0 <= t < |s.threads| && ToStore(s.threads[t], b) {
      var i :| i in s.stores.file && s.stores.file[i] == b;
      var t :| 0 <= t < |s.threads| && ToStore(s.threads[t], b);
      assert t != c.t ==> ToStore(s'.threads[t], b);
    } else {
      var t, u :| 0 <= t < u < |s.threads| && ToStore(s.threads[t], b) && ToStore(s.threads[u], b);
      assert t != c.t ==> ToStore(s'.threads[t], b);
      assert u != c.t ==> ToStore(s'.threads[u], b);
    }
  }

  lemma {:induction false} DoubledStays(hash: Block -> nat, s: State, cs: seq<Choice>, s': State, b: Block)
    requires IdsOk(s) && Doubled(s, b) && Run(hash, s, cs, s') && AllWell(hash, s, cs)
    requires forall t :: 0 <= t < |s'.threads| ==> Finished(s'.threads[t])
    ensures !Distinct(s'.stores.file)
    decreases |cs|
  {
    if cs == [] {
      assert Twice(s'.stores.file, b);
    } else {
      hide IdsOk, Doubled, Well, Ready, Step, Distinct;
      IdsKept(hash, s, cs[0]);
      DoubledKept(hash, s, cs[0], b);
      DoubledStays(hash, Step(hash, s, cs[0]), cs[1..], s', b);
    }
  }

  lemma {:induction false} OverlapMakesDuplicate(hash: Block -> nat, s: State, cs: seq<Choice>, s': State)
    requires IdsOk(s) && Run(hash, s, cs, s') && AllWell(hash, s, cs) && !NeverOverlap(hash, s, cs)
    requires forall t :: 0 <= t < |s'.threads| ==> Finished(s'.threads[t])
    ensures !Distinct(s'.stores.file)
    decreases |cs|
  {
    hide IdsOk, Overlap, Well, Ready, Step, Distinct;
    if Overlap(s) {
      var b := OverlapDoubles(s);
      DoubledStays(hash, s, cs, s', b);
    } else {
      assert cs != [];
      IdsKept(hash, s, cs[0]);
      OverlapMakesDuplicate(hash, Step(hash, s, cs[0]), cs[1..], s');
    }
  }

  /** In every run in which no access fails and every request finishes, each block is stored once if and
      only if no two requests ever make the same block at the same time. */
  lemma {:induction false} StoredOnceExactly(hash: Block -> nat, s: State, cs: seq<Choice>, s': State)
    requires Init(s) && Run(hash, s, cs, s') && AllWell(hash, s, cs)
    requires forall t :: 0 <= t < |s'.threads| ==> Finished(s'.threads[t])
    ensures Distinct(s'.stores.file) <==> NeverOverlap(hash, s, cs)
  {
    assert IdsOk(s) && SingleOk(hash, s);
    if NeverOverlap(hash, s, cs) {
      NoOverlapNoDuplicate(hash, s, cs, s');
    } else {
      OverlapMakesDuplicate(hash, s, cs, s');
    }
  }
}
