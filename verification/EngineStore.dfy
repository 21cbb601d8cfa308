/** The engine's layers - active memtable, frozen memtable, tables - and what a read sees through them. */
module EngineStore {
  import opened Basics
  import opened Keys
  import opened Runs
  import opened Batches
  import opened ReferenceModel

  /** A memtable or table as the sorted list it holds. ssts are oldest first. */
  datatype Store = Store(mem: seq<Entry>, imm: Option<seq<Entry>>, ssts: seq<seq<Entry>>, seqno: nat)

  // ----- Applying operations

  function KindOf(t: OpType): byte {
    if t == OpPut then KIND_PUT else KIND_DELETE
  }

  function EntryOf(op: Operation, seqno: uint64): Entry {
    Entry(InternalKey(op.key, seqno, KindOf(op.opType)), op.value)
  }

  /** Each operation takes the next sequence number and goes into the memtable. */
  function ApplyOps(mem: seq<Entry>, seqno: nat, ops: seq<Operation>): seq<Entry>
    requires seqno + |ops| <= MAX_UINT64
  {
    if ops == [] then mem
    else Insert(ApplyOps(mem, seqno, ops[..|ops| - 1]), EntryOf(ops[|ops| - 1], seqno + |ops|))
  }

  /** The last operation on a key. */
  function LastOp(ops: seq<Operation>, key: Bytes): (r: Option<Operation>)
    ensures r.Some? ==> r.value in ops && r.value.key == key
    ensures r.None? ==> forall op :: op in ops ==> op.key != key
  {
    if ops == [] then None
    else
      assert ops == ops[..|ops| - 1] + [ops[|ops| - 1]];
      if ops[|ops| - 1].key == key then Some(ops[|ops| - 1]) else LastOp(ops[..|ops| - 1], key)
  }

  /** What a list of operations, folded in order onto nothing, leaves at a key. */
  function FoldView(ops: seq<Operation>, key: Bytes): Lookup {
    match LastOp(ops, key)
    case None => Missing
    case Some(op) => if op.opType == OpPut then Present(op.value) else Tombstone
  }

  /** The fold at a key is what the last operation on it says, a put with an empty value included. */
  lemma {:induction false} FoldIsLast(ops: seq<Operation>, key: Bytes, i: nat)
    requires i < |ops| && ops[i].key == key && forall j :: i < j < |ops| ==> ops[j].key != key
    ensures LastOp(ops, key) == Some(ops[i])
    ensures FoldView(ops, key) == match ops[i].opType case OpPut => Present(ops[i].value) case OpDelete => Tombstone
  {
    if i < |ops| - 1 {
      FoldIsLast(ops[..|ops| - 1], key, i);
    }
  }

  // ----- Reading

  /** Tables newest first; the first that knows the key answers. */
  function SstHit(ssts: seq<seq<Entry>>, key: Bytes, seqno: nat): Lookup {
    if ssts == [] then Missing
    else
      var hit := ScanGet(ssts[|ssts| - 1], key, seqno);
      if hit != Missing then hit else SstHit(ssts[..|ssts| - 1], key, seqno)
  }

  function Frozen(imm: Option<seq<Entry>>): seq<Entry> {
    if imm.None? then [] else imm.value
  }

  /** Memtable, then frozen memtable, then tables; a tombstone stops the search like a value does. */
  function FirstHit(s: Store, key: Bytes): Lookup {
    var hit := ScanGet(s.mem, key, s.seqno);
    if hit != Missing then hit
    else
      var hit' := ScanGet(Frozen(s.imm), key, s.seqno);
      if hit' != Missing then hit' else SstHit(s.ssts, key, s.seqno)
  }

  // ----- Layering

  ghost predicate AtMost(es: seq<Entry>, n: nat) {
    forall e :: e in es ==> e.key.seqno <= n
  }

  ghost predicate Above(a: seq<Entry>, b: seq<Entry>) {
    forall x, y :: x in a && y in b ==> x.key.seqno > y.key.seqno
  }

  /** Newer layers hold only newer sequence numbers, and each layer is a strictly sorted list. */
  ghost predicate Layered(s: Store) {
    && StrictlySorted(s.mem) && StrictlySorted(Frozen(s.imm))
    && AtMost(s.mem, s.seqno) && AtMost(Frozen(s.imm), s.seqno)
    && Above(s.mem, Frozen(s.imm))
    && SstsLayered(s.ssts, s.seqno)
    && (forall i :: 0 <= i < |s.ssts| ==> Above(s.mem, s.ssts[i]) && Above(Frozen(s.imm), s.ssts[i]))
  }

  ghost predicate SstsLayered(ssts: seq<seq<Entry>>, seqno: nat) {
    && (forall i :: 0 <= i < |ssts| ==> StrictlySorted(ssts[i]) && AtMost(ssts[i], seqno))
    && (forall i, j :: 0 <= i < j < |ssts| ==> Above(ssts[j], ssts[i]))
  }

  /** Every entry of every layer. */
  function Union(s: Store): History {
    SstUnion(s.ssts) + Frozen(s.imm) + s.mem
  }

  function SstUnion(ssts: seq<seq<Entry>>): History {
    if ssts == [] then [] else SstUnion(ssts[..|ssts| - 1]) + ssts[|ssts| - 1]
  }

  lemma {:induction false} StrictIsSorted(es: seq<Entry>)
    requires StrictlySorted(es)
    ensures Sorted(es)
  {
  }

  /** In a strictly sorted list the first visible version is the newest one. */
  lemma {:induction false} FirstIsNewest(es: seq<Entry>, key: Bytes, seqno: nat)
    requires StrictlySorted(es)
    ensures forall e :: e in es && Visible(e, key, seqno) ==>
              FirstVisible(es, key, seqno).Some? && e.key.seqno <= FirstVisible(es, key, seqno).value.key.seqno
  {
    hide Compare, StrictlySorted;
    if es != [] {
      assert es == [es[0]] + es[1..];
      StrictlySortedConcat([es[0]], es[1..]);
      FirstIsNewest(es[1..], key, seqno);
      forall e | e in es && Visible(e, key, seqno)
        ensures FirstVisible(es, key, seqno).Some? && e.key.seqno <= FirstVisible(es, key, seqno).value.key.seqno
      {
        if Visible(es[0], key, seqno) && e != es[0] {
          assert e in es[1..] && es[0] in [es[0]];
          NewerFirst(es[0], e);
        }
      }
    }
  }

  /**
   * The newest visible version of a history is the only one with its sequence number, if sequence numbers are
   * distinct.
   */
  ghost predicate IsNewest(h: History, key: Bytes, seqno: nat, r: Option<Entry>) {
    && (r.Some? ==> r.value in h && Visible(r.value, key, seqno))
    && (forall e :: e in h && Visible(e, key, seqno) ==> r.Some? && e.key.seqno <= r.value.key.seqno)
  }

  ghost predicate DistinctSeqnos(h: History) {
    forall x, y :: x in h && y in h && x.key.userKey == y.key.userKey && x.key.seqno == y.key.seqno ==> x == y
  }

  lemma {:induction false} NewestUnique(h: History, key: Bytes, seqno: nat, r: Option<Entry>)
    requires DistinctSeqnos(h) && IsNewest(h, key, seqno, r)
    ensures r == Newest(h, key, seqno)
  {
  }

  lemma {:induction false} StrictDistinct(es: seq<Entry>)
    requires StrictlySorted(es)
    ensures DistinctSeqnos(es)
  {
    hide Compare;
    forall x, y | x in es && y in es && x.key.userKey == y.key.userKey && x.key.seqno == y.key.seqno ensures x == y {
      var i :| 0 <= i < |es| && es[i] == x;
      var j :| 0 <= j < |es| && es[j] == y;
      CompareAntisymmetric(x.key, y.key);
    }
  }

  /** Newer over older: the newer layer answers when it can. */
  lemma {:induction false} NewestOver(old_: History, new_: History, key: Bytes, seqno: nat)
    requires Above(new_, old_)
    ensures Newest(old_ + new_, key, seqno)
         == var r := Newest(new_, key, seqno); if r.Some? then r else Newest(old_, key, seqno)
  {
    hide Newest;
    if new_ == [] {
      NothingNewest(key, seqno);
      assert old_ + new_ == old_;
    } else {
      var n := |new_| - 1;
      var e := new_[n];
      NewestSnoc(old_ + new_[..n], e, key, seqno);
      NewestSnoc(new_[..n], e, key, seqno);
      assert old_ + new_ == old_ + new_[..n] + [e] && new_ == new_[..n] + [e];
      NewestOver(old_, new_[..n], key, seqno);
      NewestThere(old_, key, seqno);
      NewestThere(new_[..n], key, seqno);
    }
  }

  lemma {:induction false} NewestThere(h: History, key: Bytes, seqno: nat)
    ensures var r := Newest(h, key, seqno); r.Some? ==> r.value in h && Visible(r.value, key, seqno)
  {
  }

  lemma {:induction false} NewestSnoc(h: History, e: Entry, key: Bytes, seqno: nat)
    ensures Newest(h + [e], key, seqno)
         == var r := Newest(h, key, seqno);
            if Visible(e, key, seqno) && (r.None? || e.key.seqno >= r.value.key.seqno) then Some(e) else r
  {
    assert (h + [e])[..|h|] == h;
  }

  lemma {:induction false} NewestOfLayer(es: seq<Entry>, key: Bytes, seqno: nat)
    requires StrictlySorted(es)
    ensures Newest(es, key, seqno) == FirstVisible(es, key, seqno)
  {
    hide StrictlySorted, Compare;
    FirstIsNewest(es, key, seqno);
    StrictDistinct(es);
    NewestUnique(es, key, seqno, FirstVisible(es, key, seqno));
  }

  lemma {:induction false} SstHitIsNewest(ssts: seq<seq<Entry>>, bound: nat, key: Bytes, seqno: nat)
    requires SstsLayered(ssts, bound)
    ensures SstHit(ssts, key, seqno) == OutcomeOf(Newest(SstUnion(ssts), key, seqno))
  {
    hide StrictlySorted, Visible, FirstVisible, Newest;
    if ssts == [] {
      NothingNewest(key, seqno);
    } else {
      var n := |ssts| - 1;
      assert SstsLayered(ssts[..n], bound);
      SstHitIsNewest(ssts[..n], bound, key, seqno);
      NewestOfLayer(ssts[n], key, seqno);
      AboveUnion(ssts[n], ssts[..n]);
      NewestOver(SstUnion(ssts[..n]), ssts[n], key, seqno);
    }
  }

  lemma {:induction false} NothingNewest(key: Bytes, seqno: nat)
    ensures Newest([], key, seqno) == None
  {
  }

  lemma {:induction false} AboveUnion(es: seq<Entry>, ssts: seq<seq<Entry>>)
    requires forall i :: 0 <= i < |ssts| ==> Above(es, ssts[i])
    ensures Above(es, SstUnion(ssts))
  {
    if ssts != [] {
      AboveUnion(es, ssts[..|ssts| - 1]);
    }
  }

  /** First hit wins is the newest version over all layers together, tombstones included. */
  lemma {:induction false} FirstHitIsNewest(s: Store, key: Bytes)
    requires Layered(s)
    ensures FirstHit(s, key) == OutcomeOf(Newest(Union(s), key, s.seqno))
  {
    hide StrictlySorted, SstUnion, SstHit;
    var tables, imm := SstUnion(s.ssts), Frozen(s.imm);
    SstHitIsNewest(s.ssts, s.seqno, key, s.seqno);
    AboveUnion(imm, s.ssts);
    AboveUnion(s.mem, s.ssts);
    NewestOfLayer(imm, key, s.seqno);
    NewestOfLayer(s.mem, key, s.seqno);
    NewestOver(tables, imm, key, s.seqno);
    NewestOver(tables + imm, s.mem, key, s.seqno);
  }

  // ----- What applying operations does to the layers and to reads

  lemma {:induction false} ApplyOpsEntries(mem: seq<Entry>, seqno: nat, ops: seq<Operation>)
    requires seqno + |ops| <= MAX_UINT64 && StrictlySorted(mem) && AtMost(mem, seqno)
    ensures var r := ApplyOps(mem, seqno, ops);
            && StrictlySorted(r) && AtMost(r, seqno + |ops|)
            && (forall e :: e in r ==> e in mem || e.key.seqno > seqno)
            && (forall e :: e in mem ==> e in r)
            && |r| == |mem| + |ops|
  {
    hide StrictlySorted, Insert;
    if ops != [] {
      var n := |ops| - 1;
      ApplyOpsEntries(mem, seqno, ops[..n]);
      var before := ApplyOps(mem, seqno, ops[..n]);
      var e := EntryOf(ops[n], seqno + |ops|);
      InsertMembers(before, e);
      InsertStrictlySorted(before, e);
    }
  }

  /** After a batch, reading the memtable finds the batch's last operation on the key, or what was there before. */
  lemma {:induction false} ApplyOpsReads(mem: seq<Entry>, seqno: nat, ops: seq<Operation>, key: Bytes, bound: nat)
    requires seqno + |ops| <= MAX_UINT64 && StrictlySorted(mem) && AtMost(mem, seqno) && bound >= seqno + |ops|
    ensures ScanGet(ApplyOps(mem, seqno, ops), key, bound)
         == if LastOp(ops, key).Some? then FoldView(ops, key) else ScanGet(mem, key, bound)
  {
    hide StrictlySorted, Insert;
    if ops != [] {
      var n := |ops| - 1;
      ApplyOpsReads(mem, seqno, ops[..n], key, bound);
      ApplyOpsEntries(mem, seqno, ops[..n]);
      var before := ApplyOps(mem, seqno, ops[..n]);
      StrictIsSorted(before);
      FirstVisibleInsert(before, EntryOf(ops[n], seqno + |ops|), key, bound);
    }
  }

  /** A read bound above every sequence number hides nothing. */
  lemma {:induction false} BoundIrrelevant(es: seq<Entry>, key: Bytes, a: nat, b: nat)
    requires AtMost(es, a) && a <= b
    ensures FirstVisible(es, key, a) == FirstVisible(es, key, b)
  {
    if es != [] {
      assert es == [es[0]] + es[1..];
      BoundIrrelevant(es[1..], key, a, b);
    }
  }

  lemma {:induction false} SstBoundIrrelevant(ssts: seq<seq<Entry>>, key: Bytes, a: nat, b: nat)
    requires (forall i :: 0 <= i < |ssts| ==> AtMost(ssts[i], a)) && a <= b
    ensures SstHit(ssts, key, a) == SstHit(ssts, key, b)
  {
    if ssts != [] {
      BoundIrrelevant(ssts[|ssts| - 1], key, a, b);
      SstBoundIrrelevant(ssts[..|ssts| - 1], key, a, b);
    }
  }

  function Applied(s: Store, ops: seq<Operation>): Store
    requires s.seqno + |ops| <= MAX_UINT64
  {
    s.(mem := ApplyOps(s.mem, s.seqno, ops), seqno := s.seqno + |ops|)
  }

  lemma {:induction false} ApplyKeepsLayers(s: Store, ops: seq<Operation>)
    requires Layered(s) && s.seqno + |ops| <= MAX_UINT64
    ensures Layered(Applied(s, ops))
  {
    hide StrictlySorted, ApplyOps;
    ApplyOpsEntries(s.mem, s.seqno, ops);
  }

  /** A batch is seen whole: every key it names reads as its last operation on it, every other key as before. */
  lemma {:induction false} ApplyReads(s: Store, ops: seq<Operation>, key: Bytes)
    requires Layered(s) && s.seqno + |ops| <= MAX_UINT64
    ensures FirstHit(Applied(s, ops), key)
         == if LastOp(ops, key).Some? then FoldView(ops, key) else FirstHit(s, key)
  {
    hide StrictlySorted, ApplyOps, SstHit, FirstVisible;
    var b := s.seqno + |ops|;
    ApplyOpsReads(s.mem, s.seqno, ops, key, b);
    BoundIrrelevant(s.mem, key, s.seqno, b);
    BoundIrrelevant(Frozen(s.imm), key, s.seqno, b);
    SstBoundIrrelevant(s.ssts, key, s.seqno, b);
  }

  lemma {:induction false} ApplyOpsConcat(mem: seq<Entry>, seqno: nat, a: seq<Operation>, b: seq<Operation>)
    requires seqno + |a| + |b| <= MAX_UINT64
    ensures ApplyOps(mem, seqno, a + b) == ApplyOps(ApplyOps(mem, seqno, a), seqno + |a|, b)
    decreases b
  {
    hide Insert;
    if b == [] {
      assert a + b == a;
    } else {
      assert (a + b)[..|a + b| - 1] == a + b[..|b| - 1];
      ApplyOpsConcat(mem, seqno, a, b[..|b| - 1]);
    }
  }

  /** Applying one list of operations after another is applying both at once. */
  lemma {:induction false} AppliedConcat(s: Store, a: seq<Operation>, b: seq<Operation>)
    requires s.seqno + |a| + |b| <= MAX_UINT64
    ensures Applied(Applied(s, a), b) == Applied(s, a + b)
  {
    hide ApplyOps;
    ApplyOpsConcat(s.mem, s.seqno, a, b);
    assert |a + b| == |a| + |b|;
  }

  /** Folding one list of operations after another. */
  lemma {:induction false} FoldConcat(a: seq<Operation>, b: seq<Operation>, key: Bytes)
    ensures FoldView(a + b, key) == if LastOp(b, key).Some? then FoldView(b, key) else FoldView(a, key)
    ensures LastOp(a + b, key).Some? <==> LastOp(a, key).Some? || LastOp(b, key).Some?
  {
    if b == [] {
      assert a + b == a;
    } else {
      assert (a + b)[..|a + b| - 1] == a + b[..|b| - 1];
      FoldConcat(a, b[..|b| - 1], key);
    }
  }

  // ----- Rotation and publication

  /** Freezing the memtable changes no read and keeps the layers in order. */
  lemma {:induction false} FreezeKeeps(s: Store)
    requires Layered(s) && s.imm.None?
    ensures Layered(s.(mem := [], imm := Some(s.mem)))
    ensures forall key :: FirstHit(s.(mem := [], imm := Some(s.mem)), key) == FirstHit(s, key)
    ensures multiset(Union(s.(mem := [], imm := Some(s.mem)))) == multiset(Union(s))
  {
    hide Compare, SstHit, SstUnion;
  }

  /** Publishing the frozen memtable as the newest table changes no read and keeps the layers in order. */
  lemma {:induction false} PublishKeeps(s: Store)
    requires Layered(s) && s.imm.Some?
    ensures Layered(s.(imm := None, ssts := s.ssts + [s.imm.value]))
    ensures forall key :: FirstHit(s.(imm := None, ssts := s.ssts + [s.imm.value]), key) == FirstHit(s, key)
    ensures multiset(Union(s.(imm := None, ssts := s.ssts + [s.imm.value]))) == multiset(Union(s))
  {
    assert StrictlySorted([]);
    hide StrictlySorted, FirstVisible;
    var ssts := s.ssts + [s.imm.value];
    assert ssts[..|ssts| - 1] == s.ssts;
    assert SstUnion(ssts) + [] + s.mem == Union(s);
  }

  /** Dropping an empty frozen memtable changes no read. */
  lemma {:induction false} DropEmptyKeeps(s: Store)
    requires Layered(s) && s.imm == Some([])
    ensures Layered(s.(imm := None))
    ensures forall key :: FirstHit(s.(imm := None), key) == FirstHit(s, key)
    ensures Union(s.(imm := None)) == Union(s)
  {
  }
}
