/** What the operations of a log are, and how they change as the log is written, marked, cut and replayed. */
module EngineLogs {
  import opened Basics
  import opened Runs
  import opened Batches
  import opened EngineStore
  import opened EngineProtocol

  /** A record's batch as far as it is in the memtable. */
  function AppliedPart(r: LogRec): seq<Operation> {
    if r.applied then r.batch else []
  }

  lemma {:induction false} OpsSnoc(log: seq<LogRec>, r: LogRec)
    ensures AllOps(log + [r]) == AllOps(log) + r.batch
    ensures AppliedOps(log + [r]) == AppliedOps(log) + AppliedPart(r)
  {
    assert (log + [r])[..|log|] == log;
  }

  lemma {:induction false} AllOpsConcat(a: seq<LogRec>, b: seq<LogRec>)
    ensures AllOps(a + b) == AllOps(a) + AllOps(b)
  {
    if b == [] {
      assert a + b == a;
      assert AllOps(b) == [];
    } else {
      hide AllOps, AppliedOps, AppliedPart;
      var p, r := b[..|b| - 1], b[|b| - 1];
      AllOpsConcat(a, p);
      OpsSnoc(p, r);
      OpsSnoc(a + p, r);
      Assoc(AllOps(a), AllOps(p), r.batch);
      Assoc(a, p, [r]);
      assert b == p + [r];
    }
  }

  /** Acknowledging records changes neither list of operations; marking them applied does not change the whole list. */
  lemma {:induction false} SameBatches(a: seq<LogRec>, b: seq<LogRec>)
    requires |a| == |b| && forall i :: 0 <= i < |a| ==> a[i].batch == b[i].batch
    ensures AllOps(a) == AllOps(b)
    ensures (forall i :: 0 <= i < |a| ==> a[i].applied == b[i].applied) ==> AppliedOps(a) == AppliedOps(b)
  {
    if a != [] {
      SameBatches(a[..|a| - 1], b[..|b| - 1]);
    }
  }

  /** Marking the last record applied adds its batch at the end. */
  lemma {:induction false} MarkLastOps(d: Disk, acked: bool)
    requires d.log != [] && !d.log[|d.log| - 1].applied
    ensures AppliedOps(MarkLast(d, acked).log) == AppliedOps(d.log) + d.log[|d.log| - 1].batch
    ensures AllOps(MarkLast(d, acked).log) == AllOps(d.log)
  {
    var n := |d.log| - 1;
    var r := d.log[n];
    assert d.log == d.log[..n] + [r];
    assert MarkLast(d, acked).log == d.log[..n] + [r.(applied := true, acked := acked)];
    OpsSnoc(d.log[..n], r);
    OpsSnoc(d.log[..n], r.(applied := true, acked := acked));
  }

  lemma {:induction false} AllAppliedOps(log: seq<LogRec>)
    requires forall i :: 0 <= i < |log| ==> log[i].applied
    ensures AppliedOps(log) == AllOps(log)
  {
    if log != [] {
      AllAppliedOps(log[..|log| - 1]);
    }
  }

  lemma {:induction false} ReplayedOps(log: seq<LogRec>)
    ensures AppliedOps(Replayed(log)) == AllOps(log) && AllOps(Replayed(log)) == AllOps(log)
  {
    SameBatches(Replayed(log), log);
    AllAppliedOps(Replayed(log));
  }

  /** When every applied record is among the first n, the applied operations are among theirs. */
  lemma {:induction false} AppliedWithin(log: seq<LogRec>, n: nat)
    requires n <= |log| && forall i :: n <= i < |log| ==> !log[i].applied
    ensures |AppliedOps(log)| <= |AllOps(log[..n])|
    ensures forall op :: op in AppliedOps(log) ==> op in AllOps(log[..n])
  {
    if log != [] {
      var k := |log| - 1;
      assert log == log[..k] + [log[k]];
      OpsSnoc(log[..k], log[k]);
      if n == |log| {
        AppliedWithin(log[..k], k);
        assert log[..n] == log[..k] + [log[k]] && log[..k][..k] == log[..k];
      } else {
        AppliedWithin(log[..k], n);
        assert log[..k][..n] == log[..n];
      }
    }
  }

  /** A key named by some operation of the list. */
  predicate Names(ops: seq<Operation>, key: Bytes) {
    LastOp(ops, key).Some?
  }

  lemma {:induction false} NamesSubset(a: seq<Operation>, b: seq<Operation>, key: Bytes)
    requires forall op :: op in a ==> op in b
    ensures Names(a, key) ==> Names(b, key)
  {
  }

  lemma {:induction false} NamesPrefix(log: seq<LogRec>, n: nat, m: nat, key: Bytes)
    requires n <= m <= |log|
    ensures Names(AllOps(log[..n]), key) ==> Names(AllOps(log[..m]), key)
  {
    assert log[..m] == log[..n] + log[n..m];
    AllOpsConcat(log[..n], log[n..m]);
    FoldConcat(AllOps(log[..n]), AllOps(log[n..m]), key);
  }

  lemma {:induction false} NamedIffSeen(ops: seq<Operation>, key: Bytes)
    ensures Names(ops, key) <==> FoldView(ops, key) != Missing
  {
  }
}
