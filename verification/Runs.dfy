/**
 * Sorted runs: the entry lists that a memtable holds, a flush writes and an SSTable gives back.
 * A point lookup on any of them is FirstVisible, so this module is where the layers meet.
 */
module Runs {
  import opened Basics
  import opened Keys

  datatype Entry = Entry(key: InternalKey, value: Bytes)

  /** The three outcomes of a point lookup; an empty value is Present, never Missing. */
  datatype Lookup = Missing | Tombstone | Present(value: Bytes)

  function Outcome(e: Entry): Lookup {
    if e.key.kind == KIND_DELETE then Tombstone else Present(e.value)
  }

  function OutcomeOf(e: Option<Entry>): Lookup {
    if e.None? then Missing else Outcome(e.value)
  }

  ghost predicate Sorted(es: seq<Entry>) {
    forall i, j :: 0 <= i < j < |es| ==> Compare(es[i].key, es[j].key) <= 0
  }

  ghost predicate StrictlySorted(es: seq<Entry>) {
    forall i, j :: 0 <= i < j < |es| ==> Compare(es[i].key, es[j].key) < 0
  }

  /** A strictly sorted list splits into two, everything in the first below everything in the second. */
  lemma {:induction false} StrictlySortedConcat(a: seq<Entry>, b: seq<Entry>)
    requires StrictlySorted(a + b)
    ensures StrictlySorted(a) && StrictlySorted(b)
    ensures forall x, y :: x in a && y in b ==> Compare(x.key, y.key) < 0
  {
    hide Compare;
    var s := a + b;
    assert forall i :: 0 <= i < |a| ==> s[i] == a[i];
    assert forall j :: 0 <= j < |b| ==> s[|a| + j] == b[j];
    forall x, y | x in a && y in b ensures Compare(x.key, y.key) < 0 {
      var i :| 0 <= i < |a| && a[i] == x;
      var j :| 0 <= j < |b| && b[j] == y;
      assert Compare(s[i].key, s[|a| + j].key) < 0;
    }
    forall i, j | 0 <= i < j < |b| ensures Compare(b[i].key, b[j].key) < 0 {
      assert Compare(s[|a| + i].key, s[|a| + j].key) < 0;
    }
  }

  /** A version of userKey that a read at seqno may see. */
  predicate Visible(e: Entry, userKey: Bytes, seqno: nat) {
    e.key.userKey == userKey && e.key.seqno <= seqno
  }

  /** The first visible version in list order: what a linear scan finds. */
  function FirstVisible(es: seq<Entry>, userKey: Bytes, seqno: nat): (r: Option<Entry>)
    ensures r.Some? ==> r.value in es && Visible(r.value, userKey, seqno)
    ensures r.None? <==> forall e :: e in es ==> !Visible(e, userKey, seqno)
  {
    if es == [] then None
    else if Visible(es[0], userKey, seqno) then Some(es[0])
    else
      var r := FirstVisible(es[1..], userKey, seqno);
      assert es == [es[0]] + es[1..];
      r
  }

  function ScanGet(es: seq<Entry>, userKey: Bytes, seqno: nat): Lookup {
    OutcomeOf(FirstVisible(es, userKey, seqno))
  }

  /** How many leading entries are below key; in a sorted list, where key belongs. */
  function LowerBound(es: seq<Entry>, key: InternalKey): (p: nat)
    ensures p <= |es|
    ensures forall i :: 0 <= i < p ==> Compare(es[i].key, key) < 0
    ensures p < |es| ==> Compare(es[p].key, key) >= 0
  {
    if es == [] || Compare(es[0].key, key) >= 0 then 0 else 1 + LowerBound(es[1..], key)
  }

  /** In a sorted list everything from the lower bound on is at least key. */
  lemma {:induction false} LowerBoundSplits(es: seq<Entry>, key: InternalKey)
    requires Sorted(es)
    ensures forall i :: LowerBound(es, key) <= i < |es| ==> Compare(es[i].key, key) >= 0
  {
    var p := LowerBound(es, key);
    forall i | p <= i < |es| ensures Compare(es[i].key, key) >= 0 {
      CompareAntisymmetric(es[i].key, key);
      CompareAntisymmetric(es[p].key, key);
      if i > p && Compare(es[i].key, key) < 0 {
        CompareTransitive(es[p].key, es[i].key, key);
      }
    }
  }

  /** Seeking to (target, largest sequence number) splits a sorted list by user key alone. */
  lemma {:induction false} SeekKeySplits(es: seq<Entry>, target: Bytes)
    requires Sorted(es)
    ensures var p := LowerBound(es, InternalKey(target, MAX_UINT64, KIND_PUT));
            && (forall i :: 0 <= i < p ==> CompareBytes(es[i].key.userKey, target) < 0)
            && (forall i :: p <= i < |es| ==> CompareBytes(es[i].key.userKey, target) >= 0)
  {
    LowerBoundSplits(es, InternalKey(target, MAX_UINT64, KIND_PUT));
  }

  /** A new entry goes in front of the entries it ties with. */
  function Insert(es: seq<Entry>, e: Entry): (r: seq<Entry>)
    ensures |r| == |es| + 1
    ensures multiset(r) == multiset(es) + multiset{e}
  {
    var p := LowerBound(es, e.key);
    assert es == es[..p] + es[p..];
    es[..p] + [e] + es[p..]
  }

  lemma {:induction false} InsertMembers(es: seq<Entry>, e: Entry)
    ensures forall x :: x in Insert(es, e) <==> x in es || x == e
  {
    forall x ensures x in Insert(es, e) <==> x in es || x == e {
      assert x in Insert(es, e) <==> x in multiset(Insert(es, e));
    }
  }

  lemma {:induction false} InsertSorted(es: seq<Entry>, e: Entry)
    requires Sorted(es)
    ensures Sorted(Insert(es, e))
  {
    LowerBoundSplits(es, e.key);
    forall i | 0 <= i < |es| ensures Compare(es[i].key, e.key) == -Compare(e.key, es[i].key) {
      CompareAntisymmetric(es[i].key, e.key);
    }
  }

  /** An entry whose (user key, sequence number) pair is new keeps the list strictly sorted. */
  lemma {:induction false} InsertStrictlySorted(es: seq<Entry>, e: Entry)
    requires StrictlySorted(es)
    requires forall x :: x in es ==> x.key.userKey != e.key.userKey || x.key.seqno != e.key.seqno
    ensures StrictlySorted(Insert(es, e))
  {
    LowerBoundSplits(es, e.key);
    hide Compare;
    forall i | 0 <= i < |es|
      ensures Compare(es[i].key, e.key) == -Compare(e.key, es[i].key) && Compare(es[i].key, e.key) != 0
    {
      assert es[i] in es;
      CompareAntisymmetric(es[i].key, e.key);
    }
  }

  lemma {:induction false} FirstVisibleConcat(a: seq<Entry>, b: seq<Entry>, userKey: Bytes, seqno: nat)
    ensures FirstVisible(a + b, userKey, seqno)
         == var r := FirstVisible(a, userKey, seqno); if r.Some? then r else FirstVisible(b, userKey, seqno)
  {
    if a == [] {
      assert a + b == b;
    } else {
      assert (a + b)[1..] == a[1..] + b;
      FirstVisibleConcat(a[1..], b, userKey, seqno);
    }
  }

  /** One more entry of a scan that has found nothing yet. */
  lemma {:induction false} ScanStep(es: seq<Entry>, i: nat, userKey: Bytes, seqno: nat)
    requires i < |es| && FirstVisible(es[..i], userKey, seqno).None?
    ensures if Visible(es[i], userKey, seqno) then FirstVisible(es, userKey, seqno) == Some(es[i])
            else FirstVisible(es[..i + 1], userKey, seqno).None?
  {
    var before, after := es[..i], es[i + 1..];
    assert es == before + ([es[i]] + after) && es[..i + 1] == before + [es[i]];
    if Visible(es[i], userKey, seqno) {
      FirstVisibleConcat(before, [es[i]] + after, userKey, seqno);
    } else {
      FirstVisibleConcat(before, [es[i]], userKey, seqno);
    }
  }

  /** In a sorted list, the versions of one user key come newest first. */
  lemma {:induction false} NewerFirst(a: Entry, b: Entry)
    requires a.key.userKey == b.key.userKey
    ensures Compare(a.key, b.key) < 0 <==> a.key.seqno > b.key.seqno
    ensures Compare(a.key, b.key) <= 0 <==> a.key.seqno >= b.key.seqno
  {
    CompareAntisymmetric(a.key, b.key);
    CompareBytesAntisymmetric(a.key.userKey, b.key.userKey);
  }

  /** What an insertion does to a lookup: the new entry wins unless a strictly newer version is visible. */
  lemma {:induction false} FirstVisibleInsert(es: seq<Entry>, e: Entry, userKey: Bytes, seqno: nat)
    requires Sorted(es)
    ensures FirstVisible(Insert(es, e), userKey, seqno)
         == var r := FirstVisible(es, userKey, seqno);
            if Visible(e, userKey, seqno) && (r.None? || e.key.seqno >= r.value.key.seqno) then Some(e) else r
  {
    var p := LowerBound(es, e.key);
    var before, after := es[..p], es[p..];
    assert es == before + after;
    FirstVisibleConcat(before, after, userKey, seqno);
    FirstVisibleConcat(before, [e] + after, userKey, seqno);
    FirstVisibleConcat([e], after, userKey, seqno);
    assert Insert(es, e) == before + ([e] + after);
    LowerBoundSplits(es, e.key);
    if Visible(e, userKey, seqno) {
      var r := FirstVisible(before, userKey, seqno);
      if r.Some? {
        NewerFirst(r.value, e);
      } else {
        var q := FirstVisible(after, userKey, seqno);
        if q.Some? {
          NewerFirst(q.value, e);
        }
      }
    }
  }

  /**
   * Reading a sorted list by seeking to (userKey, seqno) and looking at one entry is a linear scan:
   * the fast path of the skip list agrees with FirstVisible.
   */
  lemma {:induction false} SeekIsScan(es: seq<Entry>, userKey: Bytes, seqno: uint64, kind: byte)
    requires Sorted(es)
    ensures var p := LowerBound(es, InternalKey(userKey, seqno, kind));
            FirstVisible(es, userKey, seqno)
            == if p < |es| && Visible(es[p], userKey, seqno) then Some(es[p]) else None
  {
    var k := InternalKey(userKey, seqno, kind);
    var p := LowerBound(es, k);
    LowerBoundSplits(es, k);
    assert es == es[..p] + es[p..];
    FirstVisibleConcat(es[..p], es[p..], userKey, seqno);
    forall e | e in es[..p] ensures !Visible(e, userKey, seqno) {
      if Visible(e, userKey, seqno) {
        NewerFirst(e, Entry(k, []));
      }
    }
    if p < |es| && !Visible(es[p], userKey, seqno) {
      forall i | p <= i < |es| ensures !Visible(es[i], userKey, seqno) {
        if Visible(es[i], userKey, seqno) {
          NewerFirst(es[i], Entry(k, []));
          CompareAntisymmetric(es[i].key, k);
          SameKeyBetween(es, p, i, k);
        }
      }
    }
  }

  /** Between a lower bound k and a later entry equal to it or older, every entry has k's user key. */
  lemma {:induction false} SameKeyBetween(es: seq<Entry>, p: nat, i: nat, k: InternalKey)
    requires Sorted(es) && p <= i < |es|
    requires Compare(es[p].key, k) >= 0 && es[i].key.userKey == k.userKey
    ensures es[p].key.userKey == k.userKey && es[p].key.seqno <= k.seqno
  {
    CompareBytesAntisymmetric(es[p].key.userKey, k.userKey);
    CompareBytesAntisymmetric(es[p].key.userKey, es[i].key.userKey);
  }
}
