/** The reference memtable: every write in insertion order, read by a full scan. */
module ReferenceModel {
  import opened Basics
  import opened Keys
  import opened Runs

  /** A history of versioned writes, oldest first. */
  type History = seq<Entry>

  /** The newest visible write; among equal sequence numbers the one inserted last. */
  function Newest(h: History, userKey: Bytes, seqno: nat): (r: Option<Entry>)
    ensures r.Some? ==> r.value in h && Visible(r.value, userKey, seqno)
    ensures forall e :: e in h && Visible(e, userKey, seqno) ==> r.Some? && e.key.seqno <= r.value.key.seqno
  {
    if h == [] then None
    else
      var n := |h| - 1;
      assert h == h[..n] + [h[n]];
      var r := Newest(h[..n], userKey, seqno);
      if Visible(h[n], userKey, seqno) && (r.None? || h[n].key.seqno >= r.value.key.seqno) then Some(h[n]) else r
  }

  /** What a memtable holds after a history: each write inserted in turn. */
  function Run(h: History): seq<Entry> {
    if h == [] then [] else Insert(Run(h[..|h| - 1]), h[|h| - 1])
  }

  lemma {:induction false} RunSorted(h: History)
    ensures Sorted(Run(h)) && multiset(Run(h)) == multiset(h)
  {
    if h != [] {
      var n := |h| - 1;
      assert h == h[..n] + [h[n]];
      RunSorted(h[..n]);
      InsertSorted(Run(h[..n]), h[n]);
    }
  }

  /** The sorted list answers every read exactly as the history does, ties included. */
  lemma {:induction false} RunRefinesHistory(h: History, userKey: Bytes, seqno: nat)
    ensures FirstVisible(Run(h), userKey, seqno) == Newest(h, userKey, seqno)
  {
    if h != [] {
      var n := |h| - 1;
      RunRefinesHistory(h[..n], userKey, seqno);
      RunSorted(h[..n]);
      FirstVisibleInsert(Run(h[..n]), h[n], userKey, seqno);
    }
  }

  class Model {
    var entries: History

    constructor ()
      ensures entries == []
    {
      entries := [];
    }

    method PutAt(key: Bytes, value: Bytes, seqno: uint64)
      modifies this
      ensures entries == old(entries) + [Entry(InternalKey(key, seqno, KIND_PUT), value)]
    {
      entries := entries + [Entry(InternalKey(key, seqno, KIND_PUT), value)];
    }

    method DeleteAt(key: Bytes, seqno: uint64)
      modifies this
      ensures entries == old(entries) + [Entry(InternalKey(key, seqno, KIND_DELETE), [])]
    {
      entries := entries + [Entry(InternalKey(key, seqno, KIND_DELETE), [])];
    }

    method GetAt(key: Bytes, seqno: uint64) returns (r: Lookup)
      ensures r == OutcomeOf(Newest(entries, key, seqno))
    {
      var best: Option<Entry> := None;
      for i := 0 to |entries|
        invariant best == Newest(entries[..i], key, seqno)
      {
        var e := entries[i];
        assert entries[..i + 1][..i] == entries[..i];
        if e.key.userKey != key || e.key.seqno > seqno {
          continue;
        }
        if best.None? || e.key.seqno >= best.value.key.seqno {
          best := Some(e);
        }
      }
      assert entries[..|entries|] == entries;
      r := if best.None? then Missing
           else if best.value.key.kind == KIND_DELETE then Tombstone
           else Present(best.value.value);
    }
  }
}
