/** The memtable: a skip list whose towers are rewired in place. */
module SkipLists {
  import opened Basics
  import opened Keys
  import opened Runs
  import opened ReferenceModel

  // ----- Positions inside a list of tower heights; position 0 is the head.

  /** The first position from i on whose tower reaches above level, or the end. */
  function NextTall(heights: seq<nat>, i: nat, level: nat): (r: nat)
    requires i <= |heights|
    ensures i <= r <= |heights|
    ensures r < |heights| ==> heights[r] > level
    ensures forall k :: i <= k < r ==> heights[k] <= level
    decreases |heights| - i
  {
    if i == |heights| || heights[i] > level then i else NextTall(heights, i + 1, level)
  }

  /** The last position up to p whose tower reaches above level; the head when there is no other. */
  function LastTall(heights: seq<nat>, p: nat, level: nat): (r: nat)
    requires p < |heights|
    ensures r <= p
    ensures r > 0 ==> heights[r] > level
    ensures forall k :: r < k <= p ==> heights[k] <= level
  {
    if p == 0 || heights[p] > level then p else LastTall(heights, p - 1, level)
  }

  /** The two properties of NextTall say which position it is. */
  lemma {:induction false} NextTallIs(heights: seq<nat>, i: nat, level: nat, r: nat)
    requires i <= r <= |heights|
    requires r < |heights| ==> heights[r] > level
    requires forall k :: i <= k < r ==> heights[k] <= level
    ensures NextTall(heights, i, level) == r
  {
  }

  /** r is s with x put in front of position i. */
  ghost predicate Inserted<T>(s: seq<T>, i: nat, x: T, r: seq<T>) {
    && i <= |s| && |r| == |s| + 1 && r[i] == x
    && (forall k :: 0 <= k < i ==> r[k] == s[k])
    && (forall k :: i < k < |r| ==> r[k] == s[k - 1])
  }

  function Splice<T>(s: seq<T>, i: nat, x: T): (r: seq<T>)
    requires i <= |s|
    ensures Inserted(s, i, x, r)
    ensures forall y :: y in r ==> y in s || y == x
  {
    s[..i] + [x] + s[i..]
  }

  /** Successors found before the insertion point do not move. */
  lemma {:induction false} NextTallBefore(heights: seq<nat>, at: nat, h: nat, hs: seq<nat>, level: nat, i: nat)
    requires Inserted(heights, at, h, hs)
    requires i <= at && NextTall(heights, i, level) < at
    ensures NextTall(hs, i, level) == NextTall(heights, i, level)
  {
    NextTallIs(hs, i, level, NextTall(heights, i, level));
  }

  /** A tall enough new tower becomes the successor of everything that used to look past it. */
  lemma {:induction false} NextTallAt(heights: seq<nat>, at: nat, h: nat, hs: seq<nat>, level: nat, i: nat)
    requires Inserted(heights, at, h, hs)
    requires i <= at && NextTall(heights, i, level) >= at && h > level
    ensures NextTall(hs, i, level) == at
  {
    NextTallIs(hs, i, level, at);
  }

  /** A new tower that is too short is looked past. */
  lemma {:induction false} NextTallPast(heights: seq<nat>, at: nat, h: nat, hs: seq<nat>, level: nat, i: nat)
    requires Inserted(heights, at, h, hs)
    requires i <= at && NextTall(heights, i, level) >= at && h <= level
    ensures NextTall(hs, i, level) == NextTall(heights, i, level) + 1
  {
    NextTallIs(hs, i, level, NextTall(heights, i, level) + 1);
  }

  /** Behind the insertion point every position moves up by one. */
  lemma {:induction false} NextTallAfter(heights: seq<nat>, at: nat, h: nat, hs: seq<nat>, level: nat, i: nat)
    requires Inserted(heights, at, h, hs)
    requires at <= i <= |heights|
    ensures NextTall(hs, i + 1, level) == NextTall(heights, i, level) + 1
  {
    NextTallIs(hs, i + 1, level, NextTall(heights, i, level) + 1);
  }

  /** No tower between the last tall one and position p reaches level. */
  lemma {:induction false} NextTallSkips(heights: seq<nat>, p: nat, level: nat)
    requires p < |heights|
    ensures NextTall(heights, LastTall(heights, p, level) + 1, level) == NextTall(heights, p + 1, level)
  {
    NextTallIs(heights, LastTall(heights, p, level) + 1, level, NextTall(heights, p + 1, level));
  }

  /** Towers before the last tall one find their successor no later than it. */
  lemma {:induction false} NextTallBounded(heights: seq<nat>, p: nat, level: nat, k: nat)
    requires p < |heights| && k < LastTall(heights, p, level)
    ensures NextTall(heights, k + 1, level) <= p
  {
  }

  class Node {
    const key: InternalKey
    const value: Bytes
    var next: seq<Node?>

    constructor (key: InternalKey, value: Bytes, height: nat)
      ensures this.key == key && this.value == value
      ensures |next| == height && forall l :: 0 <= l < height ==> next[l] == null
    {
      this.key, this.value := key, value;
      next := seq(height, _ => null);
    }
  }

  ghost function At(nodes: seq<Node>, i: nat): Node? {
    if i < |nodes| then nodes[i] else null
  }

  /** The entries of a node list, head excluded. */
  function Entries(nodes: seq<Node>): (es: seq<Entry>)
    requires |nodes| >= 1
    ensures |es| == |nodes| - 1
    ensures forall i :: 0 <= i < |es| ==> es[i] == Entry(nodes[i + 1].key, nodes[i + 1].value)
  {
    seq(|nodes| - 1, i requires 0 <= i < |nodes| - 1 => Entry(nodes[i + 1].key, nodes[i + 1].value))
  }

  /** Behind the lower bound of its key is where Insert puts an entry. */
  lemma {:induction false} SpliceIsInsert(nodes: seq<Node>, n: Node, p: nat)
    requires |nodes| >= 1 && p == LowerBound(Entries(nodes), n.key) && Sorted(Entries(nodes))
    ensures p < |nodes|
    ensures Entries(Splice(nodes, p + 1, n)) == Insert(Entries(nodes), Entry(n.key, n.value))
    ensures Sorted(Entries(Splice(nodes, p + 1, n)))
  {
    hide Compare, LowerBound, Sorted;
    var es, e := Entries(nodes), Entry(n.key, n.value);
    InsertSorted(es, e);
    assert Entries(Splice(nodes, p + 1, n)) == es[..p] + [e] + es[p..];
  }

  /** links[i] is the next array of the tower at position i; at level it points to the next tower that reaches level. */
  ghost predicate LinkedAt(nodes: seq<Node>, links: seq<seq<Node?>>, level: nat, i: nat)
    requires i < |nodes| == |links|
  {
    |links[i]| > level ==> links[i][level] == At(nodes, NextTall(Heights(links), i + 1, level))
  }

  ghost predicate Linked(nodes: seq<Node>, links: seq<seq<Node?>>, level: nat)
    requires |nodes| == |links|
  {
    forall i :: 0 <= i < |nodes| ==> LinkedAt(nodes, links, level, i)
  }

  ghost predicate LinkedBetween(nodes: seq<Node>, links: seq<seq<Node?>>, low: nat, high: nat)
    requires |nodes| == |links|
  {
    forall l :: low <= l < high ==> Linked(nodes, links, l)
  }

  ghost function Heights(links: seq<seq<Node?>>): (hs: seq<nat>)
    ensures |hs| == |links| && forall i :: 0 <= i < |hs| ==> hs[i] == |links[i]|
  {
    seq(|links|, i requires 0 <= i < |links| => |links[i]|)
  }

  /** A tower before the insertion point, on a level the new tower does not reach, keeps its link. */
  lemma {:induction false} UntouchedBefore(nodes: seq<Node>, links: seq<seq<Node?>>, at: nat, n: Node,
                                           next: seq<Node?>, ns: seq<Node>, ls: seq<seq<Node?>>, level: nat, i: nat)
    requires |nodes| == |links| && |next| <= level && i < at && i < |nodes| && LinkedAt(nodes, links, level, i)
    requires Inserted(nodes, at, n, ns) && Inserted(links, at, next, ls)
    ensures LinkedAt(ns, ls, level, i)
  {
    hide NextTall, Heights;
    var heights, hs := Heights(links), Heights(ls);
    if NextTall(heights, i + 1, level) < at {
      NextTallBefore(heights, at, |next|, hs, level, i + 1);
    } else {
      NextTallPast(heights, at, |next|, hs, level, i + 1);
    }
  }

  /** A level the new tower does not reach keeps its links in the longer list. */
  lemma {:induction false} LinkedUntouched(nodes: seq<Node>, links: seq<seq<Node?>>, at: nat, n: Node, next: seq<Node?>,
                        ns: seq<Node>, ls: seq<seq<Node?>>, level: nat)
    requires |nodes| == |links| && |next| <= level && Linked(nodes, links, level)
    requires Inserted(nodes, at, n, ns) && Inserted(links, at, next, ls)
    ensures Linked(ns, ls, level)
  {
    hide NextTall, Heights;
    forall i | 0 <= i < |ns| ensures LinkedAt(ns, ls, level, i) {
      if i < at {
        UntouchedBefore(nodes, links, at, n, next, ns, ls, level, i);
      } else if i > at {
        assert LinkedAt(nodes, links, level, i - 1);
        NextTallAfter(Heights(links), at, |next|, Heights(ls), level, i);
      }
    }
  }

  lemma {:induction false} NoLevels(nodes: seq<Node>, links: seq<seq<Node?>>)
    requires |nodes| == |links|
    ensures LinkedBetween(nodes, links, 0, 0)
  {
  }

  /** When the levels the new tower reaches are wired, all levels are. */
  lemma {:induction false} UntouchedAbove(nodes: seq<Node>, links: seq<seq<Node?>>, at: nat, n: Node, next: seq<Node?>,
                                          ns: seq<Node>, ls: seq<seq<Node?>>, high: nat)
    requires |nodes| == |links| && LinkedBetween(nodes, links, |next|, high)
    requires Inserted(nodes, at, n, ns) && Inserted(links, at, next, ls) && LinkedBetween(ns, ls, 0, |next|)
    ensures LinkedBetween(ns, ls, 0, high)
  {
    hide Linked;
    forall l | |next| <= l < high ensures Linked(ns, ls, l) {
      LinkedUntouched(nodes, links, at, n, next, ns, ls, l);
    }
  }

  /** Links at one level do not notice changes made at another. */
  lemma {:induction false} LinkedElsewhere(nodes: seq<Node>, links: seq<seq<Node?>>, links': seq<seq<Node?>>,
                                           level: nat)
    requires |nodes| == |links| == |links'| && Heights(links) == Heights(links')
    requires forall i :: 0 <= i < |links| && |links[i]| > level ==> links'[i][level] == links[i][level]
    requires Linked(nodes, links, level)
    ensures Linked(nodes, links', level)
  {
    forall i | 0 <= i < |nodes| ensures LinkedAt(nodes, links', level, i) {
      assert LinkedAt(nodes, links, level, i);
      assert Heights(links)[i] == Heights(links')[i];
    }
  }

  /** The wiring step, seen from the new tower and those behind it: it takes over what its predecessor pointed to. */
  lemma {:induction false} WiredBehind(nodes: seq<Node>, links: seq<seq<Node?>>, p: nat, n: Node, next: seq<Node?>,
                    ns: seq<Node>, ls: seq<seq<Node?>>, level: nat, k: nat)
    requires |nodes| == |links| && p < |nodes| && |links[0]| > level && |next| > level
    requires Linked(nodes, links, level)
    requires Inserted(nodes, p + 1, n, ns) && |ls| == |ns|
    requires Inserted(Heights(links), p + 1, |next|, Heights(ls))
    requires var q := LastTall(Heights(links), p, level);
             |links[q]| > level && next[level] == links[q][level]
    requires p < k < |ns| && ls[k] == if k == p + 1 then next else links[k - 1]
    ensures LinkedAt(ns, ls, level, k)
  {
    hide NextTall, LastTall, Heights;
    NextTallAfter(Heights(links), p + 1, |next|, Heights(ls), level, k);
    if k > p + 1 {
      assert LinkedAt(nodes, links, level, k - 1);
    } else {
      assert LinkedAt(nodes, links, level, LastTall(Heights(links), p, level));
      NextTallSkips(Heights(links), p, level);
    }
  }

  lemma {:induction false} PointsTo(nodes: seq<Node>, links: seq<seq<Node?>>, level: nat, i: nat, n: Node?)
    requires i < |nodes| == |links| && n == At(nodes, NextTall(Heights(links), i + 1, level))
    requires |links[i]| > level ==> links[i][level] == n
    ensures LinkedAt(nodes, links, level, i)
  {
    hide NextTall, Heights;
  }

  /** The wiring step, seen from the towers before it: the predecessor q points to the new one, the others stay. */
  lemma {:induction false} WiredBefore(nodes: seq<Node>, links: seq<seq<Node?>>, p: nat, n: Node, next: seq<Node?>,
                    ns: seq<Node>, ls: seq<seq<Node?>>, level: nat, k: nat)
    requires |nodes| == |links| && p < |nodes| && |links[0]| > level && |next| > level
    requires Linked(nodes, links, level)
    requires Inserted(nodes, p + 1, n, ns) && |ls| == |ns|
    requires Inserted(Heights(links), p + 1, |next|, Heights(ls))
    requires k <= p
    requires var q := LastTall(Heights(links), p, level);
             if k == q then |ls[q]| > level && ls[q][level] == n else ls[k] == links[k]
    ensures LinkedAt(ns, ls, level, k)
  {
    hide NextTall, LastTall, Heights, Linked, LinkedAt;
    var heights, hs, h := Heights(links), Heights(ls), |next|;
    var q := LastTall(heights, p, level);
    if k == q {
      NextTallSkips(heights, p, level);
      NextTallAt(heights, p + 1, h, hs, level, k + 1);
      PointsTo(ns, ls, level, k, n);
    } else if k < q {
      LinkedIs(nodes, links, level, k);
      NextTallBounded(heights, p, level, k);
      NextTallBefore(heights, p + 1, h, hs, level, k + 1);
      PointsTo(ns, ls, level, k, At(nodes, NextTall(heights, k + 1, level)));
    } else {
      PointsTo(ns, ls, level, k, At(ns, NextTall(hs, k + 1, level)));
    }
  }

  lemma {:induction false} LinkedIs(nodes: seq<Node>, links: seq<seq<Node?>>, level: nat, i: nat)
    requires |nodes| == |links| && i < |nodes| && Linked(nodes, links, level)
    ensures |links[i]| > level ==> links[i][level] == At(nodes, NextTall(Heights(links), i + 1, level))
  {
    hide NextTall, Heights;
    assert LinkedAt(nodes, links, level, i);
  }

  class SkipList {
    const maxLevel: nat := 12
    const head: Node
    var level: nat
    var length: nat

    /** The head and then every node in level-0 order, with the next array of each. */
    ghost var nodes: seq<Node>
    ghost var links: seq<seq<Node?>>

    ghost predicate Shape()
      reads this, nodes
    {
      && |nodes| == |links| >= 1 && nodes[0] == head && |links[0]| == maxLevel
      && (forall i, j :: 0 <= i < j < |nodes| ==> nodes[i] != nodes[j])
      && (forall i :: 0 <= i < |nodes| ==> nodes[i].next == links[i])
    }

    /** Every level is the sublist of towers that reach it, in one sorted order, and no tower exceeds level. */
    ghost predicate Valid()
      reads this, nodes
    {
      && Shape()
      && 1 <= level <= maxLevel
      && (forall i :: 0 < i < |nodes| ==> 1 <= |links[i]| <= level)
      && LinkedBetween(nodes, links, 0, maxLevel)
      && Sorted(Entries(nodes))
      && length == |nodes| - 1
    }

    ghost function Contents(): seq<Entry>
      requires Valid()
      reads this, nodes
    {
      Entries(nodes)
    }

    constructor ()
      ensures Valid() && Contents() == []
      ensures fresh(nodes)
    {
      var h := new Node(InternalKey([], 0, 0), [], 12);
      head, level, length := h, 1, 0;
      nodes, links := [h], [h.next];
      new;
      forall l | 0 <= l < maxLevel ensures Linked(nodes, links, l) {
        assert LinkedAt(nodes, links, l, 0);
      }
    }

    lemma {:induction false} LevelLink(i: nat, l: nat)
      requires Valid() && i < |nodes| && l < |links[i]| && l < maxLevel
      ensures nodes[i].next[l] == At(nodes, NextTall(Heights(links), i + 1, l))
    {
      hide NextTall, Heights, Linked;
      assert Linked(nodes, links, l);
      LinkedIs(nodes, links, l, i);
    }

    lemma {:induction false} HeadIsFirst()
      requires Valid()
      ensures |nodes| == |links| && nodes[0] == head && |head.next| == |links[0]| == maxLevel
    {
      hide Sorted, LinkedBetween;
    }

    /** One look ahead on level l: either the next tower is still below key, or this is the last one that is. */
    lemma {:induction false} LookAhead(i: nat, l: nat, key: InternalKey)
      requires Valid() && l < maxLevel && i <= LowerBound(Contents(), key) && l < |links[i]|
      ensures |nodes[i].next| > l
      ensures var heights, p, n := Heights(links), LowerBound(Contents(), key), nodes[i].next[l];
              var j := NextTall(heights, i + 1, l);
              if n != null && Compare(n.key, key) < 0 then j <= p && n == nodes[j] && heights[j] > l
              else LastTall(heights, p, l) == i
    {
      hide Compare, LowerBound, Sorted, NextTall, LastTall, LinkedBetween;
      var p, j := LowerBound(Contents(), key), NextTall(Heights(links), i + 1, l);
      LowerBoundSplits(Contents(), key);
      LevelLink(i, l);
      assert j < |nodes| ==> Contents()[j - 1].key == nodes[j].key;
    }

    /** On each level the last node below key. */
    method FindPredecessors(key: InternalKey) returns (preds: seq<Node>)
      requires Valid()
      ensures |preds| == maxLevel
      ensures var p := LowerBound(Contents(), key);
              forall l :: 0 <= l < maxLevel ==> preds[l] == nodes[LastTall(Heights(links), p, l)]
    {
      hide Compare, LowerBound, Sorted, NextTall, LastTall, LinkedBetween, Shape;
      ghost var p := LowerBound(Contents(), key);
      ghost var heights := Heights(links);
      HeadIsFirst();
      preds := seq(maxLevel, _ => head);
      var current := head;
      ghost var c := 0;
      for lvl := maxLevel downto 0
        invariant |preds| == maxLevel
        invariant 0 <= c <= p && current == nodes[c] && heights[c] >= lvl
        invariant forall l :: lvl <= l < maxLevel ==> preds[l] == nodes[LastTall(heights, p, l)]
      {
        LookAhead(c, lvl, key);
        while current.next[lvl] != null && Compare(current.next[lvl].key, key) < 0
          invariant 0 <= c <= p && current == nodes[c] && heights[c] > lvl && |current.next| > lvl
          invariant var n := current.next[lvl];
                    n == null || Compare(n.key, key) >= 0 ==> LastTall(heights, p, lvl) == c
          decreases p - c
        {
          LookAhead(c, lvl, key);
          c := NextTall(heights, c + 1, lvl);
          current := current.next[lvl];
          LookAhead(c, lvl, key);
        }
        preds := preds[lvl := current];
      }
    }

    /** No level above the recorded one has any node but the head. */
    lemma {:induction false} AboveLevelIsHead(p: nat, l: nat)
      requires Valid() && p < |nodes| && l >= level
      ensures LastTall(Heights(links), p, l) == 0
    {
    }

    /** Level 0 holds every node, so there each one points to the next. */
    lemma {:induction false} BottomLevel(p: nat)
      requires Valid() && p < |nodes|
      ensures LastTall(Heights(links), p, 0) == p
      ensures nodes[p].next[0] == At(nodes, p + 1)
    {
      var heights := Heights(links);
      assert Linked(nodes, links, 0) && LinkedAt(nodes, links, 0, p);
      assert p + 1 < |nodes| ==> heights[p + 1] > 0;
    }

    /** height is what randomLevel drew. */
    method Put(key: InternalKey, value: Bytes, height: nat)
      requires Valid() && 1 <= height <= maxLevel
      modifies this, nodes
      ensures Valid()
      ensures Contents() == Insert(old(Contents()), Entry(key, value))
      ensures length == old(length) + 1
      ensures level == if height > old(level) then height else old(level)
      ensures forall n :: n in nodes ==> n in old(nodes) || fresh(n)
    {
      hide Compare, LowerBound, Sorted, Heights, LastTall, LinkedBetween, Insert;
      ghost var p := LowerBound(Contents(), key);
      var preds := FindPredecessors(key);
      preds := RaiseLevel(height, p, preds);
      var newNode := new Node(key, value, height);
      WireAll(newNode, p, preds);
      SpliceIsInsert(nodes, newNode, p);
      Adopt(newNode, p);
    }

    /** A tower taller than any before raises the level; on the new levels its predecessor is the head. */
    method RaiseLevel(height: nat, ghost p: nat, preds: seq<Node>) returns (r: seq<Node>)
      requires Valid() && height <= maxLevel == |preds| && p < |nodes|
      requires forall l :: 0 <= l < maxLevel ==> preds[l] == nodes[LastTall(Heights(links), p, l)]
      modifies this`level
      ensures Valid() && level == if height > old(level) then height else old(level)
      ensures r == preds
    {
      r := preds;
      if height > level {
        for i := level to height
          invariant r == preds && level == old(level)
        {
          AboveLevelIsHead(p, i);
          r := r[i := head];
        }
        level := height;
      }
    }

    /** Records a wired node: the ghost view grows by it and so does the count. */
    method Adopt(newNode: Node, ghost p: nat)
      requires Shape() && p < |nodes| && newNode !in nodes
      requires 1 <= |newNode.next| <= level <= maxLevel && length == |nodes| - 1
      requires forall i :: 0 < i < |nodes| ==> 1 <= |links[i]| <= level
      requires LinkedBetween(Splice(nodes, p + 1, newNode), Splice(links, p + 1, newNode.next), 0, maxLevel)
      requires Sorted(Entries(Splice(nodes, p + 1, newNode)))
      modifies this
      ensures Valid() && nodes == Splice(old(nodes), p + 1, newNode)
      ensures length == old(length) + 1 && level == old(level)
    {
      nodes, links := Splice(nodes, p + 1, newNode), Splice(links, p + 1, newNode.next);
      length := length + 1;
    }

    /** The wiring loop: at every level it reaches, newNode takes over what preds[i] pointed to. */
    method WireAll(newNode: Node, ghost p: nat, preds: seq<Node>)
      requires Shape() && p < |nodes| && newNode !in nodes && |newNode.next| <= maxLevel == |preds|
      requires forall l :: 0 <= l < maxLevel ==> preds[l] == nodes[LastTall(Heights(links), p, l)]
      requires LinkedBetween(nodes, links, 0, maxLevel)
      modifies newNode, nodes, this`links
      ensures Shape() && |newNode.next| == old(|newNode.next|) && Heights(links) == Heights(old(links))
      ensures LinkedBetween(Splice(nodes, p + 1, newNode), Splice(links, p + 1, newNode.next), 0, maxLevel)
    {
      hide NextTall, LastTall, LinkedBetween, Splice, Heights;
      ghost var ns := Splice(nodes, p + 1, newNode);
      var height := |newNode.next|;
      NoLevels(ns, Splice(links, p + 1, newNode.next));
      for i := 0 to height
        invariant Shape() && |newNode.next| == height && Heights(links) == Heights(old(links))
        invariant LinkedBetween(ns, Splice(links, p + 1, newNode.next), 0, i)
        invariant LinkedBetween(nodes, links, i, maxLevel)
      {
        ghost var q := LastTall(Heights(links), p, i);
        ghost var before, next := links, newNode.next;
        assert |links[q]| > i by { assert Heights(links)[q] == |links[q]|; }
        newNode.next := newNode.next[i := preds[i].next[i]];
        preds[i].next := preds[i].next[i := newNode];
        links := links[q := links[q][i := newNode]];
        Rewired(before, next, p, q, i, newNode);
      }
      UntouchedAbove(nodes, links, p + 1, newNode, newNode.next, ns, Splice(links, p + 1, newNode.next), maxLevel);
    }

    /** What one turn of the wiring loop does to every level. */
    lemma {:induction false} Rewired(before: seq<seq<Node?>>, next: seq<Node?>, p: nat, q: nat, i: nat, n: Node)
      requires |nodes| == |before| && p < |nodes| && |before[0]| == maxLevel
      requires i < |next| <= maxLevel && q == LastTall(Heights(before), p, i) && i < |before[q]|
      requires LinkedBetween(nodes, before, i, maxLevel)
      requires LinkedBetween(Splice(nodes, p + 1, n), Splice(before, p + 1, next), 0, i)
      ensures var ns := Splice(nodes, p + 1, n);
              var after := before[q := before[q][i := n]];
              && Heights(after) == Heights(before)
              && LinkedBetween(nodes, after, i + 1, maxLevel)
              && LinkedBetween(ns, Splice(after, p + 1, next[i := before[q][i]]), 0, i + 1)
    {
      var ns := Splice(nodes, p + 1, n);
      var after := before[q := before[q][i := n]];
      var next' := next[i := before[q][i]];
      var ls, ls' := Splice(before, p + 1, next), Splice(after, p + 1, next');
      assert Heights(after) == Heights(before) && Heights(ls) == Heights(ls');
      hide NextTall, LastTall, Heights, Linked, LinkedAt;
      forall l | i < l < maxLevel ensures Linked(nodes, after, l) {
        LinkedElsewhere(nodes, before, after, l);
      }
      forall l | 0 <= l < i ensures Linked(ns, ls', l) {
        LinkedElsewhere(ns, ls, ls', l);
      }
      WiredLevel(before, next', p, q, i, n, ls');
    }

    /** The level that a turn of the wiring loop changes. */
    lemma {:induction false} WiredLevel(before: seq<seq<Node?>>, next: seq<Node?>, p: nat, q: nat, i: nat, n: Node,
                                        ls: seq<seq<Node?>>)
      requires |nodes| == |before| && p < |nodes| && |before[0]| == maxLevel && i < maxLevel && i < |next|
      requires q == LastTall(Heights(before), p, i) && i < |before[q]| && next[i] == before[q][i]
      requires Linked(nodes, before, i)
      requires ls == Splice(before[q := before[q][i := n]], p + 1, next)
      ensures Linked(Splice(nodes, p + 1, n), ls, i)
    {
      hide NextTall, LastTall, LinkedAt;
      var ns := Splice(nodes, p + 1, n);
      assert Inserted(Heights(before), p + 1, |next|, Heights(ls));
      forall k | 0 <= k < |ns| ensures LinkedAt(ns, ls, i, k) {
        if k > p {
          WiredBehind(nodes, before, p, n, next, ns, ls, i, k);
        } else {
          WiredBefore(nodes, before, p, n, next, ns, ls, i, k);
        }
      }
    }

    /** preds[0].next[0]: the first node that is not below key. */
    method FirstNotBelow(key: InternalKey) returns (node: Node?)
      requires Valid()
      ensures node == At(nodes, LowerBound(Contents(), key) + 1)
    {
      var preds := FindPredecessors(key);
      BottomLevel(LowerBound(Contents(), key));
      node := preds[0].next[0];
    }

    /** Get: seek to (userKey, seqno) and look at the one node after the predecessor. */
    method Get(userKey: Bytes, seqno: uint64) returns (r: Lookup)
      requires Valid()
      ensures r == ScanGet(Contents(), userKey, seqno)
    {
      var searchKey := InternalKey(userKey, seqno, 0);
      var node := FirstNotBelow(searchKey);
      ghost var p := LowerBound(Contents(), searchKey);
      SeekIsScan(Contents(), userKey, seqno, 0);
      assert p < |Contents()| ==> Contents()[p] == Entry(node.key, node.value);
      if node == null || node.key.userKey != userKey || node.key.seqno > seqno {
        return Missing;
      }
      if node.key.kind == KIND_DELETE {
        return Tombstone;
      }
      r := Present(node.value);
    }
  }

  /** The towers from position i on that reach level, in order: what walking that level visits. */
  ghost function LevelFrom(nodes: seq<Node>, heights: seq<nat>, i: nat, level: nat): (r: seq<Node>)
    requires i <= |nodes| == |heights|
    decreases |nodes| - i
  {
    if i == |nodes| then []
    else (if heights[i] > level then [nodes[i]] else []) + LevelFrom(nodes, heights, i + 1, level)
  }

  ghost predicate Sublist<T>(a: seq<T>, b: seq<T>) {
    a == [] || (b != [] && (if a[0] == b[0] then Sublist(a[1..], b[1..]) else Sublist(a, b[1..])))
  }

  /** Every level is a sublist of the one below it. */
  lemma {:induction false} LevelIsSublist(nodes: seq<Node>, heights: seq<nat>, i: nat, level: nat)
    requires i <= |nodes| == |heights|
    requires forall a, b :: 0 <= a < b < |nodes| ==> nodes[a] != nodes[b]
    ensures Sublist(LevelFrom(nodes, heights, i, level + 1), LevelFrom(nodes, heights, i, level))
    decreases |nodes| - i
  {
    if i < |nodes| {
      LevelIsSublist(nodes, heights, i + 1, level);
      var above, below := LevelFrom(nodes, heights, i + 1, level + 1), LevelFrom(nodes, heights, i + 1, level);
      assert [] + above == above && [] + below == below;
      if heights[i] > level {
        if heights[i] <= level + 1 {
          LevelMembers(nodes, heights, i + 1, level + 1);
        }
        SublistHead(above, below, nodes[i]);
      }
    }
  }

  /** In front of the longer list an element may come alone if it is new, or together with the shorter one's. */
  lemma {:induction false} SublistHead<T>(a: seq<T>, b: seq<T>, x: T)
    requires Sublist(a, b)
    ensures Sublist([x] + a, [x] + b)
    ensures x !in a ==> Sublist(a, [x] + b)
  {
    assert ([x] + a)[1..] == a && ([x] + b)[1..] == b;
  }

  lemma {:induction false} LevelMembers(nodes: seq<Node>, heights: seq<nat>, i: nat, level: nat)
    requires i <= |nodes| == |heights|
    ensures forall n :: n in LevelFrom(nodes, heights, i, level) ==> exists k :: i <= k < |nodes| && nodes[k] == n
    decreases |nodes| - i
  {
    if i < |nodes| {
      LevelMembers(nodes, heights, i + 1, level);
    }
  }

  /** Following a pointer of a valid list at a level moves to the next node of that level, or to its end. */
  lemma {:induction false} LevelWalk(sl: SkipList, i: nat, level: nat)
    requires sl.Valid() && i < |sl.nodes| && |sl.nodes[i].next| > level && level < sl.maxLevel
    ensures var rest := LevelFrom(sl.nodes, Heights(sl.links), i + 1, level);
            sl.nodes[i].next[level] == if rest == [] then null else rest[0]
  {
    var heights := Heights(sl.links);
    assert Linked(sl.nodes, sl.links, level) && LinkedAt(sl.nodes, sl.links, level, i);
    LevelSkips(sl.nodes, heights, i + 1, level);
  }

  lemma {:induction false} LevelSkips(nodes: seq<Node>, heights: seq<nat>, i: nat, level: nat)
    requires i <= |nodes| == |heights|
    ensures var r, rest := NextTall(heights, i, level), LevelFrom(nodes, heights, i, level);
            if r == |nodes| then rest == [] else rest != [] && rest[0] == nodes[r]
    decreases |nodes| - i
  {
    if i < |nodes| && heights[i] <= level {
      assert [] + LevelFrom(nodes, heights, i + 1, level) == LevelFrom(nodes, heights, i + 1, level);
      LevelSkips(nodes, heights, i + 1, level);
    }
  }

  /** Replays a history into a fresh list; heights are whatever the random level draw gives. */
  method Build(h: History, heights: seq<nat>) returns (sl: SkipList)
    requires |heights| == |h| && forall i :: 0 <= i < |h| ==> 1 <= heights[i] <= 12
    ensures fresh(sl) && sl.Valid() && sl.Contents() == Run(h)
  {
    hide Insert, SkipList.Shape;
    sl := new SkipList();
    for i := 0 to |h|
      invariant fresh(sl) && (forall n :: n in sl.nodes ==> fresh(n)) && sl.Valid() && sl.Contents() == Run(h[..i])
    {
      assert h[..i + 1][..i] == h[..i];
      assert forall k :: 0 <= k < |sl.nodes| ==> fresh(sl.nodes[k]) by {
        forall k | 0 <= k < |sl.nodes| ensures fresh(sl.nodes[k]) { assert sl.nodes[k] in sl.nodes; }
      }
      sl.Put(h[i].key, h[i].value, heights[i]);
    }
    assert h[..|h|] == h;
  }

  /** A list that holds a history's run answers reads as the reference model does. */
  lemma {:induction false} ListRefinesModel(sl: SkipList, h: History, userKey: Bytes, seqno: nat)
    requires sl.Valid() && sl.Contents() == Run(h)
    ensures ScanGet(sl.Contents(), userKey, seqno) == OutcomeOf(Newest(h, userKey, seqno))
    ensures multiset(sl.Contents()) == multiset(h)
  {
    RunRefinesHistory(h, userKey, seqno);
    RunSorted(h);
  }

  /** Forward iteration over every version in the list. */
  class SkipListIterator {
    const list: SkipList
    var node: Node?

    /** Where the iterator stands in the list's contents; the length of the contents when it is exhausted. */
    ghost var pos: nat

    ghost predicate Positioned()
      reads this, list, list.nodes
    {
      list.Valid() && pos <= |list.Contents()| && node == At(list.nodes, pos + 1)
    }

    constructor (list: SkipList)
      requires list.Valid()
      ensures this.list == list && node == null && Positioned() && pos == |list.Contents()|
    {
      this.list, node, pos := list, null, |list.Contents()|;
    }

    method SeekToFirst()
      requires list.Valid()
      modifies this
      ensures Positioned() && pos == 0
    {
      list.BottomLevel(0);
      node, pos := list.head.next[0], 0;
    }

    /** Lands on the first entry whose user key is at least target. */
    method Seek(target: Bytes)
      requires list.Valid()
      modifies this
      ensures Positioned()
      ensures forall i :: 0 <= i < pos ==> CompareBytes(list.Contents()[i].key.userKey, target) < 0
      ensures forall i :: pos <= i < |list.Contents()| ==> CompareBytes(list.Contents()[i].key.userKey, target) >= 0
    {
      hide Compare, CompareBytes, LowerBound, Sorted, LinkedBetween;
      var searchKey := InternalKey(target, MAX_UINT64, KIND_PUT);
      node := list.FirstNotBelow(searchKey);
      pos := LowerBound(list.Contents(), searchKey);
      SeekKeySplits(list.Contents(), target);
    }

    predicate IsValid()
      reads this
    {
      node != null
    }

    method Next()
      requires Positioned()
      modifies this
      ensures Positioned()
      ensures pos == if old(pos) < |list.Contents()| then old(pos) + 1 else old(pos)
    {
      if node != null {
        list.BottomLevel(pos + 1);
        node, pos := node.next[0], pos + 1;
      }
    }

    /** The entry under the iterator. */
    method Current() returns (key: InternalKey, value: Bytes)
      requires Positioned() && IsValid()
      ensures pos < |list.Contents()| && Entry(key, value) == list.Contents()[pos]
    {
      key, value := node.key, node.value;
    }
  }
}
