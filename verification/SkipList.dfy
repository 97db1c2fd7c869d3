/** The skip list behind every memtable (skip-list/src/list.rs, skip-list/src/node.rs). */
module SkipLists {
  import opened Bytes
  import opened Runs

  class Node {
    const key: Key
    /** Index of the highest level the node is linked on. */
    const height: nat
    var value: Value
    var nexts: seq<Node?>

    constructor (key: Key, value: Value, height: nat)
      ensures this.key == key && this.value == value && this.height == height
      ensures nexts == seq(height + 1, _ => null)
    {
      this.key, this.value, this.height := key, value, height;
      nexts := seq(height + 1, _ => null);
    }

    /** The successor on a level; none if the node is not that tall. */
    function Next(level: nat): Node?
      reads this`nexts
    {
      if level < |nexts| then nexts[level] else null
    }
  }

  // ---- chains as index arithmetic ----

  /** The first position behind `p` that reaches a level, or the end. */
  ghost function NextTall(hs: seq<nat>, p: nat, level: nat): (q: nat)
    requires p < |hs|
    ensures p < q <= |hs|
    ensures q < |hs| ==> hs[q] >= level
    ensures forall r :: p < r < q ==> hs[r] < level
    decreases |hs| - p
  {
    if p + 1 == |hs| then p + 1
    else if hs[p + 1] >= level then p + 1
    else NextTall(hs, p + 1, level)
  }

  lemma NextTallUnique(hs: seq<nat>, p: nat, level: nat, q: nat)
    requires p < |hs| && p < q <= |hs|
    requires q < |hs| ==> hs[q] >= level
    requires forall r :: p < r < q ==> hs[r] < level
    ensures NextTall(hs, p, level) == q
  {
    var n := NextTall(hs, p, level);
    assert !(n < q) && !(q < n);
  }

  ghost function Heights(spine: seq<Node>): (hs: seq<nat>)
    ensures |hs| == |spine| && forall p :: 0 <= p < |spine| ==> hs[p] == spine[p].height
  {
    seq(|spine|, p requires 0 <= p < |spine| => spine[p].height)
  }

  ghost function NodeAt(spine: seq<Node>, q: nat): Node? {
    if q < |spine| then spine[q] else null
  }

  /** The successor a node must have on a level: the next node that reaches it. */
  ghost function Succ(spine: seq<Node>, p: nat, l: nat): Node?
    requires p < |spine|
  {
    NodeAt(spine, NextTall(Heights(spine), p, l))
  }

  /** The successors of the node at position `p`, on all its levels. */
  ghost function Row(spine: seq<Node>, p: nat): (row: seq<Node?>)
    requires p < |spine|
    ensures |row| == spine[p].height + 1
    ensures forall l :: 0 <= l < |row| ==> row[l] == Succ(spine, p, l)
  {
    seq(spine[p].height + 1, l => if l < 0 then null else Succ(spine, p, l))
  }

  /** Keys of the nodes behind the head strictly increase. */
  ghost predicate KeysSorted(spine: seq<Node>) {
    forall i, j :: 1 <= i < j < |spine| ==> Less(spine[i].key, spine[j].key)
  }

  /** Each level's chain links exactly the nodes that reach the level, in order. */
  ghost predicate Linked(spine: seq<Node>)
    reads spine`nexts
  {
    forall p :: 0 <= p < |spine| ==> spine[p].nexts == Row(spine, p)
  }

  /** What the nodes behind the head hold. */
  ghost function Entries(spine: seq<Node>): (es: Run)
    requires spine != []
    reads spine
    ensures |es| == |spine| - 1
    ensures forall i :: 0 <= i < |es| ==> es[i] == Entry(spine[i + 1].key, spine[i + 1].value)
  {
    seq(|spine| - 1, i requires 0 <= i < |spine| - 1 reads spine => Entry(spine[i + 1].key, spine[i + 1].value))
  }

  /** Position `p` is where a search on a level stops before the bound: nothing that tall is in between. */
  ghost predicate StopsAt(spine: seq<Node>, bound: nat, level: nat, p: nat) {
    && p < bound <= |spine| && spine[p].height >= level
    && NextTall(Heights(spine), p, level) >= bound
  }

  /** One stop per level. */
  ghost predicate Stops(spine: seq<Node>, bound: nat, idxs: seq<nat>) {
    forall l :: 0 <= l < |idxs| ==> StopsAt(spine, bound, l, idxs[l])
  }

  ghost predicate NodesAt(spine: seq<Node>, idxs: seq<nat>, nodes: seq<Node>) {
    |nodes| == |idxs| && forall l :: 0 <= l < |idxs| ==> idxs[l] < |spine| && nodes[l] == spine[idxs[l]]
  }

  class SkipList {
    const maxHeight: nat
    var head: Node
    var length: nat
    var height: nat
    /** The head and all nodes in key order: the chain of level 0. */
    ghost var spine: seq<Node>

    ghost predicate Valid()
      reads this, spine`nexts
    {
      && spine != [] && spine[0] == head && head.height == maxHeight
      && Distinct(spine) && KeysSorted(spine) && Linked(spine)
      && (forall p :: 1 <= p < |spine| ==> spine[p].height <= height)
      && height <= maxHeight && length == |spine| - 1
    }

    ghost function Footprint(): set<Node>
      reads this
    {
      set n | n in spine
    }

    ghost function Contents(): Run
      requires spine != []
      reads this, spine
    {
      Entries(spine)
    }

    constructor (maxHeight: nat)
      ensures Valid() && Contents() == [] && this.maxHeight == maxHeight
      ensures forall n :: n in spine ==> fresh(n)
    {
      this.maxHeight := maxHeight;
      head := new Node([], [], maxHeight);
      length, height := 0, 0;
      spine := [head];
      new;
      EmptyLinked(head);
    }

    /** The inner search loop on one level. */
    method Descend(from: Node, level: nat, key: Key, ghost p0: nat) returns (node: Node, ghost p: nat)
      requires Valid() && p0 < |spine| && from == spine[p0] && from.height >= level
      requires p0 > 0 ==> Less(spine[p0].key, key)
      ensures p0 <= p < |spine| && node == spine[p] && node.height >= level
      ensures p > 0 ==> Less(spine[p].key, key)
      ensures Stopped(spine, key, level, p)
    {
      hide Less, NextTall, Heights;
      node, p := from, p0;
      while node.Next(level) != null && Less((node.Next(level) as Node).key, key)
        invariant p0 <= p < |spine| && node == spine[p] && node.height >= level
        invariant p > 0 ==> Less(spine[p].key, key)
        decreases |spine| - p
      {
        ghost var q := NextTall(Heights(spine), p, level);
        HeightsAt(spine, q);
        node := node.Next(level);
        p := q;
      }
    }

    /** The last node below the key. */
    method GetLowerBound(key: Key) returns (node: Node, ghost p: nat)
      requires Valid()
      ensures p == LowerBound(Contents(), key) && p < |spine| && node == spine[p]
      ensures LowerBound(Contents(), key) < |spine| && node == spine[LowerBound(Contents(), key)]
    {
      hide Less, LowerBound, Linked;
      node, p := head, 0;
      var i := height + 1;
      while i > 0
        invariant 0 <= i <= height + 1 && p < |spine| && node == spine[p] && node.height >= i - 1
        invariant p > 0 ==> Less(spine[p].key, key)
        invariant i <= height ==> Stopped(spine, key, i, p)
      {
        i := i - 1;
        node, p := Descend(node, i, key, p);
      }
      BoundFromStop(spine, key, p);
    }

    method Get(key: Key) returns (r: Option<Value>)
      requires Valid()
      ensures r == Find(Contents(), key)
    {
      hide Less, LowerBound, Linked, KeysSorted, Distinct;
      var node, p := GetLowerBound(key);
      NextOfLevel0(spine, p);
      var next := node.Next(0);
      if next != null && next.key == key {
        r := Some(next.value);
      } else {
        r := None;
      }
    }

    /** The last node below the key, and on every level the node after which a new one would be linked. */
    method GetLowerBoundAndUpdates(key: Key) returns (node: Node, updates: seq<Node>, ghost idxs: seq<nat>)
      requires Valid()
      ensures |idxs| == maxHeight + 1 && NodesAt(spine, idxs, updates)
      ensures idxs[0] == LowerBound(Contents(), key) && node == updates[0]
      ensures idxs[0] > 0 ==> Less(spine[idxs[0]].key, key)
      ensures Stops(spine, idxs[0] + 1, idxs)
    {
      hide Less, LowerBound, Linked, KeysSorted, Stopped, NodesAt, StopsAt, Halted;
      node := head;
      updates := seq(maxHeight + 1, _ => node);
      idxs := seq(maxHeight + 1, _ => 0);
      ghost var p := 0;
      var i := height + 1;
      StartHalted(spine, key, height, idxs, updates);
      while i > 0
        invariant 0 <= i <= height + 1 && p < |spine| && node == spine[p] && node.height >= i - 1
        invariant p > 0 ==> Less(spine[p].key, key)
        invariant |idxs| == |updates| == maxHeight + 1 && NodesAt(spine, idxs, updates) &&
                  Halted(spine, key, idxs, i, p)
        invariant i <= height ==> idxs[i] == p && updates[i] == node && Stopped(spine, key, i, p)
      {
        i := i - 1;
        ghost var before := p;
        node, p := Descend(node, i, key, p);
        HaltedStep(spine, key, idxs, updates, i, before, p);
        updates := updates[i := node];
        idxs := idxs[i := p];
      }
      BoundFromStop(spine, key, p);
      HaltedStops(spine, key, idxs, p);
    }

    /** Inserts or overwrites; the height of a new node is any the generator may give. */
    method Insert(key: Key, value: Value, h: nat) returns (previous: Option<Value>)
      requires Valid() && h <= maxHeight
      modifies this, Footprint()
      ensures Valid()
      ensures Contents() == Runs.Insert(old(Contents()), key, value)
      ensures previous == Find(old(Contents()), key)
      ensures forall n :: n in spine ==> n in old(spine) || fresh(n)
      ensures previous.Some? ==> spine == old(spine) && height == old(height)
      ensures previous.None? ==> height == if old(height) < h then h else old(height)
      ensures previous.None? ==> exists n :: n in spine && fresh(n) && n.key == key && n.height == h
    {
      hide Less, LowerBound, Linked, KeysSorted;
      var lb, updates, idxs := GetLowerBoundAndUpdates(key);
      NextOfLevel0(spine, idxs[0]);
      var next := lb.Next(0);
      if next != null && next.key == key {
        previous := Some(next.value);
        next.value := value;
        Overwritten(old(Contents()), Contents(), idxs[0], Entry(key, value));
        return;
      }
      InsertNode(key, value, h, updates, idxs);
      previous := None;
    }

    method InsertNode(key: Key, value: Value, h: nat, updates: seq<Node>, ghost idxs: seq<nat>)
      requires Valid() && h <= maxHeight
      requires |idxs| == maxHeight + 1 && NodesAt(spine, idxs, updates) && Stops(spine, idxs[0] + 1, idxs)
      requires idxs[0] == LowerBound(Contents(), key) && (idxs[0] > 0 ==> Less(spine[idxs[0]].key, key))
      requires idxs[0] + 1 < |spine| ==> spine[idxs[0] + 1].key != key
      modifies this, Footprint()
      ensures Valid()
      ensures Contents() == Runs.Insert(old(Contents()), key, value)
      ensures forall n :: n in spine ==> n in old(spine) || fresh(n)
      ensures height == if old(height) < h then h else old(height)
      ensures exists n :: n in spine && fresh(n) && n.key == key && n.height == h
    {
      hide Less, LowerBound, Linked, KeysSorted, Distinct, Stops, NodesAt, Entries, Spliced, Runs.Insert;
      ghost var p, sp, es := idxs[0], spine, Contents();
      AboveBound(spine, key, p);
      var node := new Node(key, value, h);
      Link(node, updates, idxs);
      assert Entries(sp) == es;
      SplicedSorted(sp, spine, p + 1, node);
      SplicedNodes(sp, spine, p + 1, node);
      SplicedInsert(sp, spine, p, node);
      SplicedHeights(sp, spine, p + 1, node, height);
      length := length + 1;
      height := if height < h then h else height;
    }

    /** Links a new node behind the update nodes of its levels. */
    method Link(node: Node, updates: seq<Node>, ghost idxs: seq<nat>)
      requires spine != [] && Distinct(spine) && Linked(spine) && node !in spine
      requires node.height < |idxs| && |node.nexts| == node.height + 1
      requires NodesAt(spine, idxs, updates) && Stops(spine, idxs[0] + 1, idxs)
      modifies `spine, node`nexts, Footprint()`nexts
      ensures Spliced(old(spine), spine, idxs[0] + 1, node)
      ensures Distinct(spine) && Linked(spine)
    {
      hide NextTall, Heights, Succ, StopsAt, LinkedBelow, Linked, Distinct;
      ghost var sp := spine;
      var i := 0;
      LinkRowStart(sp, idxs, node);
      while i <= node.height
        modifies node`nexts, (set n | n in sp)`nexts
        invariant 0 <= i <= node.height + 1 && |node.nexts| == node.height + 1
        invariant forall l :: 0 <= l < i ==> node.nexts[l] == Succ(sp, idxs[l], l)
        invariant LinkedBelow(sp, idxs, i, node)
      {
        LinkLevel(node, updates[i], i, sp, idxs);
        i := i + 1;
      }
      spine := sp[..idxs[0] + 1] + [node] + sp[idxs[0] + 1..];
      LinkedAfterInsert(sp, idxs[0] + 1, node, idxs);
    }

    /** One level of the new node. */
    method LinkLevel(node: Node, update: Node, i: nat, ghost sp: seq<Node>, ghost idxs: seq<nat>)
      requires i < |idxs| && i < |node.nexts| && sp != [] && Distinct(sp) && node !in sp
      requires StopsAt(sp, idxs[0] + 1, i, idxs[i]) && update == sp[idxs[i]]
      requires LinkedBelow(sp, idxs, i, node)
      modifies node`nexts, update`nexts
      ensures node.nexts == old(node.nexts)[i := Succ(sp, idxs[i], i)]
      ensures LinkedBelow(sp, idxs, i + 1, node)
    {
      hide NextTall, Heights, Succ;
      ghost var stop := idxs[i];
      assert update.nexts == LinkRow(sp, idxs, i, node, stop);
      node.nexts := node.nexts[i := update.nexts[i]];
      update.nexts := update.nexts[i := node];
      forall p | 0 <= p < |sp| ensures sp[p].nexts == LinkRow(sp, idxs, i + 1, node, p) {
        LinkRowStep(sp, idxs, i, node, p);
        assert p != stop ==> sp[p] != update;
      }
    }

    /** Unlinks the node of a key, if there is one. */
    method Remove(key: Key) returns (r: Option<Value>)
      requires Valid()
      modifies this, Footprint()
      ensures Valid()
      ensures Contents() == Runs.Remove(old(Contents()), key)
      ensures r == Find(old(Contents()), key)
      ensures forall n :: n in spine ==> n in old(spine)
    {
      hide Less, LowerBound, Linked, Distinct, Stops, KeysSorted;
      var lb, updates, idxs := GetLowerBoundAndUpdates(key);
      NextOfLevel0(spine, idxs[0]);
      var next := lb.Next(0);
      if next == null || next.key != key {
        return None;
      }
      r := Some(next.value);
      RemoveNode(next, updates, idxs);
    }

    method RemoveNode(next: Node, updates: seq<Node>, ghost idxs: seq<nat>)
      requires Valid() && |idxs| == maxHeight + 1 && NodesAt(spine, idxs, updates) && Stops(spine, idxs[0] + 1, idxs)
      requires idxs[0] + 1 < |spine| && next == spine[idxs[0] + 1]
      modifies this, Footprint()
      ensures Valid()
      ensures Contents() == old(Contents())[..idxs[0]] + old(Contents())[idxs[0] + 1..]
      ensures forall n :: n in spine ==> n in old(spine)
    {
      hide Less, Linked, KeysSorted, Distinct, Stops, NodesAt, Entries;
      ghost var sp, es, at := spine, Contents(), idxs[0] + 1;
      RemoveKeepsSorted(spine, at);
      Unlink(next, updates, idxs);
      length := length - 1;
      CutEntries(sp, at);
      assert Entries(sp) == es;
    }

    method Unlink(next: Node, updates: seq<Node>, ghost idxs: seq<nat>)
      requires spine != [] && Distinct(spine) && Linked(spine)
      requires |idxs| > 0 && idxs[0] + 1 < |spine| && next == spine[idxs[0] + 1] && next.height < |idxs|
      requires NodesAt(spine, idxs, updates) && Stops(spine, idxs[0] + 1, idxs)
      modifies `spine, Footprint()`nexts
      ensures spine == old(spine)[..idxs[0] + 1] + old(spine)[idxs[0] + 2..]
      ensures Distinct(spine) && Linked(spine)
    {
      hide NextTall, Heights, Succ;
      ghost var sp, at := spine, idxs[0] + 1;
      var i := 0;
      while i <= next.height
        modifies (set n | n in sp)`nexts
        invariant 0 <= i <= next.height + 1
        invariant forall p :: 0 <= p < |sp| ==> sp[p].nexts == UnlinkRow(sp, idxs, i, at, p)
      {
        var update := updates[i];
        ghost var stop := idxs[i];
        assert StopsAt(sp, at, i, stop);
        assert update.nexts == UnlinkRow(sp, idxs, i, at, stop);
        assert next.nexts == UnlinkRow(sp, idxs, i, at, at);
        assert next.nexts[i] == Succ(sp, at, i);
        update.nexts := update.nexts[i := next.nexts[i]];
        forall p | 0 <= p < |sp| ensures sp[p].nexts == UnlinkRow(sp, idxs, i + 1, at, p) {
          UnlinkRowStep(sp, idxs, i, at, p);
          assert p != stop ==> sp[p] != update;
        }
        i := i + 1;
      }
      spine := sp[..at] + sp[at + 1..];
      LinkedAfterRemove(sp, at, idxs);
    }

    /** Drops everything. */
    method Clear()
      requires Valid()
      modifies this
      ensures Valid() && Contents() == [] && length == 0
      ensures forall n :: n in spine ==> fresh(n)
    {
      head := new Node([], [], maxHeight);
      length, height := 0, 0;
      spine := [head];
      EmptyLinked(head);
    }

    /** A copy, built by inserting the level-0 chain in order; node heights may differ. */
    method Clone(heights: seq<nat>) returns (copied: SkipList)
      requires Valid() && |heights| == length && forall i :: 0 <= i < |heights| ==> heights[i] <= maxHeight
      ensures fresh(copied) && copied.Valid() && copied.Contents() == Contents() && copied.length == length
    {
      hide Linked, KeysSorted, Distinct, Entries;
      ContentsSorted(spine);
      NextOfLevel0(spine, 0);
      copied := new SkipList(maxHeight);
      CopyInto(copied, heights, Contents());
      EntriesLength(spine);
      EntriesLength(copied.spine);
    }

    /** Appends every node of this list to an empty one. */
    method CopyInto(copied: SkipList, heights: seq<nat>, ghost es: Run)
      requires Standing(head, 0, es) && |heights| == |es| &&
               (forall i :: 0 <= i < |heights| ==> heights[i] <= maxHeight)
      requires copied != this && copied.Valid() && copied.maxHeight == maxHeight && copied.spine != [] &&
               copied.Contents() == []
      requires forall n :: n in copied.spine ==> n !in spine
      modifies copied, copied.Footprint()
      ensures copied.Valid() && copied.spine != [] && copied.Contents() == es
      ensures Standing(head, 0, es) && forall n :: n in copied.spine ==> n in old(copied.spine) || fresh(n)
    {
      hide Standing, SkipList.Valid, SkipList.Contents, Sorted, Node.Next;
      var node := head;
      var p := 0;
      ghost var nodes := copied.Footprint();
      while node.Next(0) != null
        modifies copied, nodes
        invariant Standing(node, p, es) && Standing(head, 0, es) && p <= |heights|
        invariant copied.Valid() && copied.maxHeight == maxHeight && copied.spine != []
        invariant forall n :: n in copied.spine ==> n in old(copied.spine) || fresh(n)
        invariant copied.Contents() == es[..p]
        decreases |heights| - p
      {
        node := StepFrom(node, p, es);
        copied.Append(node.key, node.value, heights[p]);
        p := p + 1;
        assert es[..p] == es[..p - 1] + [es[p - 1]];
      }
      AtTheEnd(node, p, es);
      assert es[..p] == es;
    }

    /** The copying loop stands on node `p`. */
    ghost predicate Standing(node: Node, p: nat, es: Run)
      reads this, spine
    {
      && Linked(spine) && p < |spine| && node == spine[p] && |spine| == |es| + 1 && spine != []
      && Contents() == es && Sorted(es) && node.Next(0) == NodeAt(spine, p + 1)
    }

    method StepFrom(node: Node, p: nat, ghost es: Run) returns (next: Node)
      requires Standing(node, p, es) && node.Next(0) != null
      ensures Standing(next, p + 1, es) && p < |es| && es[p] == Entry(next.key, next.value)
      ensures Sorted(es[..p] + [es[p]])
    {
      hide Less, Linked;
      NodeAtIs(spine, p + 1);
      next := node.Next(0);
      NextOfLevel0(spine, p + 1);
      CloneStep(es, p);
    }

    lemma AtTheEnd(node: Node, p: nat, es: Run)
      requires Standing(node, p, es) && node.Next(0) == null
      ensures p == |es|
    {
      hide Linked;
      NodeAtIs(spine, p + 1);
    }

    /** Inserting a key above all others. */
    method Append(key: Key, value: Value, h: nat)
      requires Valid() && h <= maxHeight && spine != [] && Sorted(Contents() + [Entry(key, value)])
      modifies this, Footprint()
      ensures Valid() && spine != [] && Contents() == old(Contents()) + [Entry(key, value)]
      ensures forall n :: n in spine ==> n in old(spine) || fresh(n)
    {
      hide Less, LowerBound, Linked, KeysSorted, Distinct, Sorted, Runs.Insert;
      AppendIsInsert(Contents(), Entry(key, value));
      var _ := Insert(key, value, h);
    }
  }

  lemma EntriesLength(spine: seq<Node>)
    requires spine != []
    ensures |Entries(spine)| == |spine| - 1
  {
  }

  lemma CloneStep(es: Run, p: nat)
    requires Sorted(es) && p < |es|
    ensures es[..p] + [es[p]] == es[..p + 1] && Sorted(es[..p] + [es[p]])
  {
  }

  lemma NodeAtIs(spine: seq<Node>, q: nat)
    ensures NodeAt(spine, q) == if q < |spine| then spine[q] else null
  {
  }

  // ---- searching ----

  /** The search loop ended on a level: the next node there is not below the key. */
  ghost predicate Stopped(spine: seq<Node>, key: Key, level: nat, p: nat) {
    p < |spine| && var q := NextTall(Heights(spine), p, level); q < |spine| ==> !Less(spine[q].key, key)
  }

  /** The search loops of the levels from `i` upwards ended at `idxs`, none behind `p`. */
  ghost predicate Halted(spine: seq<Node>, key: Key, idxs: seq<nat>, i: nat, p: nat) {
    forall l :: i <= l < |idxs| ==>
        idxs[l] <= p && idxs[l] < |spine| && spine[idxs[l]].height >= l && Stopped(spine, key, l, idxs[l])
  }

  /** Above the list's height every search ends at the head. */
  lemma StartHalted(spine: seq<Node>, key: Key, height: nat, idxs: seq<nat>, nodes: seq<Node>)
    requires spine != [] && |idxs| == |nodes| == spine[0].height + 1
    requires forall p :: 1 <= p < |spine| ==> spine[p].height <= height
    requires forall l :: 0 <= l < |idxs| ==> idxs[l] == 0 && nodes[l] == spine[0]
    ensures Halted(spine, key, idxs, height + 1, 0) && NodesAt(spine, idxs, nodes)
  {
    hide Less, NextTall, Heights;
    forall l | height < l < |idxs| ensures Stopped(spine, key, l, 0) { TooTall(spine, l); }
  }

  lemma HaltedStep(spine: seq<Node>, key: Key, idxs: seq<nat>, nodes: seq<Node>, i: nat, p: nat, q: nat)
    requires Halted(spine, key, idxs, i + 1, p) && NodesAt(spine, idxs, nodes) && i < |idxs|
    requires p <= q < |spine| && spine[q].height >= i && Stopped(spine, key, i, q)
    ensures Halted(spine, key, idxs[i := q], i, q) && NodesAt(spine, idxs[i := q], nodes[i := spine[q]])
  {
    hide Stopped;
  }

  lemma HaltedStops(spine: seq<Node>, key: Key, idxs: seq<nat>, p: nat)
    requires spine != [] && KeysSorted(spine) && p < |spine| && Halted(spine, key, idxs, 0, p)
    requires p > 0 ==> Less(spine[p].key, key)
    ensures Stops(spine, p + 1, idxs)
  {
    hide Less, KeysSorted, Stopped, StopsAt;
    forall l | 0 <= l < |idxs| ensures StopsAt(spine, p + 1, l, idxs[l]) { StopBeyondBound(spine, key, p, l, idxs[l]); }
  }

  lemma HeightsAt(spine: seq<Node>, q: nat)
    ensures q < |spine| ==> q < |Heights(spine)| && Heights(spine)[q] == spine[q].height
  {
  }

  lemma EmptyLinked(head: Node)
    requires head.nexts == seq(head.height + 1, _ => null)
    ensures Linked([head])
  {
    assert Row([head], 0) == head.nexts;
  }

  lemma TooTall(spine: seq<Node>, level: nat)
    requires spine != [] && forall p :: 1 <= p < |spine| ==> spine[p].height < level
    ensures NextTall(Heights(spine), 0, level) == |spine|
  {
    NextTallUnique(Heights(spine), 0, level, |spine|);
  }

  lemma NextOfLevel0(spine: seq<Node>, p: nat)
    requires Linked(spine) && p < |spine|
    ensures spine[p].Next(0) == NodeAt(spine, p + 1)
  {
    NextTallUnique(Heights(spine), p, 0, p + 1);
    assert spine[p].nexts == Row(spine, p);
  }

  lemma ContentsSorted(spine: seq<Node>)
    requires spine != [] && KeysSorted(spine)
    ensures Sorted(Entries(spine))
  {
  }

  /** Stopping on level 0 is finding the lower bound. */
  lemma BoundFromStop(spine: seq<Node>, key: Key, p: nat)
    requires spine != [] && KeysSorted(spine) && Stopped(spine, key, 0, p)
    requires p > 0 ==> Less(spine[p].key, key)
    ensures LowerBound(Entries(spine), key) == p
  {
    hide Less, LowerBound;
    NextTallUnique(Heights(spine), p, 0, p + 1);
    ContentsSorted(spine);
    var es := Entries(spine);
    forall i | 0 <= i < p ensures Less(es[i].key, key) {
      if i + 1 < p { LessTransitive(spine[i + 1].key, spine[p].key, key); }
    }
    assert p < |es| ==> es[p].key == spine[p + 1].key;
    LowerBoundUnique(es, key, p);
  }

  /** On the other levels it stops before the bound with nothing tall in between. */
  lemma StopBeyondBound(spine: seq<Node>, key: Key, p: nat, level: nat, at: nat)
    requires spine != [] && KeysSorted(spine) && at <= p < |spine| && spine[at].height >= level
    requires p > 0 ==> Less(spine[p].key, key)
    requires Stopped(spine, key, level, at)
    ensures StopsAt(spine, p + 1, level, at)
  {
    hide Less;
    var q := NextTall(Heights(spine), at, level);
    if q < p {
      LessTransitive(spine[q].key, spine[p].key, key);
    }
  }

  lemma AboveBound(spine: seq<Node>, key: Key, p: nat)
    requires spine != [] && KeysSorted(spine) && p == LowerBound(Entries(spine), key) && p < |spine|
    requires p + 1 < |spine| ==> spine[p + 1].key != key
    ensures p + 1 < |spine| ==> Less(key, spine[p + 1].key)
  {
    hide Less, LowerBound;
    if p + 1 < |spine| {
      assert Entries(spine)[p].key == spine[p + 1].key;
      LessTotal(key, spine[p + 1].key);
    }
  }

  // ---- contents ----

  lemma Overwritten(was: Run, now: Run, p: nat, e: Entry)
    requires p == LowerBound(was, e.key) && p < |was| == |now| && was[p].key == e.key && now[p] == e
    requires forall i :: 0 <= i < |was| && i != p ==> now[i] == was[i]
    ensures now == Runs.Insert(was, e.key, e.value)
  {
    hide Less, LowerBound;
  }

  ghost predicate Spliced(sp: seq<Node>, now: seq<Node>, at: nat, node: Node) {
    0 < at <= |sp| && now == sp[..at] + [node] + sp[at..]
  }

  /** Behind the entries below its key, a new node is an insertion. */
  lemma SplicedInsert(sp: seq<Node>, now: seq<Node>, p: nat, node: Node)
    requires Spliced(sp, now, p + 1, node) && p == LowerBound(Entries(sp), node.key)
    requires p + 1 < |sp| ==> sp[p + 1].key != node.key
    ensures now != [] && Entries(now) == Runs.Insert(Entries(sp), node.key, node.value)
  {
    hide Less, LowerBound;
    var es := Entries(sp);
    assert Entries(now) == es[..p] + [Entry(node.key, node.value)] + es[p..];
  }

  lemma SplicedNodes(sp: seq<Node>, now: seq<Node>, at: nat, node: Node)
    requires Spliced(sp, now, at, node)
    ensures |now| == |sp| + 1 && now[0] == sp[0]
    ensures node in now && forall n :: n in now ==> n == node || n in sp
  {
  }

  lemma SplicedHeights(sp: seq<Node>, now: seq<Node>, at: nat, node: Node, height: nat)
    requires Spliced(sp, now, at, node) && forall p :: 1 <= p < |sp| ==> sp[p].height <= height
    ensures forall p :: 1 <= p < |now| ==> now[p].height <= if height < node.height then node.height else height
  {
    assert forall p :: 1 <= p < |now| ==> now[p] == if p < at then sp[p] else if p == at then node else sp[p - 1];
  }

  lemma CutEntries(sp: seq<Node>, at: nat)
    requires 0 < at < |sp|
    ensures Entries(sp[..at] + sp[at + 1..]) == Entries(sp)[..at - 1] + Entries(sp)[at..]
  {
  }

  /** Inserting behind the last key appends. */
  lemma AppendIsInsert(es: Run, e: Entry)
    requires Sorted(es + [e])
    ensures Runs.Insert(es, e.key, e.value) == es + [e]
  {
    hide Less, LowerBound;
    var all := es + [e];
    assert forall i :: 0 <= i < |es| ==> es[i] == all[i] && Less(all[i].key, all[|es|].key);
    assert Sorted(es);
    LowerBoundUnique(es, e.key, |es|);
  }

  // ---- linking and unlinking ----

  lemma SplicedSorted(spine: seq<Node>, now: seq<Node>, at: nat, node: Node)
    requires Spliced(spine, now, at, node) && KeysSorted(spine)
    requires at > 1 ==> Less(spine[at - 1].key, node.key)
    requires at < |spine| ==> Less(node.key, spine[at].key)
    ensures KeysSorted(now)
  {
    hide Less;
    forall i, j | 1 <= i < j < |now| ensures Less(now[i].key, now[j].key) {
      if j == at && i < at - 1 { LessTransitive(spine[i].key, spine[at - 1].key, node.key); }
      if i == at && j > at + 1 { LessTransitive(node.key, spine[at].key, spine[j - 1].key); }
    }
  }

  lemma RemoveKeepsSorted(spine: seq<Node>, at: nat)
    requires KeysSorted(spine) && 0 < at < |spine|
    ensures KeysSorted(spine[..at] + spine[at + 1..])
  {
    hide Less;
  }

  /** A node's successors while a new node is linked on the levels below `i`. */
  ghost function LinkRow(sp: seq<Node>, idxs: seq<nat>, i: nat, node: Node, p: nat): (row: seq<Node?>)
    requires p < |sp| && i <= |idxs|
    ensures |row| == sp[p].height + 1
    ensures forall l :: 0 <= l < |row| ==> row[l] == if l < i && idxs[l] == p then node else Succ(sp, p, l)
  {
    seq(sp[p].height + 1, l => if l < 0 then null else if l < i && idxs[l] == p then node else Succ(sp, p, l))
  }

  /** A node's successors while the node at `at` is unlinked on the levels below `i`. */
  ghost function UnlinkRow(sp: seq<Node>, idxs: seq<nat>, i: nat, at: nat, p: nat): (row: seq<Node?>)
    requires p < |sp| && at < |sp| && i <= |idxs|
    ensures |row| == sp[p].height + 1
    ensures forall l :: 0 <= l < |row| ==> row[l] == Succ(sp, if l < i && idxs[l] == p then at else p, l)
  {
    seq(sp[p].height + 1, l => if l < 0 then null else Succ(sp, if l < i && idxs[l] == p then at else p, l))
  }

  /** The nodes are linked to the new one on the levels below `i`. */
  ghost predicate LinkedBelow(sp: seq<Node>, idxs: seq<nat>, i: nat, node: Node)
    requires i <= |idxs|
    reads sp`nexts
  {
    forall p :: 0 <= p < |sp| ==> sp[p].nexts == LinkRow(sp, idxs, i, node, p)
  }

  lemma LinkRowStart(sp: seq<Node>, idxs: seq<nat>, node: Node)
    requires Linked(sp)
    ensures LinkedBelow(sp, idxs, 0, node)
  {
    hide Succ;
    forall p | 0 <= p < |sp| ensures sp[p].nexts == LinkRow(sp, idxs, 0, node, p) {
      assert Row(sp, p) == LinkRow(sp, idxs, 0, node, p);
    }
  }

  lemma LinkRowStep(sp: seq<Node>, idxs: seq<nat>, i: nat, node: Node, p: nat)
    requires p < |sp| && i < |idxs| && (p == idxs[i] ==> i <= sp[p].height)
    ensures LinkRow(sp, idxs, i + 1, node, p) ==
            if p == idxs[i] then LinkRow(sp, idxs, i, node, p)[i := node] else LinkRow(sp, idxs, i, node, p)
  {
    hide Succ;
  }

  lemma UnlinkRowStep(sp: seq<Node>, idxs: seq<nat>, i: nat, at: nat, p: nat)
    requires p < |sp| && at < |sp| && i < |idxs| && (p == idxs[i] ==> i <= sp[p].height)
    ensures UnlinkRow(sp, idxs, i + 1, at, p) ==
            if p == idxs[i] then UnlinkRow(sp, idxs, i, at, p)[i := Succ(sp, at, i)] else UnlinkRow(sp, idxs, i, at, p)
  {
    hide Succ;
  }

  /** Before the bound only one node of a level has its successor at or behind the bound. */
  lemma OnlyStop(sp: seq<Node>, at: nat, l: nat, stop: nat, p: nat)
    requires StopsAt(sp, at, l, stop) && p < |sp| && sp[p].height >= l
    ensures p < at && NextTall(Heights(sp), p, l) >= at <==> p == stop
  {
    var hs := Heights(sp);
    assert hs[p] >= l && hs[stop] >= l;
  }

  /** How the chains look with one more position at `at`. */
  lemma NextTallInserted(hs: seq<nat>, at: nat, h: nat, p: nat, level: nat)
    requires at <= |hs| && p < |hs|
    ensures var now := hs[..at] + [h] + hs[at..];
            var q := NextTall(hs, p, level);
            NextTall(now, if p < at then p else p + 1, level) ==
            if p < at && q >= at && h >= level then at else if q >= at then q + 1 else q
  {
    var now := hs[..at] + [h] + hs[at..];
    var q := NextTall(hs, p, level);
    NextTallUnique(now, if p < at then p else p + 1, level,
      if p < at && q >= at && h >= level then at else if q >= at then q + 1 else q);
  }

  lemma NextTallOfInserted(hs: seq<nat>, at: nat, h: nat, p: nat, level: nat)
    requires p < at <= |hs| && NextTall(hs, p, level) >= at
    ensures NextTall(hs[..at] + [h] + hs[at..], at, level) == NextTall(hs, p, level) + 1
  {
    NextTallUnique(hs[..at] + [h] + hs[at..], at, level, NextTall(hs, p, level) + 1);
  }

  lemma SuccAfterInsert(sp: seq<Node>, at: nat, node: Node, stop: nat, p: nat, l: nat)
    requires p < |sp| && sp[p].height >= l && StopsAt(sp, at, l, stop)
    ensures var now := sp[..at] + [node] + sp[at..];
            Succ(now, if p < at then p else p + 1, l) == if l <= node.height && p == stop then node else Succ(sp, p, l)
  {
    hide NextTall, Heights;
    var hs := Heights(sp);
    HeightsInserted(sp, at, node);
    NextTallInserted(hs, at, node.height, p, l);
    OnlyStop(sp, at, l, stop, p);
    NodeAtInserted(sp, at, node, NextTall(hs, p, l));
  }

  lemma HeightsInserted(sp: seq<Node>, at: nat, node: Node)
    requires at <= |sp|
    ensures Heights(sp[..at] + [node] + sp[at..]) == Heights(sp)[..at] + [node.height] + Heights(sp)[at..]
  {
  }

  lemma NodeAtInserted(sp: seq<Node>, at: nat, node: Node, q: nat)
    requires at <= |sp| && q <= |sp|
    ensures q >= at ==> NodeAt(sp[..at] + [node] + sp[at..], q + 1) == NodeAt(sp, q)
    ensures q < at ==> NodeAt(sp[..at] + [node] + sp[at..], q) == NodeAt(sp, q)
    ensures NodeAt(sp[..at] + [node] + sp[at..], at) == node
  {
  }

  lemma SuccOfInserted(sp: seq<Node>, at: nat, node: Node, stop: nat, l: nat)
    requires StopsAt(sp, at, l, stop)
    ensures Succ(sp[..at] + [node] + sp[at..], at, l) == Succ(sp, stop, l)
  {
    var now := sp[..at] + [node] + sp[at..];
    var hs := Heights(sp);
    assert Heights(now) == hs[..at] + [node.height] + hs[at..];
    NextTallOfInserted(hs, at, node.height, stop, l);
  }

  lemma LinkedAfterInsert(sp: seq<Node>, at: nat, node: Node, idxs: seq<nat>)
    requires 0 < at <= |sp| && Distinct(sp) && node !in sp && node.height < |idxs| && Stops(sp, at, idxs)
    requires |node.nexts| == node.height + 1
    requires forall l :: 0 <= l <= node.height ==> idxs[l] < |sp| && node.nexts[l] == Succ(sp, idxs[l], l)
    requires LinkedBelow(sp, idxs, node.height + 1, node)
    ensures Linked(sp[..at] + [node] + sp[at..]) && Distinct(sp[..at] + [node] + sp[at..])
  {
    hide NextTall, Heights, Succ;
    var now := sp[..at] + [node] + sp[at..];
    forall i | 0 <= i < |now| ensures now[i].nexts == Row(now, i) {
      if i == at {
        forall l | 0 <= l <= node.height ensures node.nexts[l] == Succ(now, i, l) {
          SuccOfInserted(sp, at, node, idxs[l], l);
        }
      } else {
        var p := if i < at then i else i - 1;
        assert now[i] == sp[p] && sp[p].nexts == LinkRow(sp, idxs, node.height + 1, node, p);
        forall l | 0 <= l <= sp[p].height ensures sp[p].nexts[l] == Succ(now, i, l) {
          if l < |idxs| {
            SuccAfterInsert(sp, at, node, idxs[l], p, l);
          } else {
            SuccAboveAll(sp, at, node, p, l);
          }
        }
      }
    }
    forall i, j | 0 <= i < j < |now| ensures now[i] != now[j] {
      assert (i == at || now[i] == sp[if i < at then i else i - 1]) &&
          (j == at || now[j] == sp[if j < at then j else j - 1]);
    }
  }

  lemma SuccAboveAll(sp: seq<Node>, at: nat, node: Node, p: nat, l: nat)
    requires p < |sp| && at <= |sp| && l > node.height
    ensures Succ(sp[..at] + [node] + sp[at..], if p < at then p else p + 1, l) == Succ(sp, p, l)
  {
    var now := sp[..at] + [node] + sp[at..];
    var hs := Heights(sp);
    assert Heights(now) == hs[..at] + [node.height] + hs[at..];
    NextTallInserted(hs, at, node.height, p, l);
  }

  lemma NextTallRemoved(hs: seq<nat>, at: nat, p: nat, level: nat)
    requires 0 < at < |hs| && p < |hs| && p != at
    ensures var now := hs[..at] + hs[at + 1..];
            var q := NextTall(hs, p, level);
            NextTall(now, if p < at then p else p - 1, level) ==
            if q == at then NextTall(hs, at, level) - 1 else if q > at then q - 1 else q
  {
    var now := hs[..at] + hs[at + 1..];
    var q := NextTall(hs, p, level);
    NextTallUnique(now, if p < at then p else p - 1, level,
      if q == at then NextTall(hs, at, level) - 1 else if q > at then q - 1 else q);
  }

  lemma SuccAfterRemove(sp: seq<Node>, at: nat, p: nat, l: nat)
    requires 0 < at < |sp| && p < |sp| && p != at
    ensures Succ(sp[..at] + sp[at + 1..], if p < at then p else p - 1, l) ==
            if NextTall(Heights(sp), p, l) == at then Succ(sp, at, l) else Succ(sp, p, l)
  {
    hide NextTall, Heights, NodeAt;
    var hs := Heights(sp);
    HeightsRemoved(sp, at);
    NextTallRemoved(hs, at, p, l);
    NodeAtRemoved(sp, at, NextTall(hs, p, l));
    NodeAtRemoved(sp, at, NextTall(hs, at, l));
  }

  lemma HeightsRemoved(sp: seq<Node>, at: nat)
    requires at < |sp|
    ensures Heights(sp[..at] + sp[at + 1..]) == Heights(sp)[..at] + Heights(sp)[at + 1..]
  {
  }

  lemma NodeAtRemoved(sp: seq<Node>, at: nat, q: nat)
    requires at < |sp| && q <= |sp|
    ensures q > at ==> NodeAt(sp[..at] + sp[at + 1..], q - 1) == NodeAt(sp, q)
    ensures q < at ==> NodeAt(sp[..at] + sp[at + 1..], q) == NodeAt(sp, q)
  {
  }

  /** The stop of a level the removed node reaches is the node linked to it. */
  lemma StopIsPredecessor(sp: seq<Node>, at: nat, l: nat, stop: nat, p: nat)
    requires at < |sp| && StopsAt(sp, at, l, stop) && p < |sp| && sp[p].height >= l
    ensures NextTall(Heights(sp), p, l) == at <==> p == stop && sp[at].height >= l
  {
    var hs := Heights(sp);
    OnlyStop(sp, at, l, stop, p);
    assert hs[at] == sp[at].height;
  }

  lemma LinkedAfterRemove(sp: seq<Node>, at: nat, idxs: seq<nat>)
    requires 0 < at < |sp| && Distinct(sp) && sp[at].height < |idxs| && Stops(sp, at, idxs)
    requires forall p :: 0 <= p < |sp| ==> sp[p].nexts == UnlinkRow(sp, idxs, sp[at].height + 1, at, p)
    ensures Linked(sp[..at] + sp[at + 1..]) && Distinct(sp[..at] + sp[at + 1..])
  {
    hide NextTall, Heights, Succ, Distinct, Stops;
    var now := sp[..at] + sp[at + 1..];
    StopsEach(sp, at, idxs);
    forall i | 0 <= i < |now| ensures now[i].nexts == Row(now, i) {
      var p := if i < at then i else i + 1;
      assert now[i] == sp[p] && sp[p].nexts == UnlinkRow(sp, idxs, sp[at].height + 1, at, p);
      forall l | 0 <= l <= sp[p].height ensures sp[p].nexts[l] == Succ(now, i, l) {
        SuccAfterRemove(sp, at, p, l);
        if l < |idxs| {
          StopIsPredecessor(sp, at, l, idxs[l], p);
        } else {
          HeightsAt(sp, at);
        }
      }
    }
    DistinctRemoved(sp, at);
  }

  lemma StopsEach(sp: seq<Node>, at: nat, idxs: seq<nat>)
    requires Stops(sp, at, idxs)
    ensures forall l :: 0 <= l < |idxs| ==> StopsAt(sp, at, l, idxs[l])
  {
  }

  lemma DistinctRemoved(sp: seq<Node>, at: nat)
    requires at < |sp| && Distinct(sp)
    ensures Distinct(sp[..at] + sp[at + 1..])
  {
    var now := sp[..at] + sp[at + 1..];
    assert forall i :: 0 <= i < |now| ==> now[i] == sp[if i < at then i else i + 1];
  }
}
