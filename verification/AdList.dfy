/**
 The doubly linked list. The ghost sequence of nodes is the list's abstract value; every
 operation keeps head, tail, length and all links in step with it.
 */
module AdList {

  type Value = nat

  class Node {
    var prev: Node?
    var next: Node?
    var value: Value

    constructor (v: Value)
      ensures value == v && prev == null && next == null
    {
      value := v;
      prev := null;
      next := null;
    }
  }

  ghost predicate Distinct(nodes: seq<Node>) {
    forall i, j :: 0 <= i < j < |nodes| ==> nodes[i] != nodes[j]
  }

  ghost predicate Apart(a: seq<Node>, b: seq<Node>) {
    forall i, j :: 0 <= i < |a| && 0 <= j < |b| ==> a[i] != b[j]
  }

  ghost function At(nodes: seq<Node>, i: int): Node? {
    if 0 <= i < |nodes| then nodes[i] else null
  }

  ghost predicate LinkOk(nodes: seq<Node>, i: nat)
    requires i < |nodes|
    reads nodes
  {
    nodes[i].prev == At(nodes, i - 1) && nodes[i].next == At(nodes, i + 1)
  }

  ghost predicate Linked(nodes: seq<Node>)
    reads nodes
  {
    forall i :: 0 <= i < |nodes| ==> LinkOk(nodes, i)
  }

  ghost function ValuesOf(nodes: seq<Node>): (r: seq<Value>)
    reads nodes
    ensures |r| == |nodes| && forall i :: 0 <= i < |nodes| ==> r[i] == nodes[i].value
  {
    seq(|nodes|, i requires 0 <= i < |nodes| reads nodes => nodes[i].value)
  }

  /** The node at an index that may count from the end: -1 is the last. */
  function Position(index: int, len: nat): int {
    if index >= 0 then index else len + index
  }

  class List {
    var head: Node?
    var tail: Node?
    var len: nat
    ghost var nodes: seq<Node>

    ghost predicate Valid()
      reads this, nodes
    {
      && len == |nodes| && Distinct(nodes) && Linked(nodes)
      && head == At(nodes, 0) && tail == At(nodes, |nodes| - 1)
    }

    ghost function Contents(): seq<Value>
      reads this, nodes
    {
      ValuesOf(nodes)
    }

    constructor ()
      ensures Valid() && nodes == []
    {
      head, tail, len, nodes := null, null, 0, [];
    }

    /** listLinkNodeHead */
    method LinkNodeHead(node: Node)
      requires Valid() && node !in nodes
      modifies this, node`prev, node`next, nodes
      ensures Valid() && nodes == [node] + old(nodes)
      ensures forall n :: n in nodes ==> n.value == old(n.value)
    {
      ghost var was := nodes;
      if len == 0 {
        head, tail := node, node;
        node.prev := null;
        node.next := null;
      } else {
        node.prev := null;
        node.next := head;
        head.prev := node;
        head := node;
      }
      len := len + 1;
      nodes := [node] + nodes;
      forall i | 0 <= i < |nodes| ensures LinkOk(nodes, i) {
        if i > 0 {
          assert old(LinkOk(was, i - 1));
          assert nodes[i] == was[i - 1];
        }
      }
    }

    /** listLinkNodeTail */
    method LinkNodeTail(node: Node)
      requires Valid() && node !in nodes
      modifies this, node`prev, node`next, nodes
      ensures Valid() && nodes == old(nodes) + [node]
      ensures forall n :: n in nodes ==> n.value == old(n.value)
    {
      ghost var was := nodes;
      if len == 0 {
        head, tail := node, node;
        node.prev := null;
        node.next := null;
      } else {
        node.prev := tail;
        node.next := null;
        tail.next := node;
        tail := node;
      }
      len := len + 1;
      nodes := nodes + [node];
      forall i | 0 <= i < |nodes| ensures LinkOk(nodes, i) {
        if i < |was| {
          assert old(LinkOk(was, i));
          assert nodes[i] == was[i];
        }
      }
    }

    method AddNodeHead(v: Value)
      requires Valid()
      modifies this, nodes
      ensures Valid() && Contents() == [v] + old(Contents())
    {
      var node := new Node(v);
      LinkNodeHead(node);
    }

    method AddNodeTail(v: Value)
      requires Valid()
      modifies this, nodes
      ensures Valid() && Contents() == old(Contents()) + [v]
      ensures |nodes| == old(|nodes|) + 1 && nodes[..old(|nodes|)] == old(nodes) && fresh(nodes[old(|nodes|)])
    {
      var node := new Node(v);
      LinkNodeTail(node);
    }

    /** The second half of listInsertNode: the neighbours learn of the new node, which already
        knows them. */
    method TellNeighbours(node: Node, ghost k: nat)
      requires len == |nodes| && Distinct(nodes) && Linked(nodes) && k <= |nodes| && node !in nodes
      requires node.prev == At(nodes, k - 1) && node.next == At(nodes, k)
      requires head == (if k == 0 then node else At(nodes, 0))
      requires tail == (if k == |nodes| then node else At(nodes, |nodes| - 1))
      modifies this`len, this`nodes, nodes
      ensures Valid() && nodes == old(nodes)[..k] + [node] + old(nodes)[k..]
      ensures forall n :: n in old(nodes) ==> n.value == old(n.value)
    {
      ghost var was := nodes;
      if node.prev != null {
        node.prev.next := node;
      }
      if node.next != null {
        node.next.prev := node;
      }
      len := len + 1;
      nodes := nodes[..k] + [node] + nodes[k..];
      forall j | 0 <= j < |nodes| ensures LinkOk(nodes, j) {
        if j < k {
          assert old(LinkOk(was, j)) && nodes[j] == was[j];
        } else if j > k {
          assert old(LinkOk(was, j - 1)) && nodes[j] == was[j - 1];
        }
      }
    }

    /** listInsertNode: before or after the node at position `i`. */
    method InsertNode(at: Node, v: Value, after: bool, ghost i: nat)
      requires Valid() && i < |nodes| && nodes[i] == at
      modifies this, nodes
      ensures Valid()
      ensures var k := if after then i + 1 else i;
              |nodes| == old(|nodes|) + 1 && nodes == old(nodes)[..k] + [nodes[k]] + old(nodes)[k..] &&
              fresh(nodes[k]) && nodes[k].value == v
      ensures forall n :: n in old(nodes) ==> n.value == old(n.value)
    {
      var node := new Node(v);
      assert LinkOk(nodes, i);
      if after {
        node.prev := at;
        node.next := at.next;
        if tail == at {
          tail := node;
        }
      } else {
        node.next := at;
        node.prev := at.prev;
        if head == at {
          head := node;
        }
      }
      TellNeighbours(node, if after then i + 1 else i);
    }

    /** listUnlinkNode: the node leaves the list and forgets its neighbours. */
    method UnlinkNode(node: Node, ghost i: nat)
      requires Valid() && i < |nodes| && nodes[i] == node
      modifies this, nodes`prev, nodes`next
      ensures Valid() && nodes == old(nodes)[..i] + old(nodes)[i + 1..]
      ensures node.prev == null && node.next == null
    {
      ghost var was := nodes;
      assert LinkOk(was, i);
      if node.prev != null {
        node.prev.next := node.next;
      } else {
        head := node.next;
      }
      if node.next != null {
        node.next.prev := node.prev;
      } else {
        tail := node.prev;
      }
      node.next := null;
      node.prev := null;
      len := len - 1;
      nodes := nodes[..i] + nodes[i + 1..];
      forall j | 0 <= j < |nodes| ensures LinkOk(nodes, j) {
        if j < i {
          assert old(LinkOk(was, j)) && nodes[j] == was[j];
        } else {
          assert old(LinkOk(was, j + 1)) && nodes[j] == was[j + 1];
        }
      }
    }

    /** listIndex */
    method Index(index: int) returns (n: Node?)
      requires Valid()
      ensures var p := Position(index, |nodes|);
              n == if 0 <= p < |nodes| then nodes[p] else null
    {
      if index < 0 {
        var k := -index - 1;
        n := tail;
        ghost var p := |nodes| - 1;
        while k != 0 && n != null
          invariant k >= 0 && -1 <= p < |nodes| && n == At(nodes, p)
          invariant p >= 0 ==> p - k == Position(index, |nodes|)
          invariant p == -1 ==> Position(index, |nodes|) < 0
          decreases p
        {
          assert LinkOk(nodes, p);
          n := n.prev;
          k := k - 1;
          p := p - 1;
        }
      } else {
        var k := index;
        n := head;
        ghost var p := 0;
        while k != 0 && n != null
          invariant k >= 0 && 0 <= p <= |nodes| && n == At(nodes, p)
          invariant p < |nodes| ==> p + k == index
          invariant p == |nodes| ==> index >= |nodes|
          decreases |nodes| - p
        {
          assert LinkOk(nodes, p);
          n := n.next;
          k := k - 1;
          p := p + 1;
        }
      }
    }

    /** listSearchKey without a match callback: the first node with the value. */
    method SearchKey(v: Value) returns (n: Node?)
      requires Valid()
      ensures n == null <==> v !in Contents()
      ensures n != null ==> exists i :: 0 <= i < |nodes| && nodes[i] == n && n.value == v && v !in Contents()[..i]
    {
      n := head;
      ghost var i := 0;
      while n != null
        invariant 0 <= i <= |nodes| && n == At(nodes, i)
        invariant forall j :: 0 <= j < i ==> nodes[j].value != v
        decreases |nodes| - i
      {
        if n.value == v {
          assert Contents()[i] == v;
          return;
        }
        assert LinkOk(nodes, i);
        n := n.next;
        i := i + 1;
      }
    }

    method RotateTailToHead()
      requires Valid()
      modifies this, nodes
      ensures Valid()
      ensures nodes == if old(len) <= 1 then old(nodes) else [old(nodes)[old(len) - 1]] + old(nodes)[..old(len) - 1]
      ensures forall n :: n in old(nodes) ==> n.value == old(n.value)
    {
      if len <= 1 {
        return;
      }
      ghost var was := nodes;
      assert LinkOk(was, |was| - 1);
      var last := tail;
      tail := last.prev;
      tail.next := null;
      head.prev := last;
      last.prev := null;
      last.next := head;
      head := last;
      nodes := [last] + nodes[..len - 1];
      forall i | 0 <= i < |nodes| ensures LinkOk(nodes, i) {
        if i > 0 {
          assert old(LinkOk(was, i - 1)) && nodes[i] == was[i - 1];
        }
      }
    }

    method RotateHeadToTail()
      requires Valid()
      modifies this, nodes
      ensures Valid()
      ensures nodes == if old(len) <= 1 then old(nodes) else old(nodes)[1..] + [old(nodes)[0]]
      ensures forall n :: n in old(nodes) ==> n.value == old(n.value)
    {
      if len <= 1 {
        return;
      }
      ghost var was := nodes;
      assert LinkOk(was, 0);
      var first := head;
      head := first.next;
      head.prev := null;
      tail.next := first;
      first.next := null;
      first.prev := tail;
      tail := first;
      nodes := nodes[1..] + [first];
      forall i | 0 <= i < |nodes| ensures LinkOk(nodes, i) {
        if i < |nodes| - 1 {
          assert old(LinkOk(was, i + 1)) && nodes[i] == was[i + 1];
        }
      }
    }

    /** listJoin: the other list's elements follow, and it is left empty. */
    method Join(o: List)
      requires Valid() && o.Valid() && o != this
      requires Apart(nodes, o.nodes)
      modifies this, o, nodes, o.nodes
      ensures Valid() && o.Valid() && o.nodes == []
      ensures nodes == old(nodes) + old(o.nodes)
      ensures forall n :: n in nodes ==> n.value == old(n.value)
    {
      if o.len == 0 {
        assert nodes + o.nodes == nodes;
        return;
      }
      ghost var mine, theirs := nodes, o.nodes;
      o.head.prev := tail;
      if tail != null {
        tail.next := o.head;
      } else {
        head := o.head;
      }
      tail := o.tail;
      len := len + o.len;
      nodes := nodes + o.nodes;
      o.head, o.tail, o.len, o.nodes := null, null, 0, [];
      forall i | 0 <= i < |nodes| ensures LinkOk(nodes, i) {
        if i < |mine| {
          assert old(LinkOk(mine, i)) && nodes[i] == mine[i];
        } else {
          assert old(LinkOk(theirs, i - |mine|)) && nodes[i] == theirs[i - |mine|];
        }
      }
    }

    /** What following `next` from a node reaches. */
    lemma NextIs(i: nat)
      requires Valid() && i < |nodes|
      ensures nodes[i].next == At(nodes, i + 1)
    {
      assert LinkOk(nodes, i);
    }

    lemma PrevIs(i: nat)
      requires Valid() && i < |nodes|
      ensures nodes[i].prev == At(nodes, i - 1)
    {
      assert LinkOk(nodes, i);
    }

    /** listDup without a dup callback: a fresh list with the same values; the original is not
        touched. */
    method Dup() returns (copy: List)
      requires Valid()
      ensures fresh(copy) && copy.Valid() && fresh(copy.nodes)
      ensures copy.Contents() == Contents()
    {
      hide Distinct, Linked;
      copy := new List();
      var n := head;
      ghost var values := Contents();
      ghost var i := 0;
      while n != null
        invariant 0 <= i <= |nodes| && n == At(nodes, i)
        invariant fresh(copy) && fresh(copy.nodes) && copy.Valid()
        invariant copy.Contents() == values[..i]
        decreases |nodes| - i
      {
        NextIs(i);
        assert values[..i + 1] == values[..i] + [n.value];
        copy.AddNodeTail(n.value);
        n := n.next;
        i := i + 1;
      }
      assert values[..i] == values;
    }
  }

  // ---------- traversal ----------

  class Iter {
    var next: Node?
    var fromHead: bool

    constructor (l: List, head: bool)
      ensures fromHead == head && next == (if head then l.head else l.tail)
    {
      fromHead := head;
      next := if head then l.head else l.tail;
    }

    /** listNext: the node after the returned one is fetched at once. */
    method Next() returns (current: Node?)
      modifies this
      ensures current == old(next) && fromHead == old(fromHead)
      ensures current == null ==> next == null
      ensures current != null ==> next == if fromHead then current.next else current.prev
    {
      current := next;
      if current != null {
        if fromHead {
          next := current.next;
        } else {
          next := current.prev;
        }
      }
    }
  }

  ghost predicate Within(nodes: seq<Node>, all: set<Node>) {
    forall i :: 0 <= i < |nodes| ==> nodes[i] in all
  }

  /** What the first `i` visits of a walk leave of the elements they met, from either side. */
  function Front<T>(s: seq<T>, doomed: nat -> bool, i: nat): (r: seq<T>)
    requires i <= |s|
    ensures |r| <= i
  {
    if i == 0 then [] else Front(s, doomed, i - 1) + (if doomed(i - 1) then [] else [s[i - 1]])
  }

  function Back<T>(s: seq<T>, doomed: nat -> bool, i: nat): seq<T>
    requires i <= |s|
  {
    if i == 0 then [] else (if doomed(i - 1) then [] else [s[|s| - i]]) + Back(s, doomed, i - 1)
  }

  /** The elements left after `i` visits; `doomed` says which visits delete. */
  function Remaining<T>(s: seq<T>, fromHead: bool, doomed: nat -> bool, i: nat): seq<T>
    requires i <= |s|
  {
    if fromHead then Front(s, doomed, i) + s[i..] else s[..|s| - i] + Back(s, doomed, i)
  }

  /** The element that visit `i` meets, as an index of the original sequence, and its place among
      those left. */
  function Met(n: nat, fromHead: bool, i: nat): int {
    if fromHead then i else n - 1 - i
  }

  function Place<T>(s: seq<T>, fromHead: bool, doomed: nat -> bool, i: nat): int
    requires i <= |s|
  {
    if fromHead then |Front(s, doomed, i)| else |s| - 1 - i
  }

  function Onward(fromHead: bool, k: int): int {
    if fromHead then k + 1 else k - 1
  }

  lemma VisitLeaves<T>(s: seq<T>, fromHead: bool, doomed: nat -> bool, i: nat)
    requires i < |s|
    ensures var r := Remaining(s, fromHead, doomed, i);
            var k := Place(s, fromHead, doomed, i);
            && 0 <= k < |r| && r[k] == s[Met(|s|, fromHead, i)]
            && Remaining(s, fromHead, doomed, i + 1) == (if doomed(i) then r[..k] + r[k + 1..] else r)
  {
    if fromHead {
      assert s[i..] == [s[i]] + s[i + 1..];
    } else {
      var k := |s| - 1 - i;
      assert s[..|s| - i] == s[..k] + [s[k]];
      assert Back(s, doomed, i + 1) == (if doomed(i) then [] else [s[k]]) + Back(s, doomed, i);
    }
  }

  /** What follows the visited node in the walk is the next node to be met. */
  lemma NextIsMet(nodes: seq<Node>, fromHead: bool, doomed: nat -> bool, i: nat)
    requires i < |nodes|
    ensures var r := Remaining(nodes, fromHead, doomed, i);
            At(r, Onward(fromHead, Place(nodes, fromHead, doomed, i))) == At(nodes, Met(|nodes|, fromHead, i + 1))
  {
  }

  /** One turn of a walk that may delete the node just returned: the iterator then holds the
      neighbour that the node had. */
  method WalkStep(l: List, iter: Iter, delete: bool, ghost k: nat, ghost all: set<Node>) returns (v: Value)
    requires l.Valid() && k < |l.nodes| && iter.next == l.nodes[k] && Within(l.nodes, all)
    modifies l, iter, all`prev, all`next
    ensures l.Valid() && iter.fromHead == old(iter.fromHead) && v == old(l.nodes[k].value) && Within(l.nodes, all)
    ensures l.nodes == if delete then old(l.nodes)[..k] + old(l.nodes)[k + 1..] else old(l.nodes)
    ensures iter.next == At(old(l.nodes), Onward(iter.fromHead, k))
  {
    hide Distinct, Linked;
    l.NextIs(k);
    l.PrevIs(k);
    var current := iter.Next();
    v := current.value;
    if delete {
      l.UnlinkNode(current, k);
    }
  }

  /** A walk over a list that had the nodes `was`, after `i` visits. */
  ghost predicate Walking(l: List, iter: Iter, was: seq<Node>, doomed: nat -> bool, i: nat, all: set<Node>)
    reads l, l.nodes, iter
  {
    && i <= |was| && l.Valid() && Within(l.nodes, all)
    && l.nodes == Remaining(was, iter.fromHead, doomed, i)
    && iter.next == At(was, Met(|was|, iter.fromHead, i))
  }

  method WalkTurn(l: List, iter: Iter, delete: bool, ghost was: seq<Node>, ghost doomed: nat -> bool, ghost i: nat, ghost all: set<Node>)
    returns (v: Value)
    requires Walking(l, iter, was, doomed, i, all) && iter.next != null && delete == doomed(i)
    requires i < |was| && 0 <= Met(|was|, iter.fromHead, i) < |was|
    modifies l, iter, all`prev, all`next
    ensures Walking(l, iter, was, doomed, i + 1, all) && iter.fromHead == old(iter.fromHead)
    ensures v == was[Met(|was|, iter.fromHead, i)].value
  {
    hide Remaining, Place, Within, Distinct, Linked;
    VisitLeaves(was, iter.fromHead, doomed, i);
    NextIsMet(was, iter.fromHead, doomed, i);
    v := WalkStep(l, iter, delete, Place(was, iter.fromHead, doomed, i), all);
  }

  /** The documented use of the iterator, from either end and with any choice at each visit: the
      walk meets every node of the original list once, in order, and exactly the nodes that were
      not deleted remain, in order, with their values. */
  method DeleteWhileWalking(l: List, fromHead: bool, doomed: nat -> bool, ghost all: set<Node>) returns (seen: seq<Value>)
    requires l.Valid() && Within(l.nodes, all)
    modifies l, all`prev, all`next
    ensures l.Valid() && l.nodes == Remaining(old(l.nodes), fromHead, doomed, |old(l.nodes)|)
    ensures |seen| == |old(l.nodes)|
    ensures forall j :: 0 <= j < |seen| ==> seen[j] == old(l.Contents())[Met(|seen|, fromHead, j)]
  {
    hide *;
    ghost var was, values := l.nodes, l.Contents();
    seen := [];
    var iter := new Iter(l, fromHead);
    var i := 0;
    StartOfWalk(l, iter, was, doomed, all);
    while iter.next != null
      invariant i == |seen| <= |was| && fresh(iter) && iter.fromHead == fromHead && Walking(l, iter, was, doomed, i, all)
      invariant Saw(seen, values, fromHead)
      decreases |was| - i
    {
      NotOver(l, iter, was, doomed, i, all);
      var v := WalkTurn(l, iter, doomed(i), was, doomed, i, all);
      SawMore(seen, values, fromHead, v);
      seen := seen + [v];
      i := i + 1;
    }
    EndOfWalk(l, iter, was, doomed, i, all);
    SawAll(seen, values, fromHead);
  }

  /** The values met so far, in the order of the walk. */
  ghost predicate Saw(seen: seq<Value>, values: seq<Value>, fromHead: bool) {
    |seen| <= |values| && forall j :: 0 <= j < |seen| ==> seen[j] == values[Met(|values|, fromHead, j)]
  }

  lemma StartOfWalk(l: List, iter: Iter, was: seq<Node>, doomed: nat -> bool, all: set<Node>)
    requires l.Valid() && was == l.nodes && Within(l.nodes, all)
    requires iter.next == if iter.fromHead then l.head else l.tail
    ensures Walking(l, iter, was, doomed, 0, all) && Saw([], l.Contents(), iter.fromHead) && |l.Contents()| == |was|
    ensures forall k :: 0 <= k < |was| ==> l.Contents()[k] == was[k].value
  {
    assert [] + was[0..] == was && was[..|was|] + [] == was;
  }

  lemma NotOver(l: List, iter: Iter, was: seq<Node>, doomed: nat -> bool, i: nat, all: set<Node>)
    requires Walking(l, iter, was, doomed, i, all) && iter.next != null
    ensures i < |was| && 0 <= Met(|was|, iter.fromHead, i) < |was|
  {
  }

  lemma SawMore(seen: seq<Value>, values: seq<Value>, fromHead: bool, v: Value)
    requires Saw(seen, values, fromHead) && |seen| < |values| && v == values[Met(|values|, fromHead, |seen|)]
    ensures Saw(seen + [v], values, fromHead)
  {
  }

  lemma EndOfWalk(l: List, iter: Iter, was: seq<Node>, doomed: nat -> bool, i: nat, all: set<Node>)
    requires Walking(l, iter, was, doomed, i, all) && iter.next == null
    ensures i == |was| && l.Valid() && l.nodes == Remaining(was, iter.fromHead, doomed, |was|)
  {
  }

  lemma SawAll(seen: seq<Value>, values: seq<Value>, fromHead: bool)
    requires Saw(seen, values, fromHead) && |seen| == |values|
    ensures forall j :: 0 <= j < |seen| ==> seen[j] == values[Met(|seen|, fromHead, j)]
  {
  }
}
