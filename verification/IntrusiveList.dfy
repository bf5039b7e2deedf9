/** The circular doubly linked list threaded through kernel structures (kernel/src/lib/list.h).

    Nodes are addresses; the `next` and `prev` fields of all nodes are two maps. A ring is
    described by the sequence of its nodes, the list head first.
  */
module IntrusiveList {
  type Node = nat

  predicate Linked(next: map<Node, Node>, prev: map<Node, Node>, ring: seq<Node>, i: nat)
    requires i < |ring|
  {
    && ring[i] in next && ring[i] in prev
    && next[ring[i]] == ring[if i + 1 == |ring| then 0 else i + 1]
    && prev[ring[i]] == ring[if i == 0 then |ring| - 1 else i - 1]
  }

  ghost predicate Distinct(ring: seq<Node>) {
    forall i, j :: 0 <= i < j < |ring| ==> ring[i] != ring[j]
  }

  ghost predicate IsRing(next: map<Node, Node>, prev: map<Node, Node>, ring: seq<Node>) {
    && |ring| > 0 && Distinct(ring)
    && forall i: nat {:trigger Linked(next, prev, ring, i)} :: i < |ring| ==> Linked(next, prev, ring, i)
  }

  lemma {:induction false} RingAt(next: map<Node, Node>, prev: map<Node, Node>, ring: seq<Node>, i: nat)
    requires IsRing(next, prev, ring) && i < |ring|
    ensures Linked(next, prev, ring, i)
  {
  }

  // ring with x inserted behind position k
  function Inserted(ring: seq<Node>, k: nat, x: Node): seq<Node>
    requires k < |ring|
  {
    ring[..k + 1] + [x] + ring[k + 1..]
  }

  function Removed(ring: seq<Node>, k: nat): seq<Node>
    requires k < |ring|
  {
    ring[..k] + ring[k + 1..]
  }

  lemma {:induction false} InsertRing(next: map<Node, Node>, prev: map<Node, Node>, ring: seq<Node>, k: nat, x: Node)
    requires IsRing(next, prev, ring) && k < |ring| && x !in ring
    ensures var p, n := ring[k], ring[if k + 1 == |ring| then 0 else k + 1];
            IsRing(next[x := n][p := x], prev[n := x][x := p], Inserted(ring, k, x))
  {
    var p, n := ring[k], ring[if k + 1 == |ring| then 0 else k + 1];
    var ring', next', prev' := Inserted(ring, k, x), next[x := n][p := x], prev[n := x][x := p];
    forall i: nat | i < |ring'| ensures Linked(next', prev', ring', i) {
      if i <= k {
        RingAt(next, prev, ring, i);
      } else if i > k + 1 {
        RingAt(next, prev, ring, i - 1);
      }
    }
  }

  lemma {:induction false} RemoveRing(next: map<Node, Node>, prev: map<Node, Node>, ring: seq<Node>, k: nat)
    requires IsRing(next, prev, ring) && 0 < k < |ring|
    ensures var x, p, n := ring[k], ring[k - 1], ring[if k + 1 == |ring| then 0 else k + 1];
            IsRing(next[p := n][x := x], prev[n := p][x := x], Removed(ring, k))
  {
    var x, p, n := ring[k], ring[k - 1], ring[if k + 1 == |ring| then 0 else k + 1];
    var ring', next', prev' := Removed(ring, k), next[p := n][x := x], prev[n := p][x := x];
    forall i: nat | i < |ring'| ensures Linked(next', prev', ring', i) {
      RingAt(next, prev, ring, if i < k then i else i + 1);
    }
  }

  // A node outside the ring keeps its field.
  predicate Untouched(was: map<Node, Node>, now: map<Node, Node>, y: Node) {
    (y in now <==> y in was) && (y in now ==> now[y] == was[y])
  }

  class NodeStore {
    var next: map<Node, Node>
    var prev: map<Node, Node>

    constructor ()
      ensures next == map[] && prev == map[]
    {
      next, prev := map[], map[];
    }

    ghost predicate Holds(ring: seq<Node>)
      reads this
    {
      IsRing(next, prev, ring)
    }

    // list_init
    method ListInit(node: Node)
      modifies this
      ensures Holds([node])
      ensures next == old(next)[node := node] && prev == old(prev)[node := node]
    {
      next := next[node := node];
      prev := prev[node := node];
    }

    // __list_add
    method ListAdd(x: Node, p: Node, n: Node, ghost ring: seq<Node>, ghost k: nat)
      requires Holds(ring) && k < |ring| && x !in ring
      requires p == ring[k] && n == ring[if k + 1 == |ring| then 0 else k + 1]
      modifies this
      ensures Holds(Inserted(ring, k, x))
      ensures forall y :: y != x && y !in ring ==> Untouched(old(next), next, y) && Untouched(old(prev), prev, y)
    {
      InsertRing(next, prev, ring, k, x);
      prev := prev[n := x];
      next := next[x := n];
      prev := prev[x := p];
      next := next[p := x];
    }

    // list_add_after(x, ring[k])
    method ListAddAfter(x: Node, head: Node, ghost ring: seq<Node>, ghost k: nat)
      requires Holds(ring) && k < |ring| && x !in ring && head == ring[k]
      modifies this
      ensures Holds(Inserted(ring, k, x))
    {
      RingAt(next, prev, ring, k);
      ListAdd(x, head, next[head], ring, k);
    }

    // list_add_before(x, head) on the list's head: x becomes the last node.
    method ListAddBefore(x: Node, head: Node, ghost ring: seq<Node>)
      requires Holds(ring) && x !in ring && head == ring[0]
      modifies this
      ensures Holds(ring + [x])
    {
      RingAt(next, prev, ring, 0);
      ListAdd(x, prev[head], head, ring, |ring| - 1);
      assert Inserted(ring, |ring| - 1, x) == ring + [x];
    }

    // list_del on a node other than the head; the node is left pointing at itself.
    method ListDel(node: Node, ghost ring: seq<Node>, ghost k: nat)
      requires Holds(ring) && 0 < k < |ring| && node == ring[k]
      modifies this
      ensures Holds(Removed(ring, k)) && node !in Removed(ring, k)
      ensures node in next && node in prev && next[node] == node && prev[node] == node
    {
      RingAt(next, prev, ring, k);
      RemoveRing(next, prev, ring, k);
      prev := prev[next[node] := prev[node]];
      next := next[prev[node] := next[node]];
      next := next[node := node];
      prev := prev[node := node];
    }
  }
}
