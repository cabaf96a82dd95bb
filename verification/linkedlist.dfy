/**
 * The engine's intrusive doubly-linked list `LinkedList<T>` (fstdlib/linkedlist.h).
 *
 * The heap is modelled as an arena: a list value holds the `Iterator_t` nodes it has allocated
 * and not yet freed, keyed by their address, the `m_pHead`/`m_pTail` pointers, and the next
 * address `new` hands out. The abstract content of a list is the sequence of node addresses from
 * head to tail (`chain`); `Valid(l, chain)` ties the raw pointers to that sequence, and every
 * mutator is specified against it. Nodes that are still allocated but not on the chain are
 * unreachable (leaked) memory.
 */
module Lists {
  import opened Wrappers

  /** The address of a heap-allocated `Iterator_t`. */
  type NodeRef = nat

  /** `Iterator_t`: a nullable data pointer and the two links. */
  datatype Iterator<T> = Iterator(data: Option<T>, previous: Option<NodeRef>, next: Option<NodeRef>)

  /** `LinkedList<T>` together with the part of the heap that holds its nodes. */
  datatype LinkedList<T> = LinkedList(
    nodes: map<NodeRef, Iterator<T>>,
    head: Option<NodeRef>,
    tail: Option<NodeRef>,
    nextFree: NodeRef)

  function First(chain: seq<NodeRef>): Option<NodeRef>
  {
    if |chain| == 0 then None else Some(chain[0])
  }

  function Last(chain: seq<NodeRef>): Option<NodeRef>
  {
    if |chain| == 0 then None else Some(chain[|chain| - 1])
  }

  ghost predicate Distinct(chain: seq<NodeRef>)
  {
    forall i, j | 0 <= i < j < |chain| :: chain[i] != chain[j]
  }

  ghost predicate Allocated<T>(l: LinkedList<T>, chain: seq<NodeRef>)
  {
    forall i | 0 <= i < |chain| :: chain[i] in l.nodes
  }

  /** Every allocated address lies below the allocation counter, so `nextFree` is unused. */
  ghost predicate FreshAbove<T>(l: LinkedList<T>)
  {
    forall r | r in l.nodes :: r < l.nextFree
  }

  /**
   * `chain` is the sequence of nodes reached from `m_pHead` by `pNext` and from `m_pTail` by
   * `pPrevious`: the list's well-formedness invariant.
   */
  ghost predicate Valid<T>(l: LinkedList<T>, chain: seq<NodeRef>)
  {
    && FreshAbove(l)
    && Allocated(l, chain)
    && Distinct(chain)
    && l.head == First(chain)
    && l.tail == Last(chain)
    && (|chain| > 0 ==> l.nodes[chain[0]].previous == None)
    && (|chain| > 0 ==> l.nodes[chain[|chain| - 1]].next == None)
    && (forall i | 0 < i < |chain| :: l.nodes[chain[i]].previous == Some(chain[i - 1]))
    && (forall i | 0 <= i < |chain| - 1 :: l.nodes[chain[i]].next == Some(chain[i + 1]))
  }

  /** The data pointers stored along `chain`, head to tail. */
  ghost function Elements<T>(l: LinkedList<T>, chain: seq<NodeRef>): (s: seq<Option<T>>)
    requires Allocated(l, chain)
    ensures |s| == |chain|
    ensures forall i | 0 <= i < |chain| :: s[i] == l.nodes[chain[i]].data
  {
    seq(|chain|, i requires 0 <= i < |chain| => l.nodes[chain[i]].data)
  }

  /** Allocated nodes that are not on `chain` are left exactly as they were. */
  ghost predicate OffChainUnchanged<T>(l: LinkedList<T>, l': LinkedList<T>, chain: seq<NodeRef>)
  {
    forall r | r in l.nodes && r !in chain :: r in l'.nodes && l'.nodes[r] == l.nodes[r]
  }

  /** The position of `r` in `chain`. */
  function IndexOf(chain: seq<NodeRef>, r: NodeRef): (i: nat)
    requires r in chain
    ensures i < |chain| && chain[i] == r
    ensures forall j | 0 <= j < i :: chain[j] != r
  {
    if chain[0] == r then 0 else 1 + IndexOf(chain[1..], r)
  }

  /** `chain` without its `i`-th entry. */
  function Without(chain: seq<NodeRef>, i: nat): seq<NodeRef>
    requires i < |chain|
  {
    chain[..i] + chain[i + 1..]
  }

  /** The non-null entries of `s`, in order. */
  function NonNull<T>(s: seq<Option<T>>): seq<T>
  {
    if |s| == 0 then []
    else NonNull(s[..|s| - 1]) + (if s[|s| - 1].Some? then [s[|s| - 1].value] else [])
  }

  /** `NonNull` keeps exactly the non-null entries: a value is in it iff some entry points to it. */
  lemma {:induction false} NonNullMembers<T>(s: seq<Option<T>>, x: T)
    ensures x in NonNull(s) <==> Some(x) in s
    ensures |NonNull(s)| <= |s|
  {
    if |s| > 0 {
      var init := s[..|s| - 1];
      NonNullMembers(init, x);
      assert s == init + [s[|s| - 1]];
    }
  }

  /** The constructor: head and tail are null and nothing is allocated. */
  function Empty<T>(): (l: LinkedList<T>)
    ensures Valid(l, [])
    ensures l.head == None && l.tail == None
  {
    LinkedList(map[], None, None, 0)
  }

  /** `GetHead`: the first node of the list, or null when it is empty. */
  function GetHead<T>(l: LinkedList<T>, ghost chain: seq<NodeRef>): (r: Option<NodeRef>)
    requires Valid(l, chain)
    ensures r == First(chain)
    ensures r.Some? ==> l.nodes[r.value].previous == None
  {
    if l.head.Some? then
      assert l.nodes[chain[0]].previous == None;
      l.head
    else l.head
  }

  /** `GetTail`: the last node of the list, or null when it is empty. */
  function GetTail<T>(l: LinkedList<T>, ghost chain: seq<NodeRef>): (r: Option<NodeRef>)
    requires Valid(l, chain)
    ensures r == Last(chain)
    ensures r.Some? ==> l.nodes[r.value].next == None
  {
    if l.tail.Some? then
      assert l.nodes[chain[|chain| - 1]].next == None;
      l.tail
    else l.tail
  }

  /** The nodes of `l` after `AddToTail(data)`: the new node is linked behind the old tail. */
  function PushBack<T>(l: LinkedList<T>, data: Option<T>): LinkedList<T>
    requires l.tail.Some? ==> l.tail.value in l.nodes
  {
    var previousTail := l.tail;
    var node := l.nextFree;
    var nodes := l.nodes[node := Iterator(data, None, None)];
    var head := if l.head.None? then Some(node) else l.head;
    var linked :=
      if previousTail.Some? then
        var withNext := nodes[previousTail.value := nodes[previousTail.value].(next := Some(node))];
        withNext[node := withNext[node].(previous := previousTail)]
      else nodes;
    LinkedList(linked, head, Some(node), node + 1)
  }

  /** What `PushBack` leaves at each address. */
  lemma PushBackAt<T>(l: LinkedList<T>, data: Option<T>, q: NodeRef)
    requires l.tail.Some? ==> l.tail.value in l.nodes
    requires FreshAbove(l)
    ensures q in PushBack(l, data).nodes <==> q in l.nodes || q == l.nextFree
    ensures q in PushBack(l, data).nodes ==>
      PushBack(l, data).nodes[q] ==
        if q == l.nextFree then Iterator(data, l.tail, None)
        else if Some(q) == l.tail then l.nodes[q].(next := Some(l.nextFree))
        else l.nodes[q]
  {
  }

  /** `PushBack` yields a well-formed list over the old chain followed by the new node. */
  lemma PushBackValid<T>(l: LinkedList<T>, data: Option<T>, chain: seq<NodeRef>)
    requires Valid(l, chain)
    ensures Valid(PushBack(l, data), chain + [l.nextFree])
  {
    var r := PushBack(l, data);
    var node := l.nextFree;
    var c := chain + [node];
    var n := |chain|;
    forall q | q in r.nodes ensures q < r.nextFree {
      PushBackAt(l, data, q);
    }
    forall i | 0 <= i < |c|
      ensures c[i] in r.nodes
      ensures r.nodes[c[i]].previous == (if i == 0 then None else Some(c[i - 1]))
      ensures r.nodes[c[i]].next == (if i == |c| - 1 then None else Some(c[i + 1]))
    {
      PushBackAt(l, data, c[i]);
      if i < n {
        assert c[i] == chain[i] && chain[i] in l.nodes;
        if 0 < i {
          assert c[i - 1] == chain[i - 1];
        }
        if i < n - 1 {
          assert c[i + 1] == chain[i + 1] && chain[i] != chain[n - 1];
        }
      } else if n > 0 {
        assert c[n - 1] == chain[n - 1];
      }
    }
    forall a, b | 0 <= a < b < |c| ensures c[a] != c[b] {
      if b < n {
        assert c[a] == chain[a] && c[b] == chain[b];
      } else {
        assert c[a] == chain[a] && chain[a] in l.nodes;
      }
    }
  }

  /** `PushBack` keeps every old node's data and every node off the chain. */
  lemma PushBackKeeps<T>(l: LinkedList<T>, data: Option<T>, chain: seq<NodeRef>)
    requires Valid(l, chain)
    ensures Allocated(PushBack(l, data), chain + [l.nextFree])
    ensures Elements(PushBack(l, data), chain + [l.nextFree]) == Elements(l, chain) + [data]
    ensures OffChainUnchanged(l, PushBack(l, data), chain)
  {
    var r := PushBack(l, data);
    var c := chain + [l.nextFree];
    PushBackValid(l, data, chain);
    forall i | 0 <= i < |c| ensures r.nodes[c[i]].data == (Elements(l, chain) + [data])[i] {
      PushBackAt(l, data, c[i]);
      if i < |chain| {
        assert c[i] == chain[i];
      }
    }
    forall q | q in l.nodes && q !in chain ensures q in r.nodes && r.nodes[q] == l.nodes[q] {
      PushBackAt(l, data, q);
    }
  }

  /** `AddToTail`: allocates a node holding `data` after the current tail and returns it. */
  function AddToTail<T>(l: LinkedList<T>, data: Option<T>, ghost chain: seq<NodeRef>): (r: (LinkedList<T>, NodeRef))
    requires Valid(l, chain)
    ensures r.1 == l.nextFree && r.0.nextFree == l.nextFree + 1 && r.1 !in l.nodes
    ensures Valid(r.0, chain + [r.1])
    ensures Elements(r.0, chain + [r.1]) == Elements(l, chain) + [data]
    ensures r.0.tail == Some(r.1)
    ensures |chain| == 0 ==> r.0.head == Some(r.1)
    ensures |chain| > 0 ==> r.0.head == l.head
    ensures OffChainUnchanged(l, r.0, chain)
  {
    assert l.tail.Some? ==> l.tail.value == chain[|chain| - 1];
    PushBackValid(l, data, chain);
    PushBackKeeps(l, data, chain);
    (PushBack(l, data), l.nextFree)
  }

  /** The nodes of `l` after `AddToHead(data)`: the new node is linked in front of the old head. */
  function PushFront<T>(l: LinkedList<T>, data: Option<T>): LinkedList<T>
    requires l.head.Some? ==> l.head.value in l.nodes
  {
    var previousHead := l.head;
    var node := l.nextFree;
    var nodes := l.nodes[node := Iterator(data, None, None)];
    var tail := if l.tail.None? then Some(node) else l.tail;
    var linked :=
      if previousHead.Some? then
        var withPrevious := nodes[previousHead.value := nodes[previousHead.value].(previous := Some(node))];
        withPrevious[node := withPrevious[node].(next := previousHead)]
      else nodes;
    LinkedList(linked, Some(node), tail, node + 1)
  }

  /** What `PushFront` leaves at each address. */
  lemma PushFrontAt<T>(l: LinkedList<T>, data: Option<T>, q: NodeRef)
    requires l.head.Some? ==> l.head.value in l.nodes
    requires FreshAbove(l)
    ensures q in PushFront(l, data).nodes <==> q in l.nodes || q == l.nextFree
    ensures q in PushFront(l, data).nodes ==>
      PushFront(l, data).nodes[q] ==
        if q == l.nextFree then Iterator(data, None, l.head)
        else if Some(q) == l.head then l.nodes[q].(previous := Some(l.nextFree))
        else l.nodes[q]
  {
  }

  /** `PushFront` yields a well-formed list over the new node followed by the old chain. */
  lemma PushFrontValid<T>(l: LinkedList<T>, data: Option<T>, chain: seq<NodeRef>)
    requires Valid(l, chain)
    ensures Valid(PushFront(l, data), [l.nextFree] + chain)
  {
    var r := PushFront(l, data);
    var node := l.nextFree;
    var c := [node] + chain;
    forall q | q in r.nodes ensures q < r.nextFree {
      PushFrontAt(l, data, q);
    }
    forall i | 0 <= i < |c|
      ensures c[i] in r.nodes
      ensures r.nodes[c[i]].previous == (if i == 0 then None else Some(c[i - 1]))
      ensures r.nodes[c[i]].next == (if i == |c| - 1 then None else Some(c[i + 1]))
    {
      PushFrontAt(l, data, c[i]);
      if 0 < i {
        assert c[i] == chain[i - 1] && chain[i - 1] in l.nodes;
        if i < |c| - 1 {
          assert c[i + 1] == chain[i];
        }
        if 1 < i {
          assert c[i - 1] == chain[i - 2] && chain[i - 1] != chain[0];
        }
      } else if |chain| > 0 {
        assert c[1] == chain[0];
      }
    }
    forall a, b | 0 <= a < b < |c| ensures c[a] != c[b] {
      if 0 < a {
        assert c[a] == chain[a - 1] && c[b] == chain[b - 1];
      } else {
        assert c[b] == chain[b - 1] && chain[b - 1] in l.nodes;
      }
    }
  }

  /** `PushFront` keeps every old node's data and every node off the chain. */
  lemma PushFrontKeeps<T>(l: LinkedList<T>, data: Option<T>, chain: seq<NodeRef>)
    requires Valid(l, chain)
    ensures Allocated(PushFront(l, data), [l.nextFree] + chain)
    ensures Elements(PushFront(l, data), [l.nextFree] + chain) == [data] + Elements(l, chain)
    ensures OffChainUnchanged(l, PushFront(l, data), chain)
  {
    var r := PushFront(l, data);
    var c := [l.nextFree] + chain;
    PushFrontValid(l, data, chain);
    forall i | 0 <= i < |c| ensures r.nodes[c[i]].data == ([data] + Elements(l, chain))[i] {
      PushFrontAt(l, data, c[i]);
      if 0 < i {
        assert c[i] == chain[i - 1];
      }
    }
    forall q | q in l.nodes && q !in chain ensures q in r.nodes && r.nodes[q] == l.nodes[q] {
      PushFrontAt(l, data, q);
    }
  }

  /** `AddToHead`: allocates a node holding `data` before the current head and returns it. */
  function AddToHead<T>(l: LinkedList<T>, data: Option<T>, ghost chain: seq<NodeRef>): (r: (LinkedList<T>, NodeRef))
    requires Valid(l, chain)
    ensures r.1 == l.nextFree && r.0.nextFree == l.nextFree + 1 && r.1 !in l.nodes
    ensures Valid(r.0, [r.1] + chain)
    ensures Elements(r.0, [r.1] + chain) == [data] + Elements(l, chain)
    ensures r.0.head == Some(r.1)
    ensures |chain| == 0 ==> r.0.tail == Some(r.1)
    ensures |chain| > 0 ==> r.0.tail == l.tail
    ensures OffChainUnchanged(l, r.0, chain)
  {
    assert l.head.Some? ==> l.head.value == chain[0];
    PushFrontValid(l, data, chain);
    PushFrontKeeps(l, data, chain);
    (PushFront(l, data), l.nextFree)
  }

  /**
   * The pointer surgery of `Remove`, step by step as the source performs it: clear the node's own
   * links, point the successor back at the predecessor and the predecessor on to the successor,
   * move head/tail off the node, free it.
   */
  function Unlink<T>(l: LinkedList<T>, it: NodeRef): LinkedList<T>
    requires it in l.nodes
    requires l.nodes[it].next.Some? ==> l.nodes[it].next.value in l.nodes
    requires l.nodes[it].previous.Some? ==> l.nodes[it].previous.value in l.nodes
  {
    var node := l.nodes[it];
    var next := node.next;
    var previous := node.previous;
    var unlinked := l.nodes[it := node.(next := None, previous := None)];
    var fixedNext :=
      if next.Some? then unlinked[next.value := unlinked[next.value].(previous := previous)] else unlinked;
    var fixedPrevious :=
      if previous.Some? then fixedNext[previous.value := fixedNext[previous.value].(next := next)] else fixedNext;
    var head := if Some(it) == l.head then next else l.head;
    var tail := if Some(it) == l.tail then previous else l.tail;
    LinkedList(fixedPrevious - {it}, head, tail, l.nextFree)
  }

  /** The neighbours of a member node are allocated. */
  ghost predicate NeighboursAllocated<T>(l: LinkedList<T>, it: NodeRef)
  {
    && it in l.nodes
    && (l.nodes[it].next.Some? ==> l.nodes[it].next.value in l.nodes)
    && (l.nodes[it].previous.Some? ==> l.nodes[it].previous.value in l.nodes)
  }

  lemma MemberNeighbours<T>(l: LinkedList<T>, it: NodeRef, chain: seq<NodeRef>)
    requires Valid(l, chain)
    requires it in chain
    ensures NeighboursAllocated(l, it)
    ensures var i := IndexOf(chain, it);
      && l.nodes[it].next == (if i == |chain| - 1 then None else Some(chain[i + 1]))
      && l.nodes[it].previous == (if i == 0 then None else Some(chain[i - 1]))
  {
    var i := IndexOf(chain, it);
    if i < |chain| - 1 {
      assert l.nodes[chain[i]].next == Some(chain[i + 1]);
    }
    if 0 < i {
      assert l.nodes[chain[i]].previous == Some(chain[i - 1]);
    }
  }

  /** What `Unlink` leaves at one address other than the freed node. */
  lemma UnlinkAt<T>(l: LinkedList<T>, it: NodeRef, q: NodeRef)
    requires NeighboursAllocated(l, it)
    requires l.nodes[it].next != Some(it) && l.nodes[it].previous != Some(it)
    requires l.nodes[it].next.Some? ==> l.nodes[it].next != l.nodes[it].previous
    requires q in l.nodes && q != it
    ensures q in Unlink(l, it).nodes
    ensures Unlink(l, it).nodes[q] ==
      if Some(q) == l.nodes[it].previous then l.nodes[q].(next := l.nodes[it].next)
      else if Some(q) == l.nodes[it].next then l.nodes[q].(previous := l.nodes[it].previous)
      else l.nodes[q]
  {
  }

  /** What `Unlink` does to each node that stays on the chain. */
  lemma UnlinkNodes<T>(l: LinkedList<T>, it: NodeRef, chain: seq<NodeRef>)
    requires Valid(l, chain)
    requires it in chain
    requires NeighboursAllocated(l, it)
    ensures var i := IndexOf(chain, it);
      var c := Without(chain, i);
      var r := Unlink(l, it);
      && it !in r.nodes
      && (forall k | 0 <= k < |c| :: c[k] in r.nodes)
      && (forall k | 0 <= k < |c| && k != i - 1 && k != i :: r.nodes[c[k]] == l.nodes[c[k]])
      && (0 < i ==> r.nodes[c[i - 1]] == l.nodes[c[i - 1]].(next := l.nodes[it].next))
      && (i < |c| ==> r.nodes[c[i]] == l.nodes[c[i]].(previous := l.nodes[it].previous))
      && (forall k | 0 <= k < |c| :: r.nodes[c[k]].data == l.nodes[c[k]].data)
      && OffChainUnchanged(l, r, chain)
  {
    var i := IndexOf(chain, it);
    var c := Without(chain, i);
    var r := Unlink(l, it);
    MemberNeighbours(l, it, chain);
    if i < |chain| - 1 {
      assert chain[i + 1] != chain[i];
      if 0 < i {
        assert chain[i + 1] != chain[i - 1];
      }
    }
    if 0 < i {
      assert chain[i - 1] != chain[i];
    }
    forall k | 0 <= k < |c|
      ensures c[k] in r.nodes
      ensures k != i - 1 && k != i ==> r.nodes[c[k]] == l.nodes[c[k]]
      ensures k == i - 1 ==> r.nodes[c[k]] == l.nodes[c[k]].(next := l.nodes[it].next)
      ensures k == i ==> r.nodes[c[k]] == l.nodes[c[k]].(previous := l.nodes[it].previous)
      ensures r.nodes[c[k]].data == l.nodes[c[k]].data
    {
      var j := if k < i then k else k + 1;
      assert c[k] == chain[j] && chain[j] != it;
      UnlinkAt(l, it, c[k]);
      if k != i - 1 && k != i {
        assert j != i - 1 && j != i + 1;
      }
    }
    forall q | q in l.nodes && q !in chain
      ensures q in r.nodes && r.nodes[q] == l.nodes[q]
    {
      UnlinkAt(l, it, q);
    }
  }

  lemma WithoutShape(chain: seq<NodeRef>, i: nat)
    requires i < |chain|
    requires Distinct(chain)
    ensures var c := Without(chain, i);
      && |c| == |chain| - 1
      && (forall k | 0 <= k < i :: c[k] == chain[k])
      && (forall k | i <= k < |c| :: c[k] == chain[k + 1])
      && Distinct(c)
  {
    var c := Without(chain, i);
    forall a, b | 0 <= a < b < |c| ensures c[a] != c[b] {
      var ja := if a < i then a else a + 1;
      var jb := if b < i then b else b + 1;
      assert c[a] == chain[ja] && c[b] == chain[jb];
    }
  }

  /** Where `Unlink` moves the head and tail pointers. */
  lemma UnlinkEnds<T>(l: LinkedList<T>, it: NodeRef)
    requires NeighboursAllocated(l, it)
    ensures Unlink(l, it).head == if l.head == Some(it) then l.nodes[it].next else l.head
    ensures Unlink(l, it).tail == if l.tail == Some(it) then l.nodes[it].previous else l.tail
    ensures Unlink(l, it).nextFree == l.nextFree
    ensures Unlink(l, it).nodes.Keys <= l.nodes.Keys
  {
  }

  /** Backward links after `Unlink` follow the shortened chain. */
  lemma UnlinkPreviousLinks<T>(l: LinkedList<T>, it: NodeRef, chain: seq<NodeRef>)
    requires Valid(l, chain)
    requires it in chain
    requires NeighboursAllocated(l, it)
    ensures var c := Without(chain, IndexOf(chain, it));
      && (forall k | 0 <= k < |c| :: c[k] in Unlink(l, it).nodes)
      && (forall k | 0 < k < |c| :: Unlink(l, it).nodes[c[k]].previous == Some(c[k - 1]))
      && (|c| > 0 ==> Unlink(l, it).nodes[c[0]].previous == None)
  {
    var i := IndexOf(chain, it);
    var c := Without(chain, i);
    var r := Unlink(l, it);
    MemberNeighbours(l, it, chain);
    UnlinkNodes(l, it, chain);
    WithoutShape(chain, i);
    forall k | 0 < k < |c| ensures r.nodes[c[k]].previous == Some(c[k - 1]) {
      if k < i {
        assert l.nodes[chain[k]].previous == Some(chain[k - 1]);
      } else if k > i {
        assert l.nodes[chain[k + 1]].previous == Some(chain[k]);
      }
    }
  }

  /** Forward links after `Unlink` follow the shortened chain. */
  lemma UnlinkNextLinks<T>(l: LinkedList<T>, it: NodeRef, chain: seq<NodeRef>)
    requires Valid(l, chain)
    requires it in chain
    requires NeighboursAllocated(l, it)
    ensures var c := Without(chain, IndexOf(chain, it));
      && (forall k | 0 <= k < |c| :: c[k] in Unlink(l, it).nodes)
      && (forall k | 0 <= k < |c| - 1 :: Unlink(l, it).nodes[c[k]].next == Some(c[k + 1]))
      && (|c| > 0 ==> Unlink(l, it).nodes[c[|c| - 1]].next == None)
  {
    var i := IndexOf(chain, it);
    var c := Without(chain, i);
    var r := Unlink(l, it);
    MemberNeighbours(l, it, chain);
    UnlinkNodes(l, it, chain);
    WithoutShape(chain, i);
    forall k | 0 <= k < |c| - 1 ensures r.nodes[c[k]].next == Some(c[k + 1]) {
      if k + 1 < i {
        assert l.nodes[chain[k]].next == Some(chain[k + 1]);
      } else if k >= i {
        assert l.nodes[chain[k + 1]].next == Some(chain[k + 2]);
      }
    }
  }

  /** `Unlink` on a member node yields a well-formed list over the chain without that node. */
  lemma UnlinkValid<T>(l: LinkedList<T>, it: NodeRef, chain: seq<NodeRef>)
    requires Valid(l, chain)
    requires it in chain
    requires NeighboursAllocated(l, it)
    ensures Valid(Unlink(l, it), Without(chain, IndexOf(chain, it)))
  {
    var i := IndexOf(chain, it);
    var c := Without(chain, i);
    var r := Unlink(l, it);
    MemberNeighbours(l, it, chain);
    UnlinkEnds(l, it);
    UnlinkPreviousLinks(l, it, chain);
    UnlinkNextLinks(l, it, chain);
    WithoutShape(chain, i);
    assert r.head == First(c);
    assert r.tail == Last(c);
    assert FreshAbove(r);
  }

  /** A list that keeps the data of every node but the `i`-th has lost exactly entry `i`. */
  lemma ElementsWithout<T>(l: LinkedList<T>, r: LinkedList<T>, chain: seq<NodeRef>, i: nat)
    requires Allocated(l, chain)
    requires i < |chain|
    requires forall k | 0 <= k < |Without(chain, i)| ::
      Without(chain, i)[k] in r.nodes && r.nodes[Without(chain, i)[k]].data == l.nodes[Without(chain, i)[k]].data
    ensures Allocated(r, Without(chain, i))
    ensures Elements(r, Without(chain, i)) == Elements(l, chain)[..i] + Elements(l, chain)[i + 1..]
  {
    var c := Without(chain, i);
    var e := Elements(l, chain);
    forall k | 0 <= k < |c| ensures Elements(r, c)[k] == (e[..i] + e[i + 1..])[k] {
      if k < i {
        assert c[k] == chain[k];
      } else {
        assert c[k] == chain[k + 1];
      }
    }
  }

  /** `Unlink` keeps the data of every other node, so the contents lose exactly entry `i`. */
  lemma UnlinkElements<T>(l: LinkedList<T>, it: NodeRef, chain: seq<NodeRef>)
    requires Valid(l, chain)
    requires it in chain
    requires NeighboursAllocated(l, it)
    ensures var i := IndexOf(chain, it);
      && Allocated(Unlink(l, it), Without(chain, i))
      && Elements(Unlink(l, it), Without(chain, i)) == Elements(l, chain)[..i] + Elements(l, chain)[i + 1..]
  {
    UnlinkNodes(l, it, chain);
    ElementsWithout(l, Unlink(l, it), chain, IndexOf(chain, it));
  }

  /**
   * `Remove`: unlinks the member node `it`, joins its former neighbours and frees it. The source
   * leaves the behaviour for a node of another list undefined, so `it` must be on `chain`.
   */
  function Remove<T>(l: LinkedList<T>, it: NodeRef, ghost chain: seq<NodeRef>): (r: LinkedList<T>)
    requires Valid(l, chain)
    requires it in chain
    ensures var i := IndexOf(chain, it);
      && Valid(r, Without(chain, i))
      && Elements(r, Without(chain, i)) == Elements(l, chain)[..i] + Elements(l, chain)[i + 1..]
    ensures it !in r.nodes
    ensures var i := IndexOf(chain, it);
      0 < i < |chain| - 1 ==>
        && chain[i - 1] in r.nodes && chain[i + 1] in r.nodes
        && r.nodes[chain[i - 1]].next == Some(chain[i + 1])
        && r.nodes[chain[i + 1]].previous == Some(chain[i - 1])
    ensures l.head == Some(it) ==> r.head == l.nodes[it].next
    ensures l.head != Some(it) ==> r.head == l.head
    ensures l.tail == Some(it) ==> r.tail == l.nodes[it].previous
    ensures l.tail != Some(it) ==> r.tail == l.tail
    ensures |chain| == 1 ==> r.head == None && r.tail == None
    ensures OffChainUnchanged(l, r, chain)
    ensures r.nextFree == l.nextFree
  {
    var i := IndexOf(chain, it);
    MemberNeighbours(l, it, chain);
    UnlinkNodes(l, it, chain);
    UnlinkValid(l, it, chain);
    UnlinkElements(l, it, chain);
    UnlinkEnds(l, it);
    var c := Without(chain, i);
    assert 0 < i < |chain| - 1 ==> c[i - 1] == chain[i - 1] && c[i] == chain[i + 1];
    Unlink(l, it)
  }

  /**
   * A store through an iterator (`pIterator->pData = data`): the node keeps its links, so the
   * list keeps its shape and only the entry at that node changes.
   */
  function SetData<T>(l: LinkedList<T>, it: NodeRef, data: Option<T>, ghost chain: seq<NodeRef>): (r: LinkedList<T>)
    requires Valid(l, chain)
    requires it in chain
    ensures Valid(r, chain)
    ensures Elements(r, chain) == Elements(l, chain)[IndexOf(chain, it) := data]
    ensures r.head == l.head && r.tail == l.tail && r.nodes.Keys == l.nodes.Keys
    ensures OffChainUnchanged(l, r, chain)
  {
    var i := IndexOf(chain, it);
    var r := l.(nodes := l.nodes[it := l.nodes[it].(data := data)]);
    assert forall k | 0 <= k < |chain| && k != i :: chain[k] != it;
    r
  }

  /** `Clear` (also run by the destructor): frees every node of the chain, head first. */
  method Clear<T>(l: LinkedList<T>, ghost chain: seq<NodeRef>) returns (r: LinkedList<T>)
    requires Valid(l, chain)
    ensures Valid(r, [])
    ensures r.head == None && r.tail == None
    ensures r.nodes == l.nodes - set k | 0 <= k < |chain| :: chain[k]
  {
    var nodes := l.nodes;
    var head := l.head;
    ghost var done := 0;
    while head.Some?
      invariant 0 <= done <= |chain|
      invariant head == (if done < |chain| then Some(chain[done]) else None)
      invariant nodes == l.nodes - set k | 0 <= k < done :: chain[k]
      decreases |chain| - done
    {
      assert chain[done] !in set k | 0 <= k < done :: chain[k];
      NextOnChain(l, chain, done);
      PrefixSetStep(chain, done);
      MapMinusStep(l.nodes, set k | 0 <= k < done :: chain[k], chain[done]);
      var nextIter := nodes[head.value].next;
      nodes := nodes - {head.value};
      head := nextIter;
      done := done + 1;
    }
    r := LinkedList(nodes, None, None, l.nextFree);
  }

  /**
   * The nodes `ClearAndDeleteElements` frees among the first `n` of the chain: it deletes a node
   * only when the node's data is non-null and the node has a successor.
   */
  ghost function FreedByClearAndDelete<T>(l: LinkedList<T>, chain: seq<NodeRef>, n: nat): set<NodeRef>
    requires Allocated(l, chain)
    requires n <= |chain|
  {
    set k | 0 <= k < n && l.nodes[chain[k]].data.Some? && l.nodes[chain[k]].next.Some? :: chain[k]
  }

  /** One more entry of `s` adds its data to `NonNull` when it is non-null. */
  lemma NonNullPrefixStep<T>(s: seq<Option<T>>, n: nat)
    requires n < |s|
    ensures s[n].Some? ==> NonNull(s[..n + 1]) == NonNull(s[..n]) + [s[n].value]
    ensures s[n].None? ==> NonNull(s[..n + 1]) == NonNull(s[..n])
  {
    assert s[..n + 1][..n] == s[..n];
  }

  /** The node after `chain[n]` on a well-formed list. */
  lemma NextOnChain<T>(l: LinkedList<T>, chain: seq<NodeRef>, n: nat)
    requires Valid(l, chain)
    requires n < |chain|
    ensures l.nodes[chain[n]].next == if n + 1 < |chain| then Some(chain[n + 1]) else None
  {
  }

  /** Removing keys one more at a time. */
  lemma MapMinusStep<T>(m: map<NodeRef, Iterator<T>>, f: set<NodeRef>, x: NodeRef)
    ensures (m - f) - {x} == m - (f + {x})
  {
  }

  /** The first `n + 1` nodes of a chain are the first `n` and `chain[n]`. */
  lemma PrefixSetStep(chain: seq<NodeRef>, n: nat)
    requires n < |chain|
    ensures (set k | 0 <= k < n + 1 :: chain[k]) == (set k | 0 <= k < n :: chain[k]) + {chain[n]}
  {
  }

  /** Visiting one more node adds it to the freed set exactly when it has data and a successor. */
  lemma FreedStep<T>(l: LinkedList<T>, chain: seq<NodeRef>, n: nat)
    requires Allocated(l, chain)
    requires Distinct(chain)
    requires n < |chain|
    ensures chain[n] !in FreedByClearAndDelete(l, chain, n)
    ensures l.nodes[chain[n]].data.Some? && l.nodes[chain[n]].next.Some? ==>
      FreedByClearAndDelete(l, chain, n + 1) == FreedByClearAndDelete(l, chain, n) + {chain[n]}
    ensures !(l.nodes[chain[n]].data.Some? && l.nodes[chain[n]].next.Some?) ==>
      FreedByClearAndDelete(l, chain, n + 1) == FreedByClearAndDelete(l, chain, n)
  {
  }

  /**
   * `ClearAndDeleteElements` as written: walks from the head, deletes every non-null data element
   * and then nulls head and tail. A node is freed only if its data is non-null and it is not the
   * last node, so the tail node and every node with null data stay allocated but unreachable.
   * Element destructors are assumed not to call back into this list.
   */
  method ClearAndDeleteElements<T>(l: LinkedList<T>, ghost chain: seq<NodeRef>) returns (r: LinkedList<T>, deleted: seq<T>)
    requires Valid(l, chain)
    ensures Valid(r, [])
    ensures r.head == None && r.tail == None
    ensures deleted == NonNull(Elements(l, chain))
    ensures r.nodes == l.nodes - FreedByClearAndDelete(l, chain, |chain|)
  {
    var nodes := l.nodes;
    var head := l.head;
    deleted := [];
    ghost var done := 0;
    while head.Some?
      invariant 0 <= done <= |chain|
      invariant head == (if done < |chain| then Some(chain[done]) else None)
      invariant nodes == l.nodes - FreedByClearAndDelete(l, chain, done)
      invariant deleted == NonNull(Elements(l, chain)[..done])
      decreases |chain| - done
    {
      FreedStep(l, chain, done);
      NextOnChain(l, chain, done);
      NonNullPrefixStep(Elements(l, chain), done);
      MapMinusStep(l.nodes, FreedByClearAndDelete(l, chain, done), chain[done]);
      var node := nodes[head.value];
      assert node == l.nodes[chain[done]];
      var nextIter := node.next;
      if node.data.Some? {
        deleted := deleted + [node.data.value];
        if node.next.Some? {
          nodes := nodes - {head.value};
        }
      }
      head := nextIter;
      done := done + 1;
    }
    assert Elements(l, chain)[..done] == Elements(l, chain);
    r := LinkedList(nodes, None, None, l.nextFree);
  }

  /**
   * `ClearAndDeleteElements` as evidently intended: every data element is deleted and every node
   * of the chain is freed. Deleting an element is taken not to call back into the list; one that
   * removed its own node would leave that node for this loop to free a second time.
   */
  method ClearAndDeleteElementsFreeingNodes<T>(l: LinkedList<T>, ghost chain: seq<NodeRef>) returns (r: LinkedList<T>, deleted: seq<T>)
    requires Valid(l, chain)
    ensures Valid(r, [])
    ensures r.head == None && r.tail == None
    ensures deleted == NonNull(Elements(l, chain))
    ensures r.nodes == l.nodes - set k | 0 <= k < |chain| :: chain[k]
  {
    var nodes := l.nodes;
    var head := l.head;
    deleted := [];
    ghost var done := 0;
    while head.Some?
      invariant 0 <= done <= |chain|
      invariant head == (if done < |chain| then Some(chain[done]) else None)
      invariant nodes == l.nodes - set k | 0 <= k < done :: chain[k]
      invariant deleted == NonNull(Elements(l, chain)[..done])
      decreases |chain| - done
    {
      assert chain[done] !in set k | 0 <= k < done :: chain[k];
      NextOnChain(l, chain, done);
      NonNullPrefixStep(Elements(l, chain), done);
      PrefixSetStep(chain, done);
      MapMinusStep(l.nodes, set k | 0 <= k < done :: chain[k], chain[done]);
      var node := nodes[head.value];
      assert node == l.nodes[chain[done]];
      var nextIter := node.next;
      if node.data.Some? {
        deleted := deleted + [node.data.value];
      }
      nodes := nodes - {head.value};
      head := nextIter;
      done := done + 1;
    }
    assert Elements(l, chain)[..done] == Elements(l, chain);
    r := LinkedList(nodes, None, None, l.nextFree);
  }

  /** The tail node is never among the nodes `ClearAndDeleteElements` frees. */
  lemma ClearAndDeleteElementsKeepsTail<T>(l: LinkedList<T>, chain: seq<NodeRef>)
    requires Valid(l, chain)
    requires |chain| > 0
    ensures chain[|chain| - 1] !in FreedByClearAndDelete(l, chain, |chain|)
    ensures chain[|chain| - 1] in l.nodes - FreedByClearAndDelete(l, chain, |chain|)
  {
  }

  /** A one-element list: its node stays allocated after `ClearAndDeleteElements` although nothing reaches it. */
  lemma ClearAndDeleteElementsLeaksSingleNode<T>(x: T)
    ensures var (l, n) := AddToTail(Empty<T>(), Some(x), []);
      && n in l.nodes
      && n !in FreedByClearAndDelete(l, [n], 1)
  {
    var (l, n) := AddToTail(Empty<T>(), Some(x), []);
    assert l.nodes[n].next == None;
  }

  /** Two chains that both describe the same pointers are equal: head, tail and links fix the contents. */
  lemma {:induction false} ChainDetermined<T>(l: LinkedList<T>, a: seq<NodeRef>, b: seq<NodeRef>)
    requires Valid(l, a) && Valid(l, b)
    ensures a == b
  {
    var n := if |a| < |b| then |a| else |b|;
    forall k | 0 <= k < n ensures a[k] == b[k] {
      PrefixAgrees(l, a, b, k);
    }
  }

  lemma {:induction false} PrefixAgrees<T>(l: LinkedList<T>, a: seq<NodeRef>, b: seq<NodeRef>, k: nat)
    requires Valid(l, a) && Valid(l, b)
    requires k < |a| && k < |b|
    ensures a[k] == b[k]
    decreases k
  {
    if k > 0 {
      PrefixAgrees(l, a, b, k - 1);
      assert l.nodes[a[k - 1]].next == Some(a[k]);
      assert l.nodes[b[k - 1]].next == Some(b[k]);
    }
  }

  /** Well-formedness in pointer terms: the ends are open and every link is mirrored by its partner. */
  lemma LinksMirrored<T>(l: LinkedList<T>, chain: seq<NodeRef>)
    requires Valid(l, chain)
    ensures l.head.Some? ==> l.head.value in l.nodes && l.nodes[l.head.value].previous == None
    ensures l.tail.Some? ==> l.tail.value in l.nodes && l.nodes[l.tail.value].next == None
    ensures forall k | 0 <= k < |chain| ::
      var n := l.nodes[chain[k]];
      n.next.Some? ==> n.next.value in l.nodes && l.nodes[n.next.value].previous == Some(chain[k])
    ensures forall k | 0 <= k < |chain| ::
      var n := l.nodes[chain[k]];
      n.previous.Some? ==> n.previous.value in l.nodes && l.nodes[n.previous.value].next == Some(chain[k])
  {
    forall k | 0 <= k < |chain|
      ensures var n := l.nodes[chain[k]];
        n.next.Some? ==> n.next.value in l.nodes && l.nodes[n.next.value].previous == Some(chain[k])
      ensures var n := l.nodes[chain[k]];
        n.previous.Some? ==> n.previous.value in l.nodes && l.nodes[n.previous.value].next == Some(chain[k])
    {
      if k < |chain| - 1 {
        assert l.nodes[chain[k + 1]].previous == Some(chain[k]);
      }
      if 0 < k {
        assert l.nodes[chain[k - 1]].next == Some(chain[k]);
      }
    }
  }

  /** `Remove` undoes `AddToTail`: the list holds its former contents again. */
  lemma AddToTailThenRemove<T>(l: LinkedList<T>, data: Option<T>, chain: seq<NodeRef>)
    requires Valid(l, chain)
    ensures var (l', n) := AddToTail(l, data, chain);
      var r := Remove(l', n, chain + [n]);
      Valid(r, chain) && Elements(r, chain) == Elements(l, chain) && r.head == l.head && r.tail == l.tail
  {
    var (l', n) := AddToTail(l, data, chain);
    var c := chain + [n];
    assert n !in chain;
    assert IndexOf(c, n) == |chain|;
    assert Without(c, |chain|) == chain;
    var r := Remove(l', n, c);
    ChainDetermined(l, chain, chain);
    assert Elements(l', c)[..|chain|] == Elements(l, chain);
  }

  /** `Remove` undoes `AddToHead`. */
  lemma AddToHeadThenRemove<T>(l: LinkedList<T>, data: Option<T>, chain: seq<NodeRef>)
    requires Valid(l, chain)
    ensures var (l', n) := AddToHead(l, data, chain);
      var r := Remove(l', n, [n] + chain);
      Valid(r, chain) && Elements(r, chain) == Elements(l, chain) && r.head == l.head && r.tail == l.tail
  {
    var (l', n) := AddToHead(l, data, chain);
    var c := [n] + chain;
    assert IndexOf(c, n) == 0;
    assert Without(c, 0) == chain;
    assert Elements(l', c)[1..] == Elements(l, chain);
  }

  /** The list built by appending A and B to a new list. */
  function AppendTwo<T>(a: T, b: T): (r: LinkedList<T>)
    ensures Valid(r, [0, 1]) && r.nextFree == 2
    ensures Elements(r, [0, 1]) == [Some(a), Some(b)]
  {
    var (l1, na) := AddToTail(Empty<T>(), Some(a), []);
    AddToTail(l1, Some(b), [0]).0
  }

  /** The list built by appending A, B and C to a new list. */
  function AppendThree<T>(a: T, b: T, c: T): (r: LinkedList<T>)
    ensures Valid(r, [0, 1, 2])
    ensures Elements(r, [0, 1, 2]) == [Some(a), Some(b), Some(c)]
    ensures r.head == Some(0) && r.tail == Some(2)
  {
    var l := AppendTwo(a, b);
    assert [0, 1] + [2] == [0, 1, 2];
    AddToTail(l, Some(c), [0, 1]).0
  }

  /**
   * Appending A, B, C to a new list allocates nodes 0, 1 and 2; removing node 1 (B) leaves A, C
   * with A at the head and C at the tail.
   */
  lemma AppendThreeRemoveMiddle<T>(a: T, b: T, c: T)
    ensures
      var l := Remove(AppendThree(a, b, c), 1, [0, 1, 2]);
      && Valid(l, [0, 2])
      && Elements(l, [0, 2]) == [Some(a), Some(c)]
      && l.head == Some(0) && l.tail == Some(2)
  {
    assert IndexOf([0, 1, 2], 1) == 1;
    assert Without([0, 1, 2], 1) == [0, 2];
  }
}
