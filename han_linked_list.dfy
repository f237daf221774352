/** `HANLinkedList`: a singly linked list with a dummy header node and a
    `size` field. Both passes keep their chain of scopes in one. The ghost
    `Spine` lists the header followed by the nodes reachable from it, and
    `Contents` the values those nodes hold. */
module Datastructures {
  import opened Wrappers

  class Node<T> {
    var value: Option<T>  // None only in the header, whose Java value is null
    var next: Node?<T>

    constructor (value: Option<T>)
      ensures this.value == value && next == null
    {
      this.value := value;
      next := null;
    }
  }

  class HANLinkedList<T> {
    const header: Node<T>
    var size: nat

    ghost var Contents: seq<T>
    ghost var Spine: seq<Node<T>>
    ghost var Repr: set<object>

    /** `size` counts exactly the nodes reachable after the header: the spine
        has `size + 1` distinct nodes, each links to the next, the last to null. */
    ghost predicate Valid()
      reads this, Repr
      ensures Valid() ==> this in Repr
    {
      && this in Repr
      && |Spine| == size + 1
      && |Contents| == size
      && Spine[0] == header
      && (forall k :: 0 <= k < |Spine| ==> Spine[k] in Repr)
      && (forall k {:trigger Spine[k].next} :: 0 <= k < size ==> Spine[k].next == Spine[k + 1])
      && Spine[size].next == null
      && (forall k :: 0 <= k < size ==> Spine[k + 1].value == Some(Contents[k]))
    }

    /** The chain ends in null after `size` links, so it cannot run into
        itself: no node occurs twice on the spine. */
    lemma {:induction false} SpineDistinct(i: int, j: int)
      requires Valid() && 0 <= i < j <= size
      ensures Spine[i] != Spine[j]
      decreases size - j
    {
      assert Spine[i].next == Spine[i + 1];
      if j < size {
        SpineDistinct(i + 1, j + 1);
        assert Spine[j].next == Spine[j + 1];
      }
    }

    lemma AllSpineDistinct()
      requires Valid()
      ensures forall i, j :: 0 <= i < j < |Spine| ==> Spine[i] != Spine[j]
    {
      forall i, j | 0 <= i < j < |Spine|
        ensures Spine[i] != Spine[j]
      {
        SpineDistinct(i, j);
      }
    }

    constructor ()
      ensures Valid() && fresh(Repr)
      ensures Contents == []
    {
      header := new Node(None);
      size := 0;
      Contents := [];
      new;
      Spine := [header];
      Repr := {this, header};
    }

    /** Puts `value` at position 0; every earlier element moves up one place. */
    method AddFirst(value: T)
      requires Valid()
      modifies Repr
      ensures Valid() && fresh(Repr - old(Repr))
      ensures Contents == [value] + old(Contents)
    {
      LinkAfter(header, 0, value);
    }

    /** Empties the list. */
    method Clear()
      requires Valid()
      modifies Repr
      ensures Valid() && fresh(Repr - old(Repr))
      ensures Contents == []
    {
      header.next := null;
      size := 0;
      Spine := [header];
      Contents := [];
    }

    /** Inserts `value` at `index`. An index outside `0..size` throws
        IndexOutOfBoundsException in the source: here `ok` is false and
        nothing changes. */
    method Insert(index: int, value: T) returns (ok: bool)
      requires Valid()
      modifies Repr
      ensures Valid() && fresh(Repr - old(Repr))
      ensures ok <==> 0 <= index <= |old(Contents)|
      ensures ok ==> Contents == old(Contents)[..index] + [value] + old(Contents)[index..]
      ensures !ok ==> Contents == old(Contents)
    {
      if index < 0 || index > size {
        return false;
      }
      var prev := header;
      var i := 0;
      while i < index
        invariant 0 <= i <= index
        invariant prev == Spine[i]
      {
        prev := prev.next;
        i := i + 1;
      }
      LinkAfter(prev, index, value);
      ok := true;
    }

    /** Links a new node holding `value` in after `prev`, the node at spine
        position `index`: the step `addFirst` and `insert` share. */
    method LinkAfter(prev: Node<T>, index: nat, value: T)
      requires Valid() && index <= size && prev == Spine[index]
      modifies Repr
      ensures Valid() && fresh(Repr - old(Repr))
      ensures Contents == old(Contents)[..index] + [value] + old(Contents)[index..]
    {
      AllSpineDistinct();
      ghost var oldSpine := Spine;
      var node := new Node(Some(value));
      node.next := prev.next;
      prev.next := node;
      size := size + 1;
      Spine := seq(|oldSpine| + 1, k requires 0 <= k <= |oldSpine| =>
        if k <= index then oldSpine[k] else if k == index + 1 then node else oldSpine[k - 1]);
      Contents := Contents[..index] + [value] + Contents[index..];
      Repr := Repr + {node};
      forall k | 0 <= k < |Spine|
        ensures Spine[k] in Repr
        ensures k < size ==> Spine[k].next == Spine[k + 1]
        ensures k == size ==> Spine[k].next == null
        ensures 0 < k ==> Spine[k].value == Some(Contents[k - 1])
      {
        if k < index {
          assert oldSpine[k] != prev;
        } else if index + 1 < k {
          assert oldSpine[k - 1] != prev;
        }
      }
    }

    /** Removes the element at `pos`; the others keep their order. A position
        outside `0..size-1` throws in the source: here `ok` is false and
        nothing changes. */
    method Delete(pos: int) returns (ok: bool)
      requires Valid()
      modifies Repr
      ensures Valid() && Repr == old(Repr)
      ensures ok <==> 0 <= pos < |old(Contents)|
      ensures ok ==> Contents == old(Contents)[..pos] + old(Contents)[pos + 1..]
      ensures !ok ==> Contents == old(Contents)
    {
      if pos < 0 || pos >= size {
        return false;
      }
      var prev := header;
      var i := 0;
      while i < pos
        invariant 0 <= i <= pos
        invariant prev == Spine[i]
      {
        prev := prev.next;
        i := i + 1;
      }
      UnlinkAfter(prev, pos);
      ok := true;
    }

    /** Bypasses the node after `prev`, the node at spine position `pos`:
        the step `removeFirst` and `delete` share. */
    method UnlinkAfter(prev: Node<T>, pos: nat)
      requires Valid() && pos < size && prev == Spine[pos]
      modifies Repr
      ensures Valid() && Repr == old(Repr)
      ensures Contents == old(Contents)[..pos] + old(Contents)[pos + 1..]
    {
      assert prev.next == Spine[pos + 1];
      AllSpineDistinct();
      ghost var oldSpine := Spine;
      prev.next := prev.next.next;
      size := size - 1;
      Spine := seq(|oldSpine| - 1, k requires 0 <= k < |oldSpine| - 1 => if k <= pos then oldSpine[k] else oldSpine[k + 1]);
      Contents := Contents[..pos] + Contents[pos + 1..];
      forall k | 0 <= k < |Spine|
        ensures Spine[k] in Repr
        ensures k < size ==> Spine[k].next == Spine[k + 1]
        ensures 0 < k ==> Spine[k].value == Some(Contents[k - 1])
      {
        if k < pos {
          assert oldSpine[k] != prev;
        } else if pos < k {
          assert oldSpine[k + 1] != prev;
        }
      }
    }

    /** The element at `pos`, walking from the first node; `None` where the
        source throws IndexOutOfBoundsException. */
    method Get(pos: int) returns (r: Option<T>)
      requires Valid()
      ensures r == if 0 <= pos < |Contents| then Some(Contents[pos]) else None
    {
      if pos < 0 || pos >= size {
        return None;
      }
      var curr := header.next;
      var i := 0;
      while i < pos
        invariant 0 <= i <= pos
        invariant curr == Spine[i + 1]
      {
        curr := curr.next;
        i := i + 1;
      }
      r := curr.value;
    }

    /** Drops position 0; does nothing on an empty list. */
    method RemoveFirst()
      requires Valid()
      modifies Repr
      ensures Valid() && Repr == old(Repr)
      ensures Contents == if old(Contents) == [] then [] else old(Contents)[1..]
    {
      if size == 0 {
        return;
      }
      UnlinkAfter(header, 0);
    }

    /** Element 0, or `None` (the source's null) on an empty list. */
    method GetFirst() returns (r: Option<T>)
      requires Valid()
      ensures r == if Contents == [] then None else Some(Contents[0])
    {
      if size == 0 {
        return None;
      }
      assert header.next == Spine[1];
      r := header.next.value;
    }

    method GetSize() returns (n: nat)
      requires Valid()
      ensures n == |Contents|
    {
      n := size;
    }
  }
}
