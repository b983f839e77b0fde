/** The cursor-based doubly linked list under the graphs and the matrices
    (List.c).  The links, `front`, `back` and `length` represent one ghost
    sequence, `Contents`; `nodes` lists the node objects in the same order. */
module Lists {

  class Node<T> {
    var data: T
    var next: Node?<T>
    var prev: Node?<T>

    constructor (x: T)
      ensures data == x && next == null && prev == null
    {
      data := x;
      next := null;
      prev := null;
    }
  }

  /** Where moveNext takes an index: past the back it becomes undefined (-1). */
  function NextIndex(i: int, n: nat): int {
    if i < 0 then i else if i == n - 1 then -1 else i + 1
  }

  /** Where movePrev takes an index: past the front it becomes undefined (-1). */
  function PrevIndex(i: int): int {
    if i < 0 then i else i - 1
  }

  function InsertAt<T>(s: seq<T>, k: nat, x: T): (r: seq<T>)
    requires k <= |s|
    ensures |r| == |s| + 1 && r[k] == x
    ensures forall i :: 0 <= i < k ==> r[i] == s[i]
    ensures forall i :: k < i < |r| ==> r[i] == s[i - 1]
  {
    s[..k] + [x] + s[k..]
  }

  function RemoveAt<T>(s: seq<T>, k: nat): (r: seq<T>)
    requires k < |s|
    ensures |r| == |s| - 1
    ensures forall i :: 0 <= i < k ==> r[i] == s[i]
    ensures forall i :: k <= i < |r| ==> r[i] == s[i + 1]
  {
    s[..k] + s[k + 1..]
  }

  lemma DistinctAfterInsert<T>(s: seq<Node<T>>, k: nat, n: Node<T>)
    requires k <= |s| && n !in s && forall i, j :: 0 <= i < j < |s| ==> s[i] != s[j]
    ensures forall i, j :: 0 <= i < j <= |s| ==> InsertAt(s, k, n)[i] != InsertAt(s, k, n)[j]
  {
    var r := InsertAt(s, k, n);
    forall i | 0 <= i <= |s| && i != k ensures r[i] in s {
      assert r[i] == s[if i < k then i else i - 1];
    }
  }

  class List<T> {
    var length: nat
    var index: int
    var front: Node?<T>
    var back: Node?<T>
    var cursor: Node?<T>
    ghost var nodes: seq<Node<T>>
    ghost var Contents: seq<T>
    ghost var Repr: set<Node<T>>

    /** The links represent Contents.  Nothing here depends on the cursor, so
        moving a cursor keeps this predicate for every list. */
    ghost predicate Linked()
      reads this`length, this`front, this`back, this`nodes, this`Contents, this`Repr, Repr
    {
      && length == |nodes| == |Contents|
      && (length == 0 ==> front == null && back == null)
      && (length > 0 ==> front == nodes[0] && back == nodes[length - 1])
      && (forall i, j :: 0 <= i < j < length ==> nodes[i] != nodes[j])
      && (forall i :: 0 <= i < length ==> Placed(i))
    }

    /** The node at position i carries Contents[i] and points at its neighbours. */
    ghost predicate Placed(i: nat)
      requires i < |nodes| == |Contents|
      reads this`nodes, this`Contents, this`Repr, Repr
    {
      && nodes[i] in Repr
      && nodes[i].data == Contents[i]
      && nodes[i].next == (if i == |nodes| - 1 then null else nodes[i + 1])
      && nodes[i].prev == (if i == 0 then null else nodes[i - 1])
    }

    /** The cursor is undefined, or is the node at position `index`. */
    ghost predicate CursorAgrees()
      reads this`index, this`cursor, this`length, this`nodes
    {
      || (index == -1 && cursor == null)
      || (0 <= index < length && index < |nodes| && cursor == nodes[index])
    }

    /** What a `delete` in the middle leaves behind: no cursor node, but an
        index that still reads as defined. */
    ghost predicate CursorStale()
      reads this`index, this`cursor, this`length
    {
      0 <= index < length && cursor == null
    }

    ghost predicate Valid()
      reads this, Repr
    {
      Linked() && CursorAgrees()
    }

    /** Valid, or stale after a middle `delete`. */
    ghost predicate Usable()
      reads this, Repr
    {
      Linked() && (CursorAgrees() || CursorStale())
    }

    constructor ()
      ensures Valid() && Contents == [] && Repr == {} && index == -1
    {
      length := 0;
      index := -1;
      front, back, cursor := null, null, null;
      nodes, Contents, Repr := [], [], {};
    }

    // Access functions

    method Length() returns (n: nat)
      requires Linked()
      ensures n == |Contents|
    {
      n := length;
    }

    method Front() returns (x: T)
      requires Linked() && |Contents| > 0
      ensures x == Contents[0]
    {
      assert Placed(0);
      x := front.data;
    }

    method Back() returns (x: T)
      requires Linked() && |Contents| > 0
      ensures x == Contents[|Contents| - 1]
    {
      assert Placed(length - 1);
      x := back.data;
    }

    method Get() returns (x: T)
      requires Valid() && index >= 0
      ensures 0 <= index < |Contents| && x == Contents[index]
    {
      assert Placed(index);
      x := cursor.data;
    }

    // Manipulation procedures

    method Clear()
      requires Linked()
      modifies this
      ensures Valid() && Contents == [] && Repr == {} && index == -1
    {
      length := 0;
      index := -1;
      front, back, cursor := null, null, null;
      nodes, Contents, Repr := [], [], {};
    }

    method Set(x: T)
      requires Valid() && index >= 0
      modifies this`Contents, Repr
      ensures Valid()
      ensures Contents == old(Contents)[index := x]
    {
      assert Placed(index);
      cursor.data := x;
      Contents := Contents[index := x];
      forall i | 0 <= i < length ensures Placed(i) {
        assert old(Placed(i));
      }
    }

    method MoveFront()
      requires Usable()
      modifies this`cursor, this`index
      ensures Valid()
      ensures index == if |Contents| > 0 then 0 else -1
    {
      if length > 0 {
        cursor := front;
        index := 0;
      }
    }

    method MoveBack()
      requires Usable()
      modifies this`cursor, this`index
      ensures Valid()
      ensures index == |Contents| - 1
    {
      if length > 0 {
        cursor := back;
        index := length - 1;
      }
    }

    /** A stale cursor may only be moved off the end it stands at: anywhere else
        the source would follow a null pointer. */
    method MovePrev()
      requires Usable() && (CursorAgrees() || index == 0)
      modifies this`cursor, this`index
      ensures Valid()
      ensures index == PrevIndex(old(index)) && -1 <= index < |Contents|
    {
      if index >= 0 {
        if index == 0 {
          index := -1;
          cursor := null;
        } else {
          assert Placed(index);
          cursor := cursor.prev;
          index := index - 1;
        }
      }
    }

    method MoveNext()
      requires Usable() && (CursorAgrees() || index == |Contents| - 1)
      modifies this`cursor, this`index
      ensures Valid()
      ensures index == NextIndex(old(index), |Contents|) && -1 <= index < |Contents|
    {
      if index >= 0 {
        if index == length - 1 {
          index := -1;
          cursor := null;
        } else {
          assert Placed(index);
          cursor := cursor.next;
          index := index + 1;
        }
      }
    }

    /** The pointer surgery of a prepend to a non-empty list. */
    method LinkFront(x: T)
      requires Linked() && length > 0
      modifies this`length, this`front, this`nodes, this`Contents, this`Repr, Repr
      ensures Linked() && fresh(Repr - old(Repr))
      ensures nodes[1..] == old(nodes)
      ensures Contents == [x] + old(Contents)
    {
      assert Placed(0);
      var n := new Node(x);
      n.next := front;
      front.prev := n;
      front := n;
      length := length + 1;
      nodes, Repr := [n] + nodes, Repr + {n};
      Contents := [x] + Contents;
      forall i | 0 < i < length ensures Placed(i) {
        assert old(Placed(i - 1));
      }
    }

    method Prepend(x: T)
      requires Usable()
      modifies this, Repr
      ensures Linked() && (old(CursorAgrees()) ==> CursorAgrees())
      ensures old(CursorStale()) ==> CursorAgrees() || CursorStale()
      ensures Contents == [x] + old(Contents)
      ensures index == if old(index) >= 0 then old(index) + 1 else -1
      ensures fresh(Repr - old(Repr))
    {
      if length == 0 {
        var n := new Node(x);
        front := n;
        back := n;
        length := length + 1;
        nodes, Repr, Contents := [n], Repr + {n}, [x];
      } else {
        LinkFront(x);
        if index >= 0 {
          index := index + 1;
        }
      }
    }

    /** The pointer surgery of an append to a non-empty list. */
    method LinkBack(x: T)
      requires Linked() && length > 0
      modifies this`length, this`back, this`nodes, this`Contents, this`Repr, Repr
      ensures Linked() && fresh(Repr - old(Repr)) && length == old(length) + 1
      ensures nodes[..old(length)] == old(nodes)
      ensures Contents == old(Contents) + [x]
    {
      assert Placed(length - 1);
      var n := new Node(x);
      n.prev := back;
      back.next := n;
      back := n;
      length := length + 1;
      nodes, Repr := nodes + [n], Repr + {n};
      Contents := Contents + [x];
      forall i | 0 <= i < length - 1 ensures Placed(i) {
        assert old(Placed(i));
      }
    }

    method Append(x: T)
      requires Usable()
      modifies this, Repr
      ensures Linked() && (old(CursorAgrees()) ==> CursorAgrees())
      ensures old(CursorStale()) ==> CursorAgrees() || CursorStale()
      ensures Contents == old(Contents) + [x]
      ensures index == old(index)
      ensures fresh(Repr - old(Repr))
    {
      if length == 0 {
        var n := new Node(x);
        front := n;
        back := n;
        length := length + 1;
        nodes, Repr, Contents := [n], Repr + {n}, [x];
      } else {
        ghost var before := nodes;
        LinkBack(x);
        assert forall i :: 0 <= i < |before| ==> nodes[i] == nodes[..|before|][i];
      }
    }

    /** The pointer updates of both inserts: n between two neighbours. */
    method LinkBetween(before: Node<T>, n: Node<T>, after: Node<T>)
      requires before != n && n != after && before != after
      modifies before`next, n`next, n`prev, after`prev
      ensures before.next == n && n.prev == before && n.next == after && after.prev == n
    {
      n.next := after;
      n.prev := before;
      n.prev.next := n;
      n.next.prev := n;
    }

    /** The pointer surgery of both inserts: a new node between two neighbours. */
    method Splice(before: Node<T>, after: Node<T>, x: T, ghost k: nat)
      requires Linked() && 0 < k < length && before == nodes[k - 1] && after == nodes[k]
      modifies this`length, this`nodes, this`Contents, this`Repr, Repr
      ensures Linked() && fresh(Repr - old(Repr))
      ensures Contents == InsertAt(old(Contents), k, x)
      ensures length == old(length) + 1 && nodes[k - 1] == before && nodes[k + 1] == after
    {
      hide InsertAt;
      assert Placed(k - 1) && Placed(k);
      var n := new Node(x);
      LinkBetween(before, n, after);
      DistinctAfterInsert(nodes, k, n);
      nodes, Repr := InsertAt(nodes, k, n), Repr + {n};
      Contents := InsertAt(Contents, k, x);
      length := length + 1;
      forall i | 0 <= i < length ensures Placed(i) {
        if i < k {
          assert old(Placed(i));
        } else if i > k {
          assert old(Placed(i - 1));
        }
      }
    }

    method InsertBefore(x: T)
      requires Usable() && index >= 0 && (CursorAgrees() || index == 0)
      modifies this, Repr
      ensures Linked() && (old(CursorAgrees()) ==> CursorAgrees())
      ensures old(CursorStale()) ==> CursorAgrees() || CursorStale()
      ensures Contents == InsertAt(old(Contents), old(index), x)
      ensures index == old(index) + 1
      ensures fresh(Repr - old(Repr))
    {
      if index == 0 {
        Prepend(x);
      } else {
        assert Placed(index);
        Splice(cursor.prev, cursor, x, index);
        index := index + 1;
      }
    }

    method InsertAfter(x: T)
      requires Usable() && index >= 0 && (CursorAgrees() || index == |Contents| - 1)
      modifies this, Repr
      ensures Linked() && (old(CursorAgrees()) ==> CursorAgrees())
      ensures old(CursorStale()) ==> CursorAgrees() || CursorStale()
      ensures Contents == InsertAt(old(Contents), old(index) + 1, x)
      ensures index == old(index)
      ensures fresh(Repr - old(Repr))
    {
      if index == length - 1 {
        Append(x);
      } else {
        assert Placed(index);
        Splice(cursor, cursor.next, x, index + 1);
      }
    }

    /** The pointer surgery of a deletion in front, with a second element. */
    method UnlinkFront()
      requires Linked() && length > 1
      modifies this`length, this`front, this`nodes, this`Contents, Repr
      ensures Linked() && length == old(length) - 1
      ensures nodes == old(nodes)[1..] && Contents == old(Contents)[1..]
    {
      assert Placed(0) && Placed(1);
      ghost var before := nodes;
      front := front.next;
      front.prev := null;
      length := length - 1;
      nodes, Contents := nodes[1..], Contents[1..];
      assert forall i :: 0 <= i < length ==> nodes[i] == before[i + 1];
      forall i | 0 <= i < length ensures Placed(i) {
        assert old(Placed(i + 1));
      }
    }

    method DeleteFront()
      requires Usable() && |Contents| > 0
      modifies this, Repr
      ensures Linked() && (old(CursorAgrees()) ==> CursorAgrees())
      ensures old(CursorStale()) ==> CursorAgrees() || CursorStale()
      ensures Contents == old(Contents)[1..]
      ensures index == if old(index) > 0 && |old(Contents)| > 1 then old(index) - 1 else -1
      ensures Repr == old(Repr)
    {
      if length == 1 {
        front, back, cursor := null, null, null;
        index := -1;
        length := 0;
        nodes, Contents := [], [];
      } else {
        UnlinkFront();
        if index == 0 {
          cursor := null;
          index := -1;
        } else if index > 0 {
          index := index - 1;
        }
      }
    }

    /** The pointer surgery of a deletion at the back, with a second element. */
    method UnlinkBack()
      requires Linked() && length > 1
      modifies this`length, this`back, this`nodes, this`Contents, Repr
      ensures Linked() && length == old(length) - 1
      ensures nodes == old(nodes)[..length] && Contents == old(Contents)[..length]
    {
      assert Placed(length - 1) && Placed(length - 2);
      ghost var before := nodes;
      back := back.prev;
      back.next := null;
      length := length - 1;
      nodes, Contents := nodes[..length], Contents[..length];
      assert forall i :: 0 <= i < length ==> nodes[i] == before[i];
      forall i | 0 <= i < length ensures Placed(i) {
        assert old(Placed(i));
      }
    }

    method DeleteBack()
      requires Usable() && |Contents| > 0
      modifies this, Repr
      ensures Linked() && (old(CursorAgrees()) ==> CursorAgrees())
      ensures old(CursorStale()) ==> CursorAgrees() || CursorStale()
      ensures Contents == old(Contents)[..|old(Contents)| - 1]
      ensures index == if old(index) == |old(Contents)| - 1 then -1 else old(index)
      ensures Repr == old(Repr)
    {
      if length == 1 {
        front, back, cursor := null, null, null;
        index := -1;
        length := 0;
        nodes, Contents := [], [];
      } else {
        if index == length - 1 {
          cursor := null;
          index := -1;
        }
        UnlinkBack();
      }
    }

    /** The pointer surgery of a middle delete. */
    method Unlink(n: Node<T>, ghost k: nat)
      requires Linked() && 0 < k < length - 1 && n == nodes[k]
      modifies this`length, this`nodes, this`Contents, Repr
      ensures Linked() && length == old(length) - 1
      ensures Contents == RemoveAt(old(Contents), k)
    {
      assert Placed(k - 1) && Placed(k) && Placed(k + 1);
      n.prev.next := n.next;
      n.next.prev := n.prev;
      n.next := null;
      n.prev := null;
      nodes := RemoveAt(nodes, k);
      Contents := RemoveAt(Contents, k);
      length := length - 1;
      forall i | 0 <= i < length ensures Placed(i) {
        assert old(Placed(if i < k then i else i + 1));
      }
    }

    /** The header promises an undefined cursor afterwards.  That is what happens
        at the two ends only: a middle delete leaves the cursor stale. */
    method Delete()
      requires Valid() && index >= 0
      modifies this, Repr
      ensures Usable() && cursor == null
      ensures 0 <= old(index) < |old(Contents)|
      ensures Contents == RemoveAt(old(Contents), old(index))
      ensures Repr == old(Repr)
      ensures Valid() <==> old(index) == 0 || old(index) == |old(Contents)| - 1
      ensures index == if 0 < old(index) < |old(Contents)| - 1 then old(index) - 1 else -1
    {
      if index == 0 {
        DeleteFront();
      } else if index == length - 1 {
        DeleteBack();
      } else {
        Unlink(cursor, index);
        cursor := null;
        index := index - 1;
      }
    }
  }

  // Other operations

  /** True exactly when both lists are given and hold the same sequence. */
  method Equals<T(==)>(a: List?<T>, b: List?<T>) returns (r: bool)
    requires a != null ==> a.Linked()
    requires b != null ==> b.Linked()
    ensures r <==> a != null && b != null && a.Contents == b.Contents
  {
    if a == null || b == null {
      return false;
    }
    if a.length != b.length {
      return false;
    }
    var nodeA, nodeB := a.front, b.front;
    ghost var k := 0;
    while nodeA != null && nodeB != null
      invariant 0 <= k <= a.length
      invariant nodeA == if k < a.length then a.nodes[k] else null
      invariant nodeB == if k < b.length then b.nodes[k] else null
      invariant a.Contents[..k] == b.Contents[..k]
      decreases a.length - k
    {
      assert a.Placed(k) && b.Placed(k);
      if nodeA.data != nodeB.data {
        assert a.Contents[k] != b.Contents[k];
        return false;
      }
      nodeA, nodeB, k := nodeA.next, nodeB.next, k + 1;
    }
    assert a.Contents[..k] == a.Contents && b.Contents[..k] == b.Contents;
    return true;
  }

  /** The elements in the order printList writes them, front first. */
  method Elements<T>(a: List<T>) returns (s: seq<T>)
    requires a.Linked()
    ensures s == a.Contents
  {
    s := [];
    var n := a.front;
    while n != null
      invariant |s| <= a.length && s == a.Contents[..|s|]
      invariant n == if |s| < a.length then a.nodes[|s|] else null
      decreases a.length - |s|
    {
      assert a.Placed(|s|);
      s, n := s + [n.data], n.next;
    }
  }

  /** Walks a's nodes, so a's cursor stays where it is. */
  method CopyList<T>(a: List?<T>) returns (c: List?<T>)
    requires a != null ==> a.Linked()
    ensures c == null <==> a == null
    ensures c != null ==> fresh(c) && fresh(c.Repr) && c.Valid() && c.index == -1 && c.Contents == a.Contents
  {
    if a == null {
      return null;
    }
    c := new List<T>();
    var n := a.front;
    ghost var k := 0;
    while n != null
      invariant 0 <= k <= a.length && a.Linked()
      invariant c.Valid() && c.index == -1 && fresh(c) && fresh(c.Repr)
      invariant n == if k < a.length then a.nodes[k] else null
      invariant c.Contents == a.Contents[..k]
      decreases a.length - k
    {
      assert a.Placed(k);
      c.Append(n.data);
      n, k := n.next, k + 1;
    }
    assert a.Contents[..k] == a.Contents;
  }
}
