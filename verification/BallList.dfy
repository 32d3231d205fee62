/** The singly linked list with head, tail and total_count that the server and the client both keep
    (src/server/localball_list.c, src/client/screenball_list.c and their managers), over the heap. */
module BallList {
  import opened Seqs

  class Node<T> {
    var data: T
    var next: Node?<T>

    constructor (data: T)
      ensures this.data == data && next == null
    {
      this.data := data;
      next := null;
    }
  }

  /** Element `i`, or null past either end. */
  ghost function At<T>(nodes: seq<Node<T>>, i: int): Node?<T> {
    if 0 <= i < |nodes| then nodes[i] else null
  }

  /** The same at position `i - 1`: the predecessor of position `i`. */
  ghost function Before<T>(nodes: seq<Node<T>>, i: int): Node?<T> {
    At(nodes, i - 1)
  }

  ghost function Data<T>(nodes: seq<Node<T>>): (s: seq<T>)
    reads nodes
    ensures |s| == |nodes| && forall i {:trigger s[i]} :: 0 <= i < |s| ==> s[i] == nodes[i].data
  {
    seq(|nodes|, i requires 0 <= i < |nodes| reads nodes => nodes[i].data)
  }

  ghost function Nexts<T>(nodes: seq<Node<T>>): (s: seq<Node?<T>>)
    reads nodes
    ensures |s| == |nodes| && forall i {:trigger s[i]} :: 0 <= i < |s| ==> s[i] == nodes[i].next
  {
    seq(|nodes|, i requires 0 <= i < |nodes| reads nodes => nodes[i].next)
  }

  /** Each node points to the next one; the last points nowhere. */
  ghost predicate Chain<T>(nodes: seq<Node<T>>, nexts: seq<Node?<T>>) {
    |nexts| == |nodes| && forall i {:trigger nexts[i]} :: 0 <= i < |nodes| ==> nexts[i] == At(nodes, i + 1)
  }

  lemma FieldsCut<T>(nodes: seq<Node<T>>, k: nat)
    requires k < |nodes|
    ensures Data(Cut(nodes, k)) == Cut(Data(nodes), k) && Nexts(Cut(nodes, k)) == Cut(Nexts(nodes), k)
  {
  }

  /** Pointing the predecessor of node `k` past it cuts `k` out of the chain. */
  lemma ChainCut<T>(nodes: seq<Node<T>>, nexts: seq<Node?<T>>, nexts': seq<Node?<T>>, k: nat)
    requires k < |nodes| && Chain(nodes, nexts)
    requires nexts' == if k > 0 then nexts[k - 1 := nexts[k]] else nexts
    ensures Chain(Cut(nodes, k), Cut(nexts', k))
  {
  }

  lemma CutEnds<T>(nodes: seq<Node<T>>, k: nat)
    requires k < |nodes| && Distinct(nodes)
    ensures At(Cut(nodes, k), 0) == if nodes[k] == nodes[0] then At(nodes, k + 1) else nodes[0]
    ensures At(Cut(nodes, k), |nodes| - 2) ==
            if nodes[k] == nodes[|nodes| - 1] then Before(nodes, k) else nodes[|nodes| - 1]
  {
  }

  class Manager<T> {
    var head: Node?<T>
    var tail: Node?<T>
    var totalCount: int
    ghost var nodes: seq<Node<T>>

    /** The nodes form an acyclic chain from head to tail. */
    ghost predicate Linked()
      reads this, nodes
    {
      && head == At(nodes, 0) && tail == At(nodes, |nodes| - 1)
      && Chain(nodes, Nexts(nodes)) && Distinct(nodes)
    }

    /** Following `next` from position `i` leads to position `i + 1`. */
    lemma Next(i: nat)
      requires Linked() && i < |nodes|
      ensures nodes[i].next == At(nodes, i + 1)
    {
      assert Nexts(nodes)[i] == nodes[i].next;
    }

    ghost predicate Valid()
      reads this, nodes
    {
      Linked() && totalCount == |nodes|
    }

    ghost function Contents(): (s: seq<T>)
      reads this, nodes
      ensures |s| == |nodes|
    {
      Data(nodes)
    }

    ghost function Repr(): set<Node<T>>
      reads this
    {
      set n | n in nodes
    }

    constructor ()
      ensures Valid() && Contents() == [] && nodes == []
    {
      head, tail, totalCount, nodes := null, null, 0, [];
    }

    /** appendBall: links a new node after the tail. The count is its callers' business. */
    method AppendBall(data: T)
      requires Linked()
      modifies this, Repr()
      ensures Linked() && Contents() == old(Contents()) + [data]
      ensures totalCount == old(totalCount)
      ensures fresh(Repr() - old(Repr()))
    {
      var node := new Node<T>(data);
      ghost var was, all, links := nodes, Data(nodes), Nexts(nodes);
      if head == null {
        head := node;
        tail := node;
      } else {
        tail.next := node;
        tail := node;
      }
      nodes := was + [node];
      assert Nexts(nodes) == (if was == [] then [null] else links[|was| - 1 := node] + [null]);
      assert Data(nodes) == all + [data];
    }

    /** appendBall with the count kept in step, as every caller does. */
    method AppendCounted(data: T)
      requires Valid()
      modifies this, Repr()
      ensures Valid() && Contents() == old(Contents()) + [data]
      ensures fresh(Repr() - old(Repr()))
    {
      totalCount := totalCount + 1;
      AppendBall(data);
    }

    /** Overwrites the data of the node at position `i`. */
    method Store(cur: Node<T>, data: T, ghost i: nat)
      requires Valid() && i < |nodes| && cur == nodes[i]
      modifies cur`data
      ensures Valid() && Contents() == old(Contents())[i := data]
    {
      ghost var nexts := Nexts(nodes);
      cur.data := data;
      assert Nexts(nodes) == nexts;
    }

    /** delete_all_ball: walks the chain, counting down once per node. */
    method DeleteAll()
      requires Valid()
      modifies this
      ensures Valid() && nodes == [] && Contents() == []
    {
      var cur := head;
      ghost var i := 0;
      while cur != null
        invariant 0 <= i <= |nodes| && nodes == old(nodes) && Linked()
        invariant cur == At(nodes, i)
        invariant totalCount == |nodes| - i
        decreases |nodes| - i
      {
        Next(i);
        cur := cur.next;
        totalCount := totalCount - 1;
        i := i + 1;
      }
      head, tail, nodes := null, null, [];
    }

    /** Unlinks the node at position `k`, whose predecessor the caller saved. (delete_ball_by_socket
        tests for a null predecessor where delete_ball compares with head; in a valid list the two
        tests agree.) */
    method Unlink(target: Node<T>, prev: Node?<T>, ghost k: nat)
      requires Valid() && k < |nodes| && target == nodes[k] && prev == Before(nodes, k)
      modifies this, Repr()
      ensures Valid() && nodes == Cut(old(nodes), k) && Contents() == Cut(old(Contents()), k)
      ensures Repr() <= old(Repr())
    {
      ghost var was, nexts, data := nodes, Nexts(nodes), Data(nodes);
      Next(k);
      if head == target {
        head := target.next;
      }
      if tail == target {
        tail := prev;
      }
      if prev != null {
        prev.next := target.next;
      }
      totalCount := totalCount - 1;
      nodes := Cut(was, k);
      assert Distinct(nodes) && Repr() <= old(Repr()) by {
        CutDistinct(was, k);
      }
      assert head == At(nodes, 0) && tail == At(nodes, |nodes| - 1) by {
        CutEnds(was, k);
      }
      assert Data(nodes) == Cut(data, k) by {
        assert Data(was) == data;
        FieldsCut(was, k);
      }
      assert Chain(nodes, Nexts(nodes)) by {
        assert Nexts(was) == if k > 0 then nexts[k - 1 := nexts[k]] else nexts;
        ChainCut(was, nexts, Nexts(was), k);
        FieldsCut(was, k);
      }
    }
  }
}
