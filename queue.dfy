/** The generic FIFO queue: a doubly-linked list of nodes with head and
    tail pointers and a size counter. Elements are copied in on push, so
    the queue holds values; `remove_process` treats the elements as
    processes and removes the first one of highest priority. */
module ProcessQueue {
  import opened Wrappers

  /** `process_t`. */
  datatype Process = Process(id: int, name: string, runtime: int, priority: int)

  /** `node_t`: the element and the links to its neighbours. */
  class Node<T> {
    var data: T
    var next: Node?<T>
    var prev: Node?<T>

    constructor (data: T, prev: Node?<T>)
      ensures this.data == data && next == null && this.prev == prev
    {
      this.data := data;
      this.next := null;
      this.prev := prev;
    }
  }

  /** `queue_t`. `nodes` lists the nodes from head to tail and `contents`
      their elements; `Repr` holds the queue and its nodes. */
  class Queue<T> {
    var head: Node?<T>
    var tail: Node?<T>
    var size: int
    ghost var nodes: seq<Node<T>>
    ghost var contents: seq<T>
    ghost var Repr: set<object>

    /** `size` counts the nodes; head and tail are both NULL exactly when
        the queue is empty and otherwise are its first and last nodes;
        every node's `prev` and `next` point to its neighbours. */
    ghost predicate Valid()
      reads this, Repr
    {
      this in Repr &&
      (forall i :: 0 <= i < |nodes| ==> nodes[i] in Repr) &&
      (forall i, j :: 0 <= i < j < |nodes| ==> nodes[i] != nodes[j]) &&
      |contents| == |nodes| == size &&
      (forall i :: 0 <= i < |nodes| ==> nodes[i].data == contents[i]) &&
      (if nodes == [] then head == null && tail == null
       else head == nodes[0] && tail == nodes[|nodes| - 1]) &&
      (forall i {:trigger nodes[i].prev} :: 0 <= i < |nodes| ==>
         nodes[i].prev == (if i == 0 then null else nodes[i - 1])) &&
      (forall i {:trigger nodes[i].next} :: 0 <= i < |nodes| ==>
         nodes[i].next == (if i + 1 == |nodes| then null else nodes[i + 1]))
    }

    /** `create_queue`. */
    constructor ()
      ensures Valid() && fresh(Repr)
      ensures contents == [] && head == null && tail == null && size == 0
    {
      head := null;
      tail := null;
      size := 0;
      nodes := [];
      contents := [];
      Repr := {this};
    }
  }

  /** The frame of an operation on a queue pointer that may be NULL. */
  ghost function Footprint<T>(q: Queue?<T>): set<object>
    reads q
  {
    if q == null then {} else q.Repr
  }

  // ---------------------------------------------------------------------
  // Specification

  /** The front element and the rest, or nothing for an empty queue. */
  function Front<T>(s: seq<T>): (Option<T>, seq<T>) {
    if s == [] then (None, s) else (Some(s[0]), s[1..])
  }

  /** The scan of `remove_process` from position `i` on, with `best` the
      first highest-priority position among those before `i`. */
  function MaxFrom(s: seq<Process>, best: nat, i: nat): (r: nat)
    requires best < |s| && best <= i <= |s|
    ensures r < |s|
    decreases |s| - i
  {
    if i == |s| then best
    else if s[i].priority > s[best].priority then MaxFrom(s, i, i + 1)
    else MaxFrom(s, best, i + 1)
  }

  /** The position `remove_process` removes. */
  function MaxIndex(s: seq<Process>): nat
    requires s != []
  {
    MaxFrom(s, 0, 0)
  }

  /** `remove_process` on contents `s`: the removed process and the rest. */
  function RemoveMax(s: seq<Process>): (Option<Process>, seq<Process>) {
    if s == [] then (None, s)
    else
      var k := MaxIndex(s);
      (Some(s[k]), s[..k] + s[k + 1..])
  }

  lemma {:induction false} MaxFromIsFirstMax(s: seq<Process>, best: nat, i: nat)
    requires best < |s| && best <= i <= |s|
    requires forall j :: 0 <= j < i ==> s[j].priority <= s[best].priority
    requires forall j :: 0 <= j < best ==> s[j].priority < s[best].priority
    ensures forall j :: 0 <= j < |s| ==> s[j].priority <= s[MaxFrom(s, best, i)].priority
    ensures forall j :: 0 <= j < MaxFrom(s, best, i) ==> s[j].priority < s[MaxFrom(s, best, i)].priority
    decreases |s| - i
  {
    if i < |s| {
      if s[i].priority > s[best].priority {
        MaxFromIsFirstMax(s, i, i + 1);
      } else {
        MaxFromIsFirstMax(s, best, i + 1);
      }
    }
  }

  /** The removed process has the highest priority, every earlier one a
      strictly lower priority, and the others are kept in their order. */
  lemma RemoveMaxTakesFirstHighest(s: seq<Process>)
    ensures RemoveMax(s).0.None? <==> s == []
    ensures s != [] ==>
            var (p, rest) := RemoveMax(s);
            var k := MaxIndex(s);
            k < |s| && p == Some(s[k]) && rest == s[..k] + s[k + 1..] &&
            (forall j :: 0 <= j < |s| ==> s[j].priority <= s[k].priority) &&
            (forall j :: 0 <= j < k ==> s[j].priority < s[k].priority)
    ensures s != [] ==> multiset(RemoveMax(s).1) + multiset{RemoveMax(s).0.value} == multiset(s)
  {
    if s != [] {
      var k := MaxIndex(s);
      MaxFromIsFirstMax(s, 0, 0);
      assert s == s[..k] + [s[k]] + s[k + 1..];
    }
  }

  // ---------------------------------------------------------------------
  // Operations

  /** `push_queue`: a copy of `element` becomes the new tail; a NULL queue
      is left alone. */
  method Push<T>(q: Queue?<T>, element: T)
    requires q != null ==> q.Valid()
    modifies Footprint(q)
    ensures q != null ==> q.Valid() && q.contents == old(q.contents) + [element]
    ensures q != null ==> fresh(q.Repr - old(q.Repr))
  {
    if q == null {
      return;
    }
    ghost var ns := q.nodes;
    var n := new Node(element, q.tail);
    if q.tail != null {
      assert q.tail == ns[|ns| - 1];
      q.tail.next := n;
    } else {
      q.head := n;
    }
    q.tail := n;
    q.size := q.size + 1;
    q.nodes := ns + [n];
    q.contents := q.contents + [element];
    q.Repr := q.Repr + {n};
    forall i | 0 <= i < |ns|
      ensures q.nodes[i].prev == (if i == 0 then null else q.nodes[i - 1])
      ensures q.nodes[i].next == (if i + 1 == |q.nodes| then null else q.nodes[i + 1])
      ensures q.nodes[i].data == q.contents[i]
    {
      assert q.nodes[i] == ns[i];
      if i + 1 < |ns| {
        assert ns[i] != ns[|ns| - 1];
      }
    }
  }

  /** `pop_queue`: the head element removed and returned, or `None` for a
      NULL or empty queue. */
  method Pop<T>(q: Queue?<T>) returns (data: Option<T>)
    requires q != null ==> q.Valid()
    modifies Footprint(q)
    ensures q == null ==> data == None
    ensures q != null ==> q.Valid() && (data, q.contents) == Front(old(q.contents))
    ensures q != null ==> q.Repr == old(q.Repr)
  {
    if q == null || q.head == null {
      return None;
    }
    var front := q.head;
    data := Some(front.data);
    assert data == Some(q.contents[0]);
    assert q.contents[..0] + q.contents[1..] == q.contents[1..];
    Unlink(q, front, 0);
  }

  /** `remove_process`: the first process of highest priority removed and
      returned, or `None` for a NULL or empty queue. */
  method RemoveProcess(q: Queue?<Process>) returns (p: Option<Process>)
    requires q != null ==> q.Valid()
    modifies Footprint(q)
    ensures q == null ==> p == None
    ensures q != null ==> q.Valid() && (p, q.contents) == RemoveMax(old(q.contents))
    ensures q != null ==> q.Repr == old(q.Repr)
  {
    if q == null || q.head == null {
      return None;
    }
    var highest, k := FindHighest(q);
    p := Some(highest.data);
    Unlink(q, highest, k);
  }

  /** The scan of `remove_process`: walks from the head and keeps the
      first node whose priority is strictly greater than all before it. */
  method FindHighest(q: Queue<Process>) returns (highest: Node<Process>, ghost k: nat)
    requires q.Valid() && q.head != null
    ensures q.contents != [] && k == MaxIndex(q.contents) && highest == q.nodes[k]
  {
    ghost var s := q.contents;
    var current := q.head;
    highest := current;
    var highestPriority := current.data.priority;
    ghost var i := 0;
    k := 0;
    while current != null
      invariant 0 <= k <= i <= |q.nodes| && k < |q.nodes|
      invariant current == (if i < |q.nodes| then q.nodes[i] else null)
      invariant highest == q.nodes[k] && highestPriority == s[k].priority
      invariant MaxFrom(s, k, i) == MaxIndex(s)
      decreases |q.nodes| - i
    {
      assert current.next == (if i + 1 == |q.nodes| then null else q.nodes[i + 1]);
      if current.data.priority > highestPriority {
        highestPriority := current.data.priority;
        highest := current;
        k := i;
      }
      current := current.next;
      i := i + 1;
    }
  }

  /** Takes node `k` out of the list, joining its neighbours. */
  method Unlink<T>(q: Queue<T>, node: Node<T>, ghost k: nat)
    requires q.Valid() && k < |q.nodes| && node == q.nodes[k]
    modifies q.Repr
    ensures q.Valid() && q.Repr == old(q.Repr)
    ensures q.nodes == old(q.nodes[..k] + q.nodes[k + 1..])
    ensures q.contents == old(q.contents[..k] + q.contents[k + 1..])
  {
    ghost var ns := q.nodes;
    ghost var n := |ns|;
    var before := node.prev;
    var after := node.next;
    assert before == (if k == 0 then null else ns[k - 1]);
    assert after == (if k + 1 == n then null else ns[k + 1]);
    if before != null {
      assert ns[k - 1] in q.Repr;
      before.next := after;
    } else {
      q.head := after;
    }
    if after != null {
      assert ns[k + 1] in q.Repr;
      after.prev := before;
    } else {
      q.tail := before;
    }
    q.size := q.size - 1;
    q.nodes := ns[..k] + ns[k + 1..];
    q.contents := old(q.contents[..k] + q.contents[k + 1..]);
    forall i | 0 <= i < n - 1
      ensures q.nodes[i].prev == (if i == 0 then null else q.nodes[i - 1])
      ensures q.nodes[i].next == (if i + 1 == n - 1 then null else q.nodes[i + 1])
      ensures q.nodes[i].data == q.contents[i]
    {
      if i < k {
        assert q.nodes[i] == ns[i];
        assert ns[i].prev == old(ns[i].prev) && ns[i].data == old(ns[i].data);
        if i + 1 < k {
          assert ns[i] != ns[k - 1];
          assert ns[i].next == old(ns[i].next);
        } else {
          assert ns[i].next == after;
        }
      } else {
        assert q.nodes[i] == ns[i + 1];
        assert ns[i + 1].next == old(ns[i + 1].next) && ns[i + 1].data == old(ns[i + 1].data);
        if i > k {
          assert ns[i + 1] != ns[k + 1];
          assert ns[i + 1].prev == old(ns[i + 1].prev);
        } else {
          assert ns[i + 1].prev == before;
        }
      }
    }
  }

  /** `get_queue_size`: 0 for a NULL queue, otherwise the element count. */
  method GetQueueSize<T>(q: Queue?<T>) returns (n: int)
    requires q != null ==> q.Valid()
    ensures n == (if q == null then 0 else |q.contents|)
  {
    if q == null {
      return 0;
    }
    return q.size;
  }

  // ---------------------------------------------------------------------
  // Scenarios

  /** Elements come out in the order they went in. */
  method PushAllThenPopAll<T>(xs: seq<T>) returns (out: seq<T>)
    ensures out == xs
  {
    var q := PushAll(xs);
    out := PopAll(q);
  }

  /** A new queue with `xs` pushed in order. */
  method PushAll<T>(xs: seq<T>) returns (q: Queue<T>)
    ensures q.Valid() && fresh(q.Repr) && q.contents == xs
  {
    q := new Queue<T>();
    var i := 0;
    while i < |xs|
      invariant 0 <= i <= |xs|
      invariant q.Valid() && fresh(q.Repr) && q.contents == xs[..i]
    {
      Push(q, xs[i]);
      assert xs[..i + 1] == xs[..i] + [xs[i]];
      i := i + 1;
    }
    assert xs[..i] == xs;
  }

  /** Pops as many times as the queue has elements, collecting them. */
  method PopAll<T>(q: Queue<T>) returns (out: seq<T>)
    requires q.Valid()
    modifies q.Repr
    ensures out == old(q.contents)
  {
    ghost var xs := q.contents;
    out := [];
    var n := GetQueueSize(q);
    while n > 0
      invariant q.Valid()
      invariant q.Repr == old(q.Repr)
      invariant n == |q.contents|
      invariant |out| + n == |xs| && out == xs[..|out|]
      invariant q.contents == xs[|out|..]
      decreases n
    {
      ghost var before := q.contents;
      var d := Pop(q);
      ghost var rest := q.contents;
      PopStep(out, before, d, rest, xs);
      out := out + [d.value];
      n := n - 1;
    }
  }

  lemma PopStep<T>(out: seq<T>, before: seq<T>, d: Option<T>, rest: seq<T>, xs: seq<T>)
    requires |out| < |xs| && out == xs[..|out|] && before == xs[|out|..]
    requires (d, rest) == Front(before)
    ensures d.Some? && out + [d.value] == xs[..|out| + 1] && rest == xs[|out| + 1..]
  {
    assert xs[..|out| + 1] == xs[..|out|] + [xs[|out|]];
  }


  /** The queue driver: four processes pushed, the front popped, then the
      highest-priority one removed. */
  method DriverScenario() returns (popped: Option<Process>, removed: Option<Process>, left: int)
    ensures popped == Some(Process(1, "Process1", 100, 3))
    ensures removed == Some(Process(2, "Process2", 200, 5))
    ensures left == 2
  {
    var p1 := Process(1, "Process1", 100, 3);
    var p2 := Process(2, "Process2", 200, 5);
    var p3 := Process(3, "Process3", 150, 4);
    var p4 := Process(4, "Process4", 250, 2);
    var q := PushAll([p1, p2, p3, p4]);
    popped := Pop(q);
    assert q.contents == [p2, p3, p4];
    RemoveMaxTakesFirstHighest([p2, p3, p4]);
    removed := RemoveProcess(q);
    left := GetQueueSize(q);
  }
}
