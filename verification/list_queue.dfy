/** The linked request queue (Project2/source/list_queue.h). */
module ListQueues {

  class Node<T> {
    var value: T
    var next: Node?<T>
    /** Cleared when the node is freed. */
    ghost var live: bool

    constructor (value: T)
      ensures this.value == value && next == null && live
    {
      this.value := value;
      next := null;
      live := true;
    }
  }

  /** A list with a pointer to its last node. Popping the last element leaves `back` pointing at a
      freed node, so `Valid` says something about `back` only while the list has a head. */
  class ListQueue<T> {
    var head: Node?<T>
    var back: Node?<T>
    var size: int

    ghost var contents: seq<T>
    ghost var spine: seq<Node<T>>
    ghost var Repr: set<object>

    ghost predicate Valid()
      reads this, Repr
      ensures Valid() ==> this in Repr
    {
      && this in Repr
      && (forall i :: 0 <= i < |spine| ==> spine[i] in Repr)
      && size == |spine| == |contents|
      && (forall i, j :: 0 <= i < j < |spine| ==> spine[i] != spine[j])
      && (forall i :: 0 <= i < |spine| ==> spine[i].live && spine[i].value == contents[i])
      && (forall i :: 0 <= i < |spine| - 1 ==> spine[i].next == spine[i + 1])
      && (if spine == [] then head == null
          else head == spine[0] && back == spine[|spine| - 1] && back.next == null)
    }

    constructor ()
      ensures Valid() && fresh(Repr) && contents == []
    {
      head, back, size := null, null, 0;
      contents, spine, Repr := [], [], {this};
    }

    method Push(value: T)
      requires Valid()
      modifies Repr
      ensures Valid() && fresh(Repr - old(Repr))
      ensures contents == Apply(old(contents), PushOp(value))
    {
      var node := new Node<T>(value);
      if head == null {
        head := node;
        back := node;
      } else {
        assert back.live;
        back.next := node;
        back := node;
      }
      size := size + 1;
      contents, spine, Repr := contents + [value], spine + [node], Repr + {node};
    }

    /** Does nothing on an empty queue; otherwise drops and frees the first node. */
    method Pop()
      requires Valid()
      modifies Repr
      ensures Valid() && Repr <= old(Repr) && back == old(back)
      ensures contents == Apply(old(contents), PopOp)
      ensures old(contents) != [] ==> !old(head).live && old(head) !in Repr
      ensures |old(contents)| == 1 ==> back != null && !back.live
    {
      if head == null {
        return;
      }
      var popped := head;
      head := popped.next;
      size := size - 1;
      contents, spine, Repr := contents[1..], spine[1..], Repr - {popped};
      popped.live := false;
    }

    method Front() returns (value: T)
      requires Valid() && contents != []
      ensures value == contents[0]
    {
      assert head.live;
      value := head.value;
    }
  }

  // ----- any sequence of calls -----

  datatype Op<T> = PushOp(value: T) | PopOp

  /** First-in first-out on sequences. */
  function Apply<T>(contents: seq<T>, op: Op<T>): seq<T> {
    match op
    case PushOp(v) => contents + [v]
    case PopOp => if contents == [] then [] else contents[1..]
  }

  function ApplyAll<T>(contents: seq<T>, ops: seq<Op<T>>): seq<T> {
    if ops == [] then contents else Apply(ApplyAll(contents, ops[..|ops| - 1]), ops[|ops| - 1])
  }

  function PushedBy<T>(ops: seq<Op<T>>): seq<T> {
    if ops == [] then []
    else
      var before := PushedBy(ops[..|ops| - 1]);
      if ops[|ops| - 1].PushOp? then before + [ops[|ops| - 1].value] else before
  }

  /** How many pops of `ops` find the queue non-empty. */
  function PopsServed<T>(contents: seq<T>, ops: seq<Op<T>>): nat {
    if ops == [] then 0
    else
      var before := ops[..|ops| - 1];
      PopsServed(contents, before) +
      if ops[|ops| - 1].PopOp? && ApplyAll(contents, before) != [] then 1 else 0
  }

  /** Whatever the mix of calls: line up the initial contents and all values pushed, in order, and drop
      one from the front for each pop of a non-empty queue; what is left is what the queue holds. */
  lemma {:induction false} QueueIsFirstInFirstOut<T>(contents: seq<T>, ops: seq<Op<T>>)
    ensures PopsServed(contents, ops) <= |contents + PushedBy(ops)|
    ensures ApplyAll(contents, ops) == (contents + PushedBy(ops))[PopsServed(contents, ops)..]
  {
    if ops != [] {
      QueueIsFirstInFirstOut(contents, ops[..|ops| - 1]);
    }
  }

  /** The heap list behaves so over any sequence of calls from any valid state. */
  method RunOps<T>(queue: ListQueue<T>, ops: seq<Op<T>>)
    requires queue.Valid()
    modifies queue.Repr
    ensures queue.Valid() && fresh(queue.Repr - old(queue.Repr)) && queue.size == |queue.contents|
    ensures queue.contents == ApplyAll(old(queue.contents), ops)
    ensures PopsServed(old(queue.contents), ops) <= |old(queue.contents) + PushedBy(ops)|
    ensures queue.contents == (old(queue.contents) + PushedBy(ops))[PopsServed(old(queue.contents), ops)..]
  {
    for i := 0 to |ops|
      invariant queue.Valid() && fresh(queue.Repr - old(queue.Repr))
      invariant queue.contents == ApplyAll(old(queue.contents), ops[..i])
    {
      assert ops[..i + 1][..i] == ops[..i];
      match ops[i] {
        case PushOp(v) => queue.Push(v);
        case PopOp => queue.Pop();
      }
    }
    assert ops[..|ops|] == ops;
    QueueIsFirstInFirstOut(old(queue.contents), ops);
  }
}
