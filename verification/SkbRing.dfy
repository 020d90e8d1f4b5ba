/** The receive ring of the Bluetooth character device, rsi/rsi_91x_bluedroid.c. */
module SkbRing {
  import opened Wrappers

  const QUEUE_SIZE := 500

  class Skb {
    var data: seq<nat>
    var freed: bool

    constructor (data: seq<nat>)
      ensures this.data == data && !freed
    {
      this.data := data;
      freed := false;
    }
  }

  // ---------------------------------------------------------------- the bounded FIFO it refines

  function Pushed<T>(c: seq<T>, x: T): seq<T> {
    if |c| == QUEUE_SIZE then c else c + [x]
  }

  datatype Op<T> = Put(x: T) | Get

  function Final<T>(c: seq<T>, ops: seq<Op<T>>): seq<T>
    decreases ops
  {
    if ops == [] then c else Final(After(c, ops[0]), ops[1..])
  }

  function After<T>(c: seq<T>, op: Op<T>): seq<T> {
    match op
    case Put(x) => Pushed(c, x)
    case Get => if c == [] then c else c[1..]
  }

  /** What one operation takes in: a frame offered while the ring is not full. */
  function TakenNow<T>(c: seq<T>, op: Op<T>): seq<T> {
    if op.Put? && |c| != QUEUE_SIZE then [op.x] else []
  }

  function DeliveredNow<T>(c: seq<T>, op: Op<T>): seq<T> {
    if op.Get? && c != [] then [c[0]] else []
  }

  function Taken<T>(c: seq<T>, ops: seq<Op<T>>): seq<T>
    decreases ops
  {
    if ops == [] then [] else TakenNow(c, ops[0]) + Taken(After(c, ops[0]), ops[1..])
  }

  function Delivered<T>(c: seq<T>, ops: seq<Op<T>>): seq<T>
    decreases ops
  {
    if ops == [] then [] else DeliveredNow(c, ops[0]) + Delivered(After(c, ops[0]), ops[1..])
  }

  /** Nothing taken in is lost, duplicated or reordered, and the bound is kept. */
  lemma {:induction false} FifoConserves<T>(c: seq<T>, ops: seq<Op<T>>)
    requires |c| <= QUEUE_SIZE
    ensures c + Taken(c, ops) == Delivered(c, ops) + Final(c, ops)
    ensures |Final(c, ops)| <= QUEUE_SIZE
    decreases ops
  {
    if ops != [] {
      var d := After(c, ops[0]);
      FifoConserves(d, ops[1..]);
      assert c + TakenNow(c, ops[0]) == DeliveredNow(c, ops[0]) + d;
      Reassociate(c, TakenNow(c, ops[0]), Taken(d, ops[1..]), DeliveredNow(c, ops[0]), d,
                  Delivered(d, ops[1..]), Final(c, ops));
    }
  }

  /** As many requests as there are frames deliver them all, in order, and leave nothing. */
  lemma {:induction false} DrainsAll<T>(c: seq<T>, ops: seq<Op<T>>)
    requires |ops| == |c| && forall i :: 0 <= i < |ops| ==> ops[i].Get?
    ensures Delivered(c, ops) == c && Final(c, ops) == []
    decreases ops
  {
    if ops != [] {
      DrainsAll(c[1..], ops[1..]);
      assert c == [c[0]] + c[1..];
    }
  }

  lemma OneOp<T>(c: seq<T>, ops: seq<Op<T>>, k: nat, before: seq<T>)
    requires k < |ops|
    ensures Final(c, ops[k..]) == Final(After(c, ops[k]), ops[k + 1..])
    ensures before + Delivered(c, ops[k..]) ==
            (before + DeliveredNow(c, ops[k])) + Delivered(After(c, ops[k]), ops[k + 1..])
  {
    assert ops[k..][0] == ops[k] && ops[k..][1..] == ops[k + 1..];
  }

  // ---------------------------------------------------------------- the driver's code

  /** No frame is offered twice. */
  ghost predicate Distinct(ops: seq<Op<Skb>>) {
    forall i, j :: 0 <= i < j < |ops| && ops[i].Put? && ops[j].Put? ==> ops[i].x != ops[j].x
  }

  /** The array index `k` places behind `front`. */
  function At(front: nat, k: nat): (i: nat)
    requires front < QUEUE_SIZE && k <= QUEUE_SIZE
    ensures i == (front + k) % QUEUE_SIZE
  {
    if front + k < QUEUE_SIZE then front + k else front + k - QUEUE_SIZE
  }

  class Common {
    const queue: array<Skb?>
    var front: int
    var rear: int
    ghost var contents: seq<Skb>

    /** Indices and slots represent `contents`, across the wrap-around and the -1 empty marker. */
    ghost predicate Represents()
      reads this, queue
    {
      && queue.Length == QUEUE_SIZE && |contents| <= QUEUE_SIZE
      && (forall i, j :: 0 <= i < j < |contents| ==> contents[i] != contents[j])
      && (contents == [] ==> front == -1 && rear == -1)
      && (contents != [] ==>
            && 0 <= front < QUEUE_SIZE
            && rear == At(front, |contents| - 1)
            && forall k :: 0 <= k < |contents| ==> queue[At(front, k)] == contents[k])
    }

    /** No queued frame has been freed. */
    ghost predicate Live()
      reads this, contents
    {
      forall k :: 0 <= k < |contents| ==> !contents[k].freed
    }

    ghost predicate Valid()
      reads this, queue, contents
    {
      Represents() && Live()
    }

    constructor ()
      ensures Valid() && contents == [] && fresh(queue)
    {
      queue := new Skb?[QUEUE_SIZE](_ => null);
      front, rear := -1, -1;
      contents := [];
    }

    /** rsi_enqueue: a full ring drops, and frees, the new frame. */
    method Enqueue(skb: Skb)
      requires Valid() && !skb.freed && skb !in contents
      modifies this, queue, skb`freed
      ensures Valid() && contents == Pushed(old(contents), skb)
      ensures skb.freed <==> |old(contents)| == QUEUE_SIZE
    {
      if front == (rear + 1) % QUEUE_SIZE {
        skb.freed := true;
      } else {
        if front == -1 {
          front := 0;
          rear := 0;
        } else {
          rear := rear + 1;
          rear := rear % QUEUE_SIZE;
        }
        assert rear == At(front, |contents|);
        queue[rear] := skb;
        contents := contents + [skb];
      }
    }

    /** The first half of rsi_dequeue: the head leaves the ring. */
    method TakeHead() returns (skb: Skb)
      requires Valid() && contents != []
      modifies this
      ensures Valid() && skb == old(contents)[0] && contents == old(contents)[1..]
    {
      assert queue[At(front, 0)] == contents[0];
      skb := queue[front];
      ghost var before, first: nat := contents, front;
      if front == rear {
        front := -1;
        rear := -1;
      } else {
        front := front + 1;
        front := front % QUEUE_SIZE;
        assert forall k :: 0 <= k < |before| - 1 ==> At(front, k) == At(first, k + 1);
      }
      contents := contents[1..];
    }

    /** rsi_dequeue. A request for a whole frame takes it from the ring. A shorter request hands
      * out a copy, or null if copying fails, and in both cases frees a frame that stays queued. */
    method Dequeue(deqLen: nat, copyOk: bool) returns (skb: Skb?)
      requires Valid()
      modifies this, contents
      ensures skb == null <==> old(contents) == [] || (deqLen < old(|contents[0].data|) && !copyOk)
      ensures Represents()
      ensures old(contents) == [] ==> contents == []
      ensures old(contents) != [] && deqLen >= old(|contents[0].data|) ==>
                skb == old(contents)[0] && contents == old(contents)[1..] && Valid()
      ensures old(contents) != [] && deqLen < old(|contents[0].data|) ==>
                && (skb != null ==> fresh(skb) && skb.data == old(contents[0].data))
                && contents == old(contents) && contents[0].freed
                && contents[0].data == old(contents[0].data)[deqLen..]
      ensures Live() <==> old(contents) == [] || deqLen >= old(|contents[0].data|)
      ensures forall x :: x in old(contents) && deqLen >= old(|contents[0].data|) ==> unchanged(x)
    {
      if front == -1 {
        return null;
      }
      var head := queue[front];
      assert queue[At(front, 0)] == contents[0];
      if deqLen >= |head.data| {
        skb := TakeHead();
      } else {
        skb := null;
        if copyOk {
          skb := new Skb(head.data);
        }
        head.data := head.data[deqLen..];
        head.freed := true;
      }
    }

    /** One frame offered, or one whole frame requested. */
    method Serve(op: Op<Skb>) returns (out: seq<Skb>)
      requires Valid() && (op.Put? ==> !op.x.freed && op.x !in contents)
      modifies this, queue, if op.Put? then {op.x} else {}
      ensures Valid() && contents == After(old(contents), op) && out == DeliveredNow(old(contents), op)
      ensures forall x :: x in contents ==> x in old(contents) || (op.Put? && x == op.x)
    {
      out := [];
      match op
      case Put(x) =>
        Enqueue(x);
      case Get =>
        if front != -1 {
          var skb := TakeHead();
          out := [skb];
        }
    }

    /** Frames offered from the operation `k` on are live and not in the ring. */
    ghost predicate Offers(ops: seq<Op<Skb>>, k: nat)
      reads this, set i | 0 <= i < |ops| && ops[i].Put? :: ops[i].x
    {
      forall i :: k <= i < |ops| && ops[i].Put? ==> !ops[i].x.freed && ops[i].x !in contents
    }

    /** Operation `k` of the sequence. */
    method ServeNext(ops: seq<Op<Skb>>, k: nat) returns (out: seq<Skb>)
      requires Valid() && Offers(ops, k) && Distinct(ops) && k < |ops|
      modifies this, queue, set i | 0 <= i < |ops| && ops[i].Put? :: ops[i].x
      ensures Valid() && Offers(ops, k + 1)
      ensures contents == After(old(contents), ops[k]) && out == DeliveredNow(old(contents), ops[k])
    {
      out := Serve(ops[k]);
    }

    /** Any sequence of frames offered and whole frames requested: the ring behaves as the bounded
      * FIFO, which conserves what it took in. */
    method Perform(ops: seq<Op<Skb>>) returns (delivered: seq<Skb>)
      requires Valid() && Offers(ops, 0) && Distinct(ops)
      modifies this, queue, set i | 0 <= i < |ops| && ops[i].Put? :: ops[i].x
      ensures Valid()
      ensures contents == Final(old(contents), ops) && delivered == Delivered(old(contents), ops)
    {
      delivered := [];
      ghost var start := contents;
      for k := 0 to |ops|
        invariant Valid() && Offers(ops, k)
        invariant Final(start, ops) == Final(contents, ops[k..])
        invariant Delivered(start, ops) == delivered + Delivered(contents, ops[k..])
      {
        OneOp(contents, ops, k, delivered);
        var out := ServeNext(ops, k);
        delivered := delivered + out;
      }
      assert ops[|ops|..] == [];
    }

    /** is_queue_empty */
    method IsQueueEmpty() returns (empty: bool)
      requires Valid()
      ensures empty <==> contents == []
    {
      empty := front == -1;
    }
  }
}
