/**
  * The retention queue of the snapshot engine (`mod queue` of the snapshot module): a FIFO of
  * snapshot names that, unless it is told never to pop, gives back its oldest name when a new
  * one arrives while it holds exactly `maxlen` names.
  */
module SnapQueue {
  import opened Wrappers

  /** `is_overflow`: the queue holds exactly `maxlen` names (equality, not "at least"). */
  predicate Overflowing(items: seq<string>, maxlen: nat) {
    |items| == maxlen
  }

  /** `pop`: the front name is taken off, or nothing happens to an empty queue. */
  function PopFront(items: seq<string>): (r: (seq<string>, Option<string>))
    ensures items == [] ==> r == ([], None)
    ensures items != [] ==> r.1 == Some(items[0]) && [items[0]] + r.0 == items
  {
    if items == [] then ([], None) else (items[1..], Some(items[0]))
  }

  /** The queue after one `add`, and what that `add` returned. */
  datatype AddStep = AddStep(items: seq<string>, evicted: Option<string>)

  /** `add` on the queue's contents, with its configuration `maxlen` and `dontpop`. */
  function Added(items: seq<string>, maxlen: nat, dontpop: bool, item: string): (r: AddStep)
    // a name is given back exactly when popping is on and the queue is full and not empty
    ensures r.evicted.Some? <==> !dontpop && |items| == maxlen > 0
    // the new name always goes at the back, behind what was kept
    ensures r.items == (if r.evicted.Some? then items[1..] else items) + [item]
    // and that name is the oldest one
    ensures r.evicted.Some? ==> r.evicted.value == items[0]
    // a bounded queue within its capacity stays within it
    ensures !dontpop && 0 < maxlen && |items| <= maxlen ==> |r.items| <= maxlen
  {
    if dontpop then
      AddStep(items + [item], None)
    else
      var (kept, x) := if Overflowing(items, maxlen) then PopFront(items) else (items, None);
      AddStep(kept + [item], x)
  }

  /** The queue after a run of `add` calls, and what each call returned, in order. */
  datatype Run = Run(items: seq<string>, evicted: seq<Option<string>>)

  function AddAll(items: seq<string>, maxlen: nat, dontpop: bool, xs: seq<string>): (r: Run)
    ensures |r.evicted| == |xs|
    decreases |xs|
  {
    if xs == [] then
      Run(items, [])
    else
      var step := Added(items, maxlen, dontpop, xs[0]);
      var rest := AddAll(step.items, maxlen, dontpop, xs[1..]);
      Run(rest.items, [step.evicted] + rest.evicted)
  }

  /** Where the window of the last `maxlen` of `n` names starts. */
  function WindowStart(n: nat, maxlen: nat): nat {
    if n > maxlen then n - maxlen else 0
  }

  /**
    * FIFO eviction.  Starting from a bounded queue within its positive capacity, a run of adds
    * keeps the last `maxlen` names of everything seen, in order; the j-th add gives back nothing
    * while the queue is filling up, and afterwards the name that is exactly `maxlen` places older
    * than the one it adds.
    */
  lemma FifoWindow(items: seq<string>, maxlen: nat, xs: seq<string>)
    requires 0 < maxlen && |items| <= maxlen
    ensures var all, r := items + xs, AddAll(items, maxlen, false, xs);
      && r.items == all[WindowStart(|all|, maxlen)..]
      && |r.items| <= maxlen
      && forall j :: 0 <= j < |xs| ==>
           r.evicted[j] == if |items| + j < maxlen then None else Some(all[|items| + j - maxlen])
  {
    FifoContents(items, maxlen, xs);
    forall j | 0 <= j < |xs|
      ensures AddAll(items, maxlen, false, xs).evicted[j]
           == if |items| + j < maxlen then None else Some((items + xs)[|items| + j - maxlen])
    {
      FifoEvicted(items, maxlen, xs, j);
    }
  }

  /** The contents half of `FifoWindow`. */
  lemma {:induction false} FifoContents(items: seq<string>, maxlen: nat, xs: seq<string>)
    requires 0 < maxlen && |items| <= maxlen
    ensures var all := items + xs;
      AddAll(items, maxlen, false, xs).items == all[WindowStart(|all|, maxlen)..]
    decreases |xs|
  {
    if xs == [] {
      assert items + xs == items;
    } else {
      var step := Added(items, maxlen, false, xs[0]);
      FifoStep(items, maxlen, xs);
      FifoContents(step.items, maxlen, xs[1..]);
    }
  }

  /** The eviction half of `FifoWindow`, for the j-th add. */
  lemma {:induction false} FifoEvicted(items: seq<string>, maxlen: nat, xs: seq<string>, j: nat)
    requires 0 < maxlen && |items| <= maxlen && j < |xs|
    ensures AddAll(items, maxlen, false, xs).evicted[j]
         == if |items| + j < maxlen then None else Some((items + xs)[|items| + j - maxlen])
    decreases j
  {
    var step := Added(items, maxlen, false, xs[0]);
    FifoStep(items, maxlen, xs);
    if j > 0 {
      FifoEvicted(step.items, maxlen, xs[1..], j - 1);
    }
  }

  /** One bounded add, seen as a window sliding over everything added so far. */
  lemma FifoStep(items: seq<string>, maxlen: nat, xs: seq<string>)
    requires 0 < maxlen && |items| <= maxlen && xs != []
    ensures var step, drop := Added(items, maxlen, false, xs[0]), if |items| == maxlen then 1 else 0;
      && step.items + xs[1..] == (items + xs)[drop..]
      && |step.items| == |items| + 1 - drop
      && step.evicted == if |items| < maxlen then None else Some((items + xs)[0])
  {
  }

  /** With popping switched off, a run of adds keeps every name and gives back nothing. */
  lemma {:induction false} DontPopKeepsAll(items: seq<string>, maxlen: nat, xs: seq<string>)
    ensures var r := AddAll(items, maxlen, true, xs);
      && r.items == items + xs
      && forall j :: 0 <= j < |xs| ==> r.evicted[j] == None
    decreases |xs|
  {
    if xs != [] {
      DontPopKeepsAll(items + [xs[0]], maxlen, xs[1..]);
      assert items + [xs[0]] + xs[1..] == items + xs;
    }
  }

  /**
    * Because `is_overflow` tests equality, a bounded queue seeded with more than `maxlen` names
    * never gives a name back again: it grows with every add.
    */
  lemma {:induction false} OverfullNeverEvicts(items: seq<string>, maxlen: nat, xs: seq<string>)
    requires |items| > maxlen
    ensures var r := AddAll(items, maxlen, false, xs);
      && r.items == items + xs
      && forall j :: 0 <= j < |xs| ==> r.evicted[j] == None
    decreases |xs|
  {
    if xs != [] {
      OverfullNeverEvicts(items + [xs[0]], maxlen, xs[1..]);
      assert items + [xs[0]] + xs[1..] == items + xs;
    }
  }

  /**
    * With capacity zero and popping on, `pop` meets an empty queue: the first add gives back
    * nothing, and from then on the queue is overfull and grows without bound.
    */
  lemma ZeroCapacityGrows(item: string)
    ensures Added([], 0, false, item) == AddStep([item], None)
  {
  }

  /** The Rust test `test_queue` on the contents: capacity 4, `snap1` to `snap6`. */
  lemma BoundedScenario()
    ensures AddAll([], 4, false, ["snap1", "snap2", "snap3", "snap4", "snap5", "snap6"])
         == Run(["snap3", "snap4", "snap5", "snap6"],
                [None, None, None, None, Some("snap1"), Some("snap2")])
  {
    var xs := ["snap1", "snap2", "snap3", "snap4", "snap5", "snap6"];
    FifoWindow([], 4, xs);
    assert [] + xs == xs;
    assert xs[2..] == ["snap3", "snap4", "snap5", "snap6"];
  }

  /** The Rust test `test_queue_dontpop` on the contents: capacity hint 4, six adds, nothing given back. */
  lemma DontPopScenario()
    ensures AddAll([], 4, true, ["snap1", "snap2", "snap3", "snap4", "snap5", "snap6"])
         == Run(["snap1", "snap2", "snap3", "snap4", "snap5", "snap6"],
                [None, None, None, None, None, None])
  {
    var xs := ["snap1", "snap2", "snap3", "snap4", "snap5", "snap6"];
    DontPopKeepsAll([], 4, xs);
    assert [] + xs == xs;
  }

  /** `queue::Queue`: the names in insertion order, the capacity and the never-pop flag. */
  class Queue {
    var queue: seq<string>
    var maxlen: nat
    var dontpop: bool

    /** `Queue::new`: an empty queue with the given configuration. */
    constructor New(cfg: (nat, bool))
      ensures queue == [] && maxlen == cfg.0 && dontpop == cfg.1
    {
      queue, maxlen, dontpop := [], cfg.0, cfg.1;
    }

    /** `Queue::init_pre`: a queue seeded with names as given, neither checked nor trimmed. */
    constructor InitPre(cfg: (nat, bool), items: seq<string>)
      ensures queue == items && maxlen == cfg.0 && dontpop == cfg.1
    {
      queue, maxlen, dontpop := items, cfg.0, cfg.1;
    }

    /** The capacity invariant of a bounded queue. */
    predicate WithinCapacity()
      reads this
    {
      !dontpop ==> |queue| <= maxlen
    }

    /** `is_overflow`. */
    predicate IsOverflow()
      reads this
    {
      Overflowing(queue, maxlen)
    }

    /** `pop`: take the oldest name off the front, if there is one. */
    method Pop() returns (x: Option<string>)
      modifies this`queue
      ensures (queue, x) == PopFront(old(queue))
    {
      if queue == [] {
        x := None;
      } else {
        x := Some(queue[0]);
        queue := queue[1..];
      }
    }

    /**
      * `add`: append `item`; when popping is on and the queue is exactly full, first take off and
      * return the oldest name.  Only the contents change, never `maxlen` or `dontpop`.
      */
    method Add(item: string) returns (x: Option<string>)
      modifies this`queue
      ensures AddStep(queue, x) == Added(old(queue), maxlen, dontpop, item)
      ensures 0 < maxlen && old(WithinCapacity()) ==> WithinCapacity()
    {
      if dontpop {
        queue := queue + [item];
        x := None;
      } else {
        if IsOverflow() {
          x := Pop();
        } else {
          x := None;
        }
        queue := queue + [item];
      }
    }
  }

  /**
    * The Rust tests `test_queue` and `test_queue_dontpop` against the class: `BoundedScenario` and
    * `DontPopScenario` restated as calls of `Add` on fresh queues, returning what each add gave back.
    */
  method QueueTests() returns (bounded: seq<Option<string>>, unbounded: seq<Option<string>>, left: seq<string>)
    ensures bounded == [None, None, None, None, Some("snap1"), Some("snap2")]
    ensures unbounded == [None, None, None, None, None, None]
    ensures left == ["snap3", "snap4", "snap5", "snap6"]
  {
    var q := new Queue.New((4, false));
    var r1 := q.Add("snap1");
    var r2 := q.Add("snap2");
    var r3 := q.Add("snap3");
    var r4 := q.Add("snap4");
    assert r1 == r2 == r3 == r4 == None;
    assert q.queue == ["snap1", "snap2", "snap3", "snap4"];
    var r5 := q.Add("snap5");
    assert r5 == Some("snap1");
    assert q.queue == ["snap2", "snap3", "snap4", "snap5"];
    var r6 := q.Add("snap6");
    assert r6 == Some("snap2");
    bounded, left := [r1, r2, r3, r4, r5, r6], q.queue;

    var p := new Queue.New((4, true));
    var s1 := p.Add("snap1");
    var s2 := p.Add("snap2");
    var s3 := p.Add("snap3");
    var s4 := p.Add("snap4");
    var s5 := p.Add("snap5");
    var s6 := p.Add("snap6");
    assert s1 == s2 == s3 == s4 == s5 == s6 == None;
    unbounded := [s1, s2, s3, s4, s5, s6];
  }
}
