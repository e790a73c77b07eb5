/** The ring of recent messages of one pubsub topic, and the bounded queue it stands for. */
module PubsubRing {
  import opened Options

  datatype Message = Message(from: string, seqno: string, data: seq<bv8>, receivedAt: int)

  // ----- the queue

  /** At most `max` messages are kept, oldest first; the oldest is dropped on overflow. */
  function Delivered(q: seq<Message>, m: Message, max: nat): seq<Message>
    requires max >= 1
  {
    if |q| < max then q + [m] else q[|q| - max + 1..] + [m]
  }

  function Younger(q: seq<Message>, cutoff: int): seq<Message> {
    if q == [] then []
    else
      var last := q[|q| - 1];
      Younger(q[..|q| - 1], cutoff) + (if last.receivedAt > cutoff then [last] else [])
  }

  lemma {:induction false} YoungerShorter(q: seq<Message>, cutoff: int)
    ensures |Younger(q, cutoff)| <= |q|
  {
    if q != [] { YoungerShorter(q[..|q| - 1], cutoff); }
  }

  /** A delivery keeps the last `max` of the messages, the new one behind the others. */
  lemma DeliveredExactly(q: seq<Message>, m: Message, max: nat)
    requires max >= 1
    ensures var all, r := q + [m], Delivered(q, m, max);
            |r| == (if |all| < max then |all| else max) && r == all[|all| - |r|..]
  {
  }

  /** A cleanup keeps what came after the cutoff, in order. */
  lemma {:induction false} YoungerExactly(a: seq<Message>, b: seq<Message>, cutoff: int)
    ensures Younger(a + b, cutoff) == Younger(a, cutoff) + Younger(b, cutoff)
    ensures |b| == 1 ==> Younger(b, cutoff) == if b[0].receivedAt > cutoff then b else []
  {
    if b == [] {
      assert a + b == a;
    } else {
      assert (a + b)[..|a + b| - 1] == a + b[..|b| - 1];
      YoungerExactly(a, b[..|b| - 1], cutoff);
      assert |b| == 1 ==> [] + b == b;
    }
  }

  // ----- the ring

  function Wrap(x: nat, max: nat): nat { if x < max then x else x - max }

  lemma WrapIsMod(x: nat, max: nat)
    requires max >= 1 && x < 2 * max
    ensures x % max == Wrap(x, max)
  {
    if x >= max {
      assert x == 1 * max + (x - max);
    }
  }

  function Next(head: nat, max: nat): (r: nat)
    requires head < max
    ensures r == Wrap(head + 1, max)
  {
    WrapIsMod(head + 1, max);
    (head + 1) % max
  }

  /** Reading starts at the write position only when the ring is full. */
  function Start(head: nat, count: nat, max: nat): nat { if count < max then 0 else head }

  function Slot(head: nat, count: nat, max: nat, i: nat): nat { Wrap(Start(head, count, max) + i, max) }

  /** The ring is as long as its capacity, and a ring not yet full is written from the front. */
  ghost predicate Shaped(ring: seq<Option<Message>>, head: nat, count: nat, max: nat) {
    max >= 1 && |ring| == max && head < max && count <= max && (count < max ==> head == count)
    && forall i :: 0 <= i < count ==> ring[Slot(head, count, max, i)].Some?
  }

  /** The messages in the ring, oldest first. */
  ghost function Contents(ring: seq<Option<Message>>, head: nat, count: nat, max: nat): seq<Message>
    requires Shaped(ring, head, count, max)
  {
    seq(count, i requires 0 <= i < count => ring[Slot(head, count, max, i)].value)
  }

  /** The ring holds `q`, read entry by entry. */
  lemma Reads(ring: seq<Option<Message>>, head: nat, count: nat, max: nat, q: seq<Message>)
    requires max >= 1 && |ring| == max && head < max && count <= max && (count < max ==> head == count) && |q| == count
    requires forall i :: 0 <= i < count ==> ring[Slot(head, count, max, i)] == Some(q[i])
    ensures Shaped(ring, head, count, max) && Contents(ring, head, count, max) == q
  {
    assert forall i :: 0 <= i < count ==> Contents(ring, head, count, max)[i] == q[i];
  }

  /** Writing at the head and moving it on is a delivery to the queue. */
  lemma WriteDelivers(ring: seq<Option<Message>>, head: nat, count: nat, max: nat, m: Message)
    requires Shaped(ring, head, count, max)
    ensures var ring', head' := ring[head := Some(m)], Wrap(head + 1, max);
            var count' := if count < max then count + 1 else count;
            Shaped(ring', head', count', max)
            && Contents(ring', head', count', max) == Delivered(Contents(ring, head, count, max), m, max)
  {
    var ring', head', count' := ring[head := Some(m)], Wrap(head + 1, max), if count < max then count + 1 else count;
    var q := Contents(ring, head, count, max);
    var q' := Delivered(q, m, max);
    forall i | 0 <= i < count' ensures ring'[Slot(head', count', max, i)] == Some(q'[i]) {
      if i < count' - 1 {
        var k := if count < max then i else i + 1;
        assert ring[Slot(head, count, max, k)].Some? && q'[i] == q[k];
      }
    }
    Reads(ring', head', count', max, q');
  }

  /** What was compacted to the front is read back from the front. */
  lemma CompactHolds(ring: seq<Option<Message>>, max: nat, q: seq<Message>)
    requires |q| <= max && max >= 1 && |ring| == max
    requires forall i :: 0 <= i < |q| ==> ring[i] == Some(q[i])
    ensures Shaped(ring, Wrap(|q|, max), |q|, max) && Contents(ring, Wrap(|q|, max), |q|, max) == q
  {
    Reads(ring, Wrap(|q|, max), |q|, max, q);
  }

  class Topic {
    const max: nat
    const recentMessages: array<Option<Message>>
    var ringHead: nat
    var ringCount: nat

    ghost predicate Valid()
      reads this, recentMessages
    {
      Shaped(recentMessages[..], ringHead, ringCount, max)
    }

    ghost function Queue(): seq<Message>
      requires Valid()
      reads this, recentMessages
    {
      Contents(recentMessages[..], ringHead, ringCount, max)
    }

    constructor (max: nat)
      requires max >= 1
      ensures Valid() && this.max == max && fresh(recentMessages) && Queue() == []
    {
      this.max := max;
      recentMessages := new Option<Message>[max](_ => None);
      ringHead, ringCount := 0, 0;
    }

    method Deliver(m: Message)
      requires Valid()
      modifies this, recentMessages
      ensures Valid() && Queue() == Delivered(old(Queue()), m, max)
    {
      ghost var ring := recentMessages[..];
      WriteDelivers(ring, ringHead, ringCount, max, m);
      recentMessages[ringHead] := Some(m);
      assert recentMessages[..] == ring[ringHead := Some(m)];
      ringHead := Next(ringHead, max);
      if ringCount < max { ringCount := ringCount + 1; }
    }

    method At(i: nat) returns (m: Option<Message>)
      requires Valid() && i < ringCount
      ensures m == Some(Queue()[i])
    {
      var start := if ringCount < max then 0 else ringHead;
      WrapIsMod(start + i, max);
      m := recentMessages[(start + i) % max];
    }

    method GetRecentMessages() returns (result: seq<Message>)
      requires Valid()
      ensures result == Queue()
    {
      if ringCount == 0 { return []; }
      result := [];
      for i := 0 to ringCount
        invariant result == Queue()[..i]
      {
        var m := At(i);
        if m.Some? { result := result + [m.value]; }
      }
    }

    method Surviving(cutoff: int) returns (surviving: seq<Message>)
      requires Valid()
      ensures surviving == Younger(Queue(), cutoff)
    {
      surviving := [];
      for i := 0 to ringCount
        invariant surviving == Younger(Queue()[..i], cutoff)
      {
        var m := At(i);
        assert Queue()[..i + 1][..i] == Queue()[..i];
        if m.Some? && m.value.receivedAt > cutoff { surviving := surviving + [m.value]; }
      }
      assert Queue()[..ringCount] == Queue();
    }

    /** Compacts what is younger than the cutoff to the front of the array. */
    method Cleanup(cutoff: int)
      requires Valid()
      modifies this, recentMessages
      ensures Valid() && Queue() == Younger(old(Queue()), cutoff)
    {
      var surviving := Surviving(cutoff);
      YoungerShorter(Queue(), cutoff);
      Refill(surviving);
      CompactHolds(recentMessages[..], max, surviving);
      WrapIsMod(|surviving|, max);
      ringHead := |surviving| % max;
      ringCount := |surviving|;
    }

    method Refill(surviving: seq<Message>)
      requires |surviving| <= max == recentMessages.Length
      modifies recentMessages
      ensures forall i :: 0 <= i < max ==> recentMessages[i] == if i < |surviving| then Some(surviving[i]) else None
    {
      for i := 0 to max
        invariant forall j :: 0 <= j < i ==> recentMessages[j] == if j < |surviving| then Some(surviving[j]) else None
      {
        recentMessages[i] := if i < |surviving| then Some(surviving[i]) else None;
      }
    }
  }

  // ----- any run of deliveries and cleanups

  datatype Action = DeliverMsg(m: Message) | CleanupAt(cutoff: int)

  function RunQueue(actions: seq<Action>, max: nat): seq<Message>
    requires max >= 1
  {
    if actions == [] then []
    else
      var q := RunQueue(actions[..|actions| - 1], max);
      match actions[|actions| - 1]
      case DeliverMsg(m) => Delivered(q, m, max)
      case CleanupAt(cutoff) => Younger(q, cutoff)
  }

  ghost predicate OnlyDeliveries(actions: seq<Action>) { forall i :: 0 <= i < |actions| ==> actions[i].DeliverMsg? }

  ghost function Messages(actions: seq<Action>): seq<Message>
    requires OnlyDeliveries(actions)
  {
    seq(|actions|, i requires 0 <= i < |actions| => actions[i].m)
  }

  /** After deliveries alone the queue is the last `max` of them. */
  lemma {:induction false} QueueIsSuffix(actions: seq<Action>, max: nat)
    requires max >= 1 && OnlyDeliveries(actions)
    ensures var n := |actions|;
            RunQueue(actions, max) == Messages(actions)[if n < max then 0 else n - max..]
  {
    if actions != [] {
      var init, last := actions[..|actions| - 1], actions[|actions| - 1];
      QueueIsSuffix(init, max);
      assert Messages(actions) == Messages(init) + [last.m];
      DeliveredExactly(RunQueue(init, max), last.m, max);
    }
  }

  /** Drives a topic through a run of actions; what it then reports is what the bounded queue holds. */
  method Drive(actions: seq<Action>, max: nat) returns (recent: seq<Message>)
    requires max >= 1
    ensures recent == RunQueue(actions, max)
  {
    var topic := new Topic(max);
    for i := 0 to |actions|
      invariant topic.Valid() && topic.max == max && fresh(topic) && fresh(topic.recentMessages)
      invariant topic.Queue() == RunQueue(actions[..i], max)
    {
      assert actions[..i + 1][..i] == actions[..i];
      match actions[i] {
        case DeliverMsg(m) => topic.Deliver(m);
        case CleanupAt(cutoff) => topic.Cleanup(cutoff);
      }
    }
    assert actions[..|actions|] == actions;
    recent := topic.GetRecentMessages();
  }
}
