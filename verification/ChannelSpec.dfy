/**
 What a bounded channel promises, without ring buffers or linked waiter lists.

 A channel is described by its HISTORY alone: the sends and the receives it has accepted so far,
 in order.  Everything else (what is buffered, who is parked, what the next call answers) is a
 function of that history.  `Fifo` gives the usual operational picture of the same channel, and
 the lemmas show that the two agree on every run.
 */
module ChannelSpec {
  import opened Wrappers
  import opened Words

  datatype SendRecord = SendRecord(slot: nat, task: nat, value: int, resumeBlock: nat)
  datatype ReceiveRecord = ReceiveRecord(slot: nat, task: nat, destination: nat, resumeBlock: nat)

  datatype History = History(capacity: nat, sends: seq<SendRecord>, receives: seq<ReceiveRecord>)

  datatype SendResult =
    | Complete
    | WakeReceiver(task: nat, destination: nat, resumeBlock: nat)
    | SendSuspend

  datatype ReceiveResult =
    | Value(value: int, wakeSender: Option<(nat, nat)>)
    | ReceiveSuspend

  /** The number of values that have reached a receiver. */
  function Delivered(h: History): nat {
    Min(|h.sends|, |h.receives|)
  }

  /** Send tickets below this one have completed; the others are parked. */
  function FirstParkedSend(h: History): nat {
    Min(|h.sends|, |h.receives| + h.capacity)
  }

  function Buffered(h: History): nat {
    FirstParkedSend(h) - Delivered(h)
  }

  function ParkedSenders(h: History): seq<SendRecord> {
    h.sends[FirstParkedSend(h)..]
  }

  function ParkedReceivers(h: History): seq<ReceiveRecord> {
    h.receives[Delivered(h)..]
  }

  function BufferedValues(h: History): seq<int> {
    seq(Buffered(h), i requires 0 <= i < Buffered(h) => h.sends[Delivered(h) + i].value)
  }

  function AcceptSend(h: History, r: SendRecord): History {
    h.(sends := h.sends + [r])
  }

  function AcceptReceive(h: History, r: ReceiveRecord): History {
    h.(receives := h.receives + [r])
  }

  /** What the next accepted send answers. */
  function SendAnswer(h: History): SendResult {
    if |h.sends| < |h.receives| then
      var w := h.receives[|h.sends|];
      WakeReceiver(w.task, w.destination, w.resumeBlock)
    else if |h.sends| < |h.receives| + h.capacity then
      Complete
    else
      SendSuspend
  }

  /** What the next accepted receive answers. */
  function ReceiveAnswer(h: History): ReceiveResult {
    if |h.receives| < |h.sends| then
      var woken := |h.receives| + h.capacity;
      Value(h.sends[|h.receives|].value,
            if woken < |h.sends| then Some((h.sends[woken].task, h.sends[woken].resumeBlock)) else None)
    else
      ReceiveSuspend
  }

  /** The operational picture: a queue of values, a queue of senders, a queue of receivers. */
  datatype Fifo = Fifo(capacity: nat, values: seq<int>, senders: seq<SendRecord>, receivers: seq<ReceiveRecord>)

  function FifoOf(h: History): Fifo {
    Fifo(h.capacity, BufferedValues(h), ParkedSenders(h), ParkedReceivers(h))
  }

  function FifoSend(q: Fifo, r: SendRecord): (Fifo, SendResult) {
    if q.receivers != [] then
      var w := q.receivers[0];
      (q.(receivers := q.receivers[1..]), WakeReceiver(w.task, w.destination, w.resumeBlock))
    else if |q.values| < q.capacity then
      (q.(values := q.values + [r.value]), Complete)
    else
      (q.(senders := q.senders + [r]), SendSuspend)
  }

  function FifoReceive(q: Fifo, r: ReceiveRecord): (Fifo, ReceiveResult) {
    if q.values != [] then
      if q.senders != [] then
        var w := q.senders[0];
        (q.(values := q.values[1..] + [w.value], senders := q.senders[1..]),
         Value(q.values[0], Some((w.task, w.resumeBlock))))
      else
        (q.(values := q.values[1..]), Value(q.values[0], None))
    else
      (q.(receivers := q.receivers + [r]), ReceiveSuspend)
  }

  /** The history form and the queue form make the same step and give the same answer. */
  lemma {:induction false} HistoryRefinesFifoOnSend(h: History, r: SendRecord)
    requires h.capacity > 0
    ensures FifoSend(FifoOf(h), r) == (FifoOf(AcceptSend(h, r)), SendAnswer(h))
  {
    var h' := AcceptSend(h, r);
    assert |h'.sends| == |h.sends| + 1;
    if |h.sends| < |h.receives| {
      assert ParkedReceivers(h') == ParkedReceivers(h)[1..];
      assert BufferedValues(h') == BufferedValues(h) == [];
      assert ParkedSenders(h') == ParkedSenders(h) == [];
    } else if |h.sends| < |h.receives| + h.capacity {
      assert BufferedValues(h') == BufferedValues(h) + [r.value];
      assert ParkedSenders(h') == ParkedSenders(h) == [];
      assert ParkedReceivers(h') == ParkedReceivers(h) == [];
    } else {
      assert BufferedValues(h') == BufferedValues(h);
      assert ParkedSenders(h') == ParkedSenders(h) + [r];
      assert ParkedReceivers(h') == ParkedReceivers(h) == [];
    }
  }

  lemma {:induction false} HistoryRefinesFifoOnReceive(h: History, r: ReceiveRecord)
    requires h.capacity > 0
    ensures FifoReceive(FifoOf(h), r) == (FifoOf(AcceptReceive(h, r)), ReceiveAnswer(h))
  {
    var h' := AcceptReceive(h, r);
    if |h.receives| < |h.sends| {
      var woken := |h.receives| + h.capacity;
      assert BufferedValues(h)[0] == h.sends[|h.receives|].value;
      if woken < |h.sends| {
        assert ParkedSenders(h) == [h.sends[woken]] + ParkedSenders(h');
        assert BufferedValues(h') == BufferedValues(h)[1..] + [h.sends[woken].value];
      } else {
        assert ParkedSenders(h') == ParkedSenders(h) == [];
        assert BufferedValues(h') == BufferedValues(h)[1..];
      }
      assert ParkedReceivers(h') == ParkedReceivers(h) == [];
    } else {
      assert BufferedValues(h') == BufferedValues(h) == [];
      assert ParkedReceivers(h') == ParkedReceivers(h) + [r];
      assert ParkedSenders(h') == ParkedSenders(h) == [];
    }
  }

  /** The waiting rules and the balance of accepted calls, in every history. */
  lemma {:induction false} WaitingRules(h: History)
    requires h.capacity > 0
    ensures ParkedReceivers(h) != [] ==> BufferedValues(h) == [] && ParkedSenders(h) == []
    ensures ParkedSenders(h) != [] ==> |BufferedValues(h)| == h.capacity
    ensures |BufferedValues(h)| <= h.capacity
    ensures |h.sends| - |h.receives| == |BufferedValues(h)| + |ParkedSenders(h)| - |ParkedReceivers(h)|
  {
  }

  /** An answer that wakes a task names the one that has been parked longest, and where it goes on. */
  lemma {:induction false} AnswersNameTheOldest(h: History)
    requires h.capacity > 0
    ensures ParkedReceivers(h) != [] ==>
              var w := ParkedReceivers(h)[0]; SendAnswer(h) == WakeReceiver(w.task, w.destination, w.resumeBlock)
    ensures ParkedSenders(h) != [] ==>
              var w := ParkedSenders(h)[0];
              ReceiveAnswer(h).Value? && ReceiveAnswer(h).wakeSender == Some((w.task, w.resumeBlock))
    ensures BufferedValues(h) != [] ==> ReceiveAnswer(h).Value? && ReceiveAnswer(h).value == BufferedValues(h)[0]
  {
  }

  // ---- whole runs of one channel ----

  datatype Call = CallSend(send: SendRecord) | CallReceive(receive: ReceiveRecord)

  function After(capacity: nat, calls: seq<Call>): (h: History)
    ensures h.capacity == capacity
    decreases |calls|
  {
    if calls == [] then History(capacity, [], []) else
    var h := After(capacity, calls[..|calls| - 1]);
    match calls[|calls| - 1]
    case CallSend(r) => AcceptSend(h, r)
    case CallReceive(r) => AcceptReceive(h, r)
  }

  /** A delivery names the receive it completes by task and destination, and carries the value. */
  datatype Delivery = Delivery(task: nat, destination: nat, value: int)

  /** The deliveries a run makes, read off the answers one by one, in the order they happen. */
  function Deliveries(capacity: nat, calls: seq<Call>): seq<Delivery>
    decreases |calls|
  {
    if calls == [] then [] else
    var h := After(capacity, calls[..|calls| - 1]);
    Deliveries(capacity, calls[..|calls| - 1]) +
    match calls[|calls| - 1]
    case CallSend(r) =>
      (match SendAnswer(h)
       case WakeReceiver(task, destination, _) => [Delivery(task, destination, r.value)]
       case _ => [])
    case CallReceive(r) =>
      (match ReceiveAnswer(h)
       case Value(value, _) => [Delivery(r.task, r.destination, value)]
       case ReceiveSuspend => [])
  }

  /** The tasks whose send has completed, read off the answers in the order they happen. */
  function CompletedSends(capacity: nat, calls: seq<Call>): seq<nat>
    decreases |calls|
  {
    if calls == [] then [] else
    var h := After(capacity, calls[..|calls| - 1]);
    CompletedSends(capacity, calls[..|calls| - 1]) +
    match calls[|calls| - 1]
    case CallSend(r) => if SendAnswer(h) == SendSuspend then [] else [r.task]
    case CallReceive(_) =>
      (match ReceiveAnswer(h)
       case Value(_, Some((task, _))) => [task]
       case _ => [])
  }

  /**
   On every run the k-th accepted receive gets the value of the k-th accepted send, in order, and
   deliveries happen as soon as both halves of a pair have been accepted.
   */
  lemma {:induction false} DeliveriesAreFifo(capacity: nat, calls: seq<Call>)
    requires capacity > 0
    ensures var h := After(capacity, calls);
            && |Deliveries(capacity, calls)| == Delivered(h)
            && forall k | 0 <= k < Delivered(h) ::
                 Deliveries(capacity, calls)[k]
                 == Delivery(h.receives[k].task, h.receives[k].destination, h.sends[k].value)
    decreases |calls|
  {
    if calls != [] {
      DeliveriesAreFifo(capacity, calls[..|calls| - 1]);
    }
  }

  /**
   On every run sends complete in the order they were accepted, and the k-th send has completed
   exactly when fewer than `capacity` values separate it from the receives: k < receives + capacity.
   */
  lemma {:induction false} SendsCompleteInOrder(capacity: nat, calls: seq<Call>)
    requires capacity > 0
    ensures var h := After(capacity, calls);
            && |CompletedSends(capacity, calls)| == Min(|h.sends|, |h.receives| + capacity)
            && forall k | 0 <= k < |CompletedSends(capacity, calls)| ::
                 CompletedSends(capacity, calls)[k] == h.sends[k].task
    decreases |calls|
  {
    if calls != [] {
      SendsCompleteInOrder(capacity, calls[..|calls| - 1]);
    }
  }
}
