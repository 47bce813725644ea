/**
 The channel arena: bounded channels packed as ring buffers into one value array, with the send
 and receive queues of all channels threaded through one shared waiter array.

 `Represents` says what a packed arena stores.  Every operation is proved against the history
 form of `ChannelSpec`, so each channel behaves as an independent FIFO.
 */
module ChannelArena {
  import opened Wrappers
  import opened Words
  import opened ChannelSpec

  /** The absent link: the largest machine index, which is never a waiter slot. */
  const NONE: nat := 0xFFFF_FFFF_FFFF_FFFF
  /** The largest array length the platform can allocate. */
  const MAXIMUM_LENGTH: nat := 0x7FFF_FFFF_FFFF_FFFF

  datatype ChannelError = InvalidCapacity | InvalidHandle | NoCapacity | CorruptQueue

  datatype WaitKind =
    | NoWait
    | SendWait(value: int, resumeBlock: nat)
    | ReceiveWait(destination: nat, resumeBlock: nat)

  datatype Waiter = Waiter(task: Option<nat>, next: nat, kind: WaitKind)

  const EMPTY_WAITER := Waiter(None, NONE, NoWait)

  datatype Channel = Channel(
    valuesStart: nat, capacity: nat, head: nat, len: nat,
    sendHead: nat, sendTail: nat, receiveHead: nat, receiveTail: nat)

  const EMPTY_CHANNEL := Channel(0, 0, 0, 0, NONE, NONE, NONE, NONE)

  /** Where a waiter slot is queued: the channel and the ticket of the call parked in it. */
  datatype Place = Nowhere | SendPlace(channel: nat, ticket: nat) | ReceivePlace(channel: nat, ticket: nat)

  function Wrap(x: nat, capacity: nat): nat {
    if x < capacity then x else x - capacity
  }

  /** The position in the value array of the i-th value of a ring. */
  function RingIndex(start: nat, head: nat, capacity: nat, i: nat): nat {
    start + Wrap(head + i, capacity)
  }

  /** The remainder the code computes is the one-step wrap the ring needs. */
  method WrapIndex(x: nat, capacity: nat) returns (k: nat)
    requires x < 2 * capacity
    ensures k == Wrap(x, capacity)
  {
    k := x % capacity;
    if x >= capacity {
      assert x == 1 * capacity + (x - capacity);
    }
  }

  // ---- the representation ----

  datatype Store = Store(channels: seq<Channel>, values: seq<int>, waiters: seq<Waiter>, valueCount: nat)

  ghost predicate RingHolds(values: seq<int>, ch: Channel, h: History) {
    && ch.capacity == h.capacity > 0
    && ch.head < ch.capacity
    && ch.len == Buffered(h)
    && ch.valuesStart + ch.capacity <= |values|
    && forall i: nat | i < ch.len ::
         values[RingIndex(ch.valuesStart, ch.head, ch.capacity, i)] == h.sends[Delivered(h) + i].value
  }

  function SendLink(h: History, t: nat): nat
    requires t < |h.sends|
  {
    if t + 1 < |h.sends| then h.sends[t + 1].slot else NONE
  }

  function ReceiveLink(h: History, t: nat): nat
    requires t < |h.receives|
  {
    if t + 1 < |h.receives| then h.receives[t + 1].slot else NONE
  }

  /** Ticket `t` of channel `c` is parked in its own slot and linked to the next ticket. */
  ghost predicate SendParked(waiters: seq<Waiter>, place: seq<Place>, c: nat, h: History, t: nat)
    requires t < |h.sends|
  {
    var r := h.sends[t];
    && r.slot < |waiters| && r.slot < |place|
    && place[r.slot] == SendPlace(c, t)
    && waiters[r.slot] == Waiter(Some(r.task), SendLink(h, t), SendWait(r.value, r.resumeBlock))
  }

  ghost predicate ReceiveParked(waiters: seq<Waiter>, place: seq<Place>, c: nat, h: History, t: nat)
    requires t < |h.receives|
  {
    var r := h.receives[t];
    && r.slot < |waiters| && r.slot < |place|
    && place[r.slot] == ReceivePlace(c, t)
    && waiters[r.slot] == Waiter(Some(r.task), ReceiveLink(h, t), ReceiveWait(r.destination, r.resumeBlock))
  }

  /** The parked sends of channel `c` form one linked list, from the oldest ticket to the newest. */
  ghost predicate SendQueueHolds(waiters: seq<Waiter>, place: seq<Place>, c: nat, ch: Channel, h: History) {
    var first := FirstParkedSend(h);
    && (first == |h.sends| ==> ch.sendHead == NONE && ch.sendTail == NONE)
    && (first < |h.sends| ==> ch.sendHead == h.sends[first].slot && ch.sendTail == h.sends[|h.sends| - 1].slot)
    && forall t: nat | first <= t < |h.sends| :: SendParked(waiters, place, c, h, t)
  }

  ghost predicate ReceiveQueueHolds(waiters: seq<Waiter>, place: seq<Place>, c: nat, ch: Channel, h: History) {
    var first := Delivered(h);
    && (first == |h.receives| ==> ch.receiveHead == NONE && ch.receiveTail == NONE)
    && (first < |h.receives| ==>
          ch.receiveHead == h.receives[first].slot && ch.receiveTail == h.receives[|h.receives| - 1].slot)
    && forall t: nat | first <= t < |h.receives| :: ReceiveParked(waiters, place, c, h, t)
  }

  ghost predicate ChannelHolds(st: Store, place: seq<Place>, c: nat, h: History)
    requires c < |st.channels|
  {
    && RingHolds(st.values, st.channels[c], h)
    && SendQueueHolds(st.waiters, place, c, st.channels[c], h)
    && ReceiveQueueHolds(st.waiters, place, c, st.channels[c], h)
  }

  /** A slot is either empty or parked on exactly the ticket its place names. */
  ghost predicate SlotHolds(waiters: seq<Waiter>, place: seq<Place>, histories: seq<History>, s: nat)
    requires s < |place| == |waiters|
  {
    match place[s]
    case Nowhere => waiters[s] == EMPTY_WAITER
    case SendPlace(c, t) =>
      c < |histories| && FirstParkedSend(histories[c]) <= t < |histories[c].sends| && histories[c].sends[t].slot == s
    case ReceivePlace(c, t) =>
      c < |histories| && Delivered(histories[c]) <= t < |histories[c].receives| && histories[c].receives[t].slot == s
  }

  ghost predicate WindowsPacked(channels: seq<Channel>, count: nat, valueCount: nat)
    requires count <= |channels|
  {
    && (forall c | 0 <= c < count :: channels[c].valuesStart + channels[c].capacity <= valueCount)
    && (forall c, d | 0 <= c < d < count :: channels[c].valuesStart + channels[c].capacity <= channels[d].valuesStart)
  }

  /** What a packed arena stores: one history per created channel. */
  ghost predicate Represents(st: Store, histories: seq<History>, place: seq<Place>) {
    && |histories| <= |st.channels|
    && st.valueCount <= |st.values|
    && |place| == |st.waiters| <= MAXIMUM_LENGTH
    && WindowsPacked(st.channels, |histories|, st.valueCount)
    && (forall c: nat | c < |histories| :: ChannelHolds(st, place, c, histories[c]))
    && (forall s: nat | s < |place| :: SlotHolds(st.waiters, place, histories, s))
  }

  ghost predicate ParkedAt(histories: seq<History>, s: nat, c: nat, t: nat) {
    && c < |histories|
    && (|| (FirstParkedSend(histories[c]) <= t < |histories[c].sends| && histories[c].sends[t].slot == s)
        || (Delivered(histories[c]) <= t < |histories[c].receives| && histories[c].receives[t].slot == s))
  }

  /** Some channel has a call parked in slot `s`. */
  ghost predicate Parked(histories: seq<History>, s: nat) {
    exists c: nat, t: nat :: ParkedAt(histories, s, c, t)
  }

  lemma {:induction false} ParkedHasPlace(st: Store, histories: seq<History>, place: seq<Place>, s: nat, c: nat, t: nat)
    requires Represents(st, histories, place)
    requires ParkedAt(histories, s, c, t)
    ensures s < |place| && (place[s] == SendPlace(c, t) || place[s] == ReceivePlace(c, t))
    ensures st.waiters[s].task.Some?
  {
    var h := histories[c];
    assert ChannelHolds(st, place, c, h);
    if FirstParkedSend(h) <= t < |h.sends| && h.sends[t].slot == s {
      assert SendParked(st.waiters, place, c, h, t);
    } else {
      assert ReceiveParked(st.waiters, place, c, h, t);
    }
  }

  /**
   The queues of all channels are disjoint and cover exactly the occupied slots: a slot is
   occupied if and only if some call is parked in it, and no two parked calls share a slot.
   */
  lemma {:induction false} OccupiedIffParked(st: Store, histories: seq<History>, place: seq<Place>, s: nat)
    requires Represents(st, histories, place)
    requires s < |st.waiters|
    ensures st.waiters[s].task.Some? <==> Parked(histories, s)
    ensures st.waiters[s].task.Some? <==> place[s] != Nowhere
    ensures forall c: nat, t: nat, d: nat, u: nat ::
              ParkedAt(histories, s, c, t) && ParkedAt(histories, s, d, u) ==> c == d && t == u
  {
    forall c: nat, t: nat | ParkedAt(histories, s, c, t)
      ensures place[s] == SendPlace(c, t) || place[s] == ReceivePlace(c, t)
      ensures st.waiters[s].task.Some?
    {
      ParkedHasPlace(st, histories, place, s, c, t);
    }
    assert SlotHolds(st.waiters, place, histories, s);
    if place[s] != Nowhere {
      assert ParkedAt(histories, s, place[s].channel, place[s].ticket);
    }
  }

  /** A queue head is absent exactly when nobody is parked in that queue. */
  lemma {:induction false} HeadsTellParked(st: Store, histories: seq<History>, place: seq<Place>, c: nat)
    requires Represents(st, histories, place)
    requires c < |histories|
    ensures st.channels[c].receiveHead == NONE <==> ParkedReceivers(histories[c]) == []
    ensures st.channels[c].sendHead == NONE <==> ParkedSenders(histories[c]) == []
  {
    var h := histories[c];
    assert ChannelHolds(st, place, c, h);
    if Delivered(h) < |h.receives| {
      assert ReceiveParked(st.waiters, place, c, h, Delivered(h));
    }
    if FirstParkedSend(h) < |h.sends| {
      assert SendParked(st.waiters, place, c, h, FirstParkedSend(h));
    }
  }

  /** The head of the receive queue is the oldest parked receive, with its task and destination. */
  lemma {:induction false} HeadOfReceivers(st: Store, histories: seq<History>, place: seq<Place>, c: nat)
    requires Represents(st, histories, place)
    requires c < |histories| && ParkedReceivers(histories[c]) != []
    ensures var h := histories[c];
            var r := ParkedReceivers(h)[0];
            && st.channels[c].receiveHead == r.slot < |st.waiters|
            && st.waiters[r.slot] == Waiter(Some(r.task), ReceiveLink(h, |h.sends|), ReceiveWait(r.destination, r.resumeBlock))
  {
    assert ChannelHolds(st, place, c, histories[c]);
    assert ReceiveParked(st.waiters, place, c, histories[c], Delivered(histories[c]));
  }

  lemma {:induction false} HeadOfSenders(st: Store, histories: seq<History>, place: seq<Place>, c: nat)
    requires Represents(st, histories, place)
    requires c < |histories| && ParkedSenders(histories[c]) != []
    ensures var h := histories[c];
            var r := ParkedSenders(h)[0];
            && st.channels[c].sendHead == r.slot < |st.waiters|
            && st.waiters[r.slot] == Waiter(Some(r.task), SendLink(h, FirstParkedSend(h)), SendWait(r.value, r.resumeBlock))
  {
    assert ChannelHolds(st, place, c, histories[c]);
    assert SendParked(st.waiters, place, c, histories[c], FirstParkedSend(histories[c]));
  }

  /** The value under the ring's head is that of the oldest undelivered send. */
  lemma {:induction false} FrontOfRing(st: Store, histories: seq<History>, place: seq<Place>, c: nat)
    requires Represents(st, histories, place)
    requires c < |histories| && |histories[c].receives| < |histories[c].sends|
    ensures var ch := st.channels[c];
            && ch.head < ch.capacity == histories[c].capacity
            && ch.len == Buffered(histories[c]) > 0
            && ch.valuesStart + ch.capacity <= |st.values|
            && st.values[ch.valuesStart + ch.head] == histories[c].sends[|histories[c].receives|].value
  {
    var ch := st.channels[c];
    assert ChannelHolds(st, place, c, histories[c]);
    assert RingIndex(ch.valuesStart, ch.head, ch.capacity, 0) == ch.valuesStart + ch.head;
  }

  // ---- what each array update keeps ----

  predicate Foreign(p: Place, c: nat) {
    !p.Nowhere? && p.channel != c
  }

  /** `st'` differs from `st` only in channel `c`, in its value window and in slots no other channel uses. */
  ghost predicate OnlyTouches(st: Store, place: seq<Place>, st': Store, place': seq<Place>, c: nat)
    requires c < |st.channels|
  {
    && |st'.channels| == |st.channels|
    && (forall d | 0 <= d < |st.channels| && d != c :: st'.channels[d] == st.channels[d])
    && st'.channels[c].valuesStart == st.channels[c].valuesStart
    && st'.channels[c].capacity == st.channels[c].capacity
    && st'.valueCount == st.valueCount
    && |st'.values| == |st.values|
    && (forall k | 0 <= k < |st.values| && st'.values[k] != st.values[k] ::
          st.channels[c].valuesStart <= k < st.channels[c].valuesStart + st.channels[c].capacity)
    && |place'| == |place| == |st.waiters| == |st'.waiters|
    && (forall s | 0 <= s < |place| && Foreign(place[s], c) :: place'[s] == place[s] && st'.waiters[s] == st.waiters[s])
  }

  /** One channel never disturbs another. */
  lemma {:induction false} OtherChannelKeeps(st: Store, histories: seq<History>, place: seq<Place>, st': Store, place': seq<Place>, c: nat, d: nat)
    requires Represents(st, histories, place)
    requires c < |histories| && d < |histories| && c != d
    requires OnlyTouches(st, place, st', place', c)
    ensures ChannelHolds(st', place', d, histories[d])
  {
    var h := histories[d];
    assert ChannelHolds(st, place, d, h);
    RingUntouched(st, |histories|, c, d, h, st'.values);
    forall t: nat | FirstParkedSend(h) <= t < |h.sends|
      ensures SendParked(st'.waiters, place', d, h, t)
    {
      assert SendParked(st.waiters, place, d, h, t);
      assert Foreign(place[h.sends[t].slot], c);
    }
    forall t: nat | Delivered(h) <= t < |h.receives|
      ensures ReceiveParked(st'.waiters, place', d, h, t)
    {
      assert ReceiveParked(st.waiters, place, d, h, t);
      assert Foreign(place[h.receives[t].slot], c);
    }
  }

  lemma {:induction false} RingUntouched(st: Store, count: nat, c: nat, d: nat, h: History, values': seq<int>)
    requires count <= |st.channels| && st.valueCount <= |st.values| == |values'|
    requires WindowsPacked(st.channels, count, st.valueCount)
    requires c < count && d < count && c != d
    requires forall k | 0 <= k < |st.values| && values'[k] != st.values[k] ::
               st.channels[c].valuesStart <= k < st.channels[c].valuesStart + st.channels[c].capacity
    requires RingHolds(st.values, st.channels[d], h)
    ensures RingHolds(values', st.channels[d], h)
  {
    var ch := st.channels[d];
    forall i: nat | i < ch.len
      ensures values'[RingIndex(ch.valuesStart, ch.head, ch.capacity, i)] == h.sends[Delivered(h) + i].value
    {
      var k := RingIndex(ch.valuesStart, ch.head, ch.capacity, i);
      assert ch.valuesStart <= k < ch.valuesStart + ch.capacity;
      if c < d {
        assert st.channels[c].valuesStart + st.channels[c].capacity <= ch.valuesStart;
      } else {
        assert ch.valuesStart + ch.capacity <= st.channels[c].valuesStart;
      }
      assert values'[k] == st.values[k];
    }
  }

  /** So re-establishing the touched channel and its slots re-establishes the arena. */
  lemma {:induction false} UpdateKeeps(st: Store, histories: seq<History>, place: seq<Place>,
                    st': Store, histories': seq<History>, place': seq<Place>, c: nat)
    requires Represents(st, histories, place)
    requires c < |histories| == |histories'|
    requires OnlyTouches(st, place, st', place', c)
    requires forall d | 0 <= d < |histories| && d != c :: histories'[d] == histories[d]
    requires ChannelHolds(st', place', c, histories'[c])
    requires forall s: nat | s < |place'| :: SlotHolds(st'.waiters, place', histories', s)
    ensures Represents(st', histories', place')
  {
    forall d: nat | d < |histories'|
      ensures ChannelHolds(st', place', d, histories'[d])
    {
      if d != c {
        OtherChannelKeeps(st, histories, place, st', place', c, d);
      }
    }
    assert WindowsPacked(st'.channels, |histories'|, st'.valueCount);
  }

  function UnlinkReceive(ch: Channel, link: nat): Channel {
    ch.(receiveHead := link, receiveTail := if link == NONE then NONE else ch.receiveTail)
  }

  function UnlinkSend(ch: Channel, link: nat): Channel {
    ch.(sendHead := link, sendTail := if link == NONE then NONE else ch.sendTail)
  }

  function LinkSend(ch: Channel, slot: nat): Channel {
    ch.(sendHead := if ch.sendTail == NONE then slot else ch.sendHead, sendTail := slot)
  }

  function LinkReceive(ch: Channel, slot: nat): Channel {
    ch.(receiveHead := if ch.receiveTail == NONE then slot else ch.receiveHead, receiveTail := slot)
  }

  /** The waiter array after `w` is installed in an empty slot and linked behind `tail`. */
  function Linked(waiters: seq<Waiter>, tail: nat, slot: nat, w: Waiter): seq<Waiter>
    requires slot < |waiters|
    requires tail == NONE || tail < |waiters|
  {
    var installed := waiters[slot := w];
    if tail == NONE then installed else installed[tail := installed[tail].(next := slot)]
  }

  /** The store after each kind of accepted call on channel `c`. */
  function HandedOff(st: Store, c: nat, h: History): Store
    requires c < |st.channels| && |h.sends| < |h.receives| && h.receives[|h.sends|].slot < |st.waiters|
  {
    st.(channels := st.channels[c := UnlinkReceive(st.channels[c], ReceiveLink(h, |h.sends|))],
        waiters := st.waiters[h.receives[|h.sends|].slot := EMPTY_WAITER])
  }

  function StoreIndex(ch: Channel): nat {
    RingIndex(ch.valuesStart, ch.head, ch.capacity, ch.len)
  }

  function Stored(st: Store, c: nat, value: int): Store
    requires c < |st.channels| && StoreIndex(st.channels[c]) < |st.values|
  {
    st.(channels := st.channels[c := st.channels[c].(len := st.channels[c].len + 1)],
        values := st.values[StoreIndex(st.channels[c]) := value])
  }

  function SendQueued(st: Store, c: nat, r: SendRecord): Store
    requires c < |st.channels| && r.slot < |st.waiters|
    requires st.channels[c].sendTail == NONE || st.channels[c].sendTail < |st.waiters|
  {
    st.(channels := st.channels[c := LinkSend(st.channels[c], r.slot)],
        waiters := Linked(st.waiters, st.channels[c].sendTail, r.slot,
                          Waiter(Some(r.task), NONE, SendWait(r.value, r.resumeBlock))))
  }

  function ReceiveQueued(st: Store, c: nat, r: ReceiveRecord): Store
    requires c < |st.channels| && r.slot < |st.waiters|
    requires st.channels[c].receiveTail == NONE || st.channels[c].receiveTail < |st.waiters|
  {
    st.(channels := st.channels[c := LinkReceive(st.channels[c], r.slot)],
        waiters := Linked(st.waiters, st.channels[c].receiveTail, r.slot,
                          Waiter(Some(r.task), NONE, ReceiveWait(r.destination, r.resumeBlock))))
  }

  function Popped(ch: Channel): Channel
    requires ch.len > 0
  {
    ch.(head := Wrap(ch.head + 1, ch.capacity), len := ch.len - 1)
  }

  function Taken(st: Store, c: nat): Store
    requires c < |st.channels| && st.channels[c].len > 0
  {
    st.(channels := st.channels[c := Popped(st.channels[c])])
  }

  ghost predicate Refillable(st: Store, c: nat, h: History) {
    && c < |st.channels| && st.channels[c].len > 0
    && FirstParkedSend(h) < |h.sends| && h.sends[FirstParkedSend(h)].slot < |st.waiters|
    && StoreIndex(Popped(st.channels[c])) < |st.values|
  }

  ghost function Refilled(st: Store, c: nat, h: History): Store
    requires Refillable(st, c, h)
  {
    var first := h.sends[FirstParkedSend(h)];
    var ch := Popped(st.channels[c]);
    st.(channels := st.channels[c := UnlinkSend(ch.(len := ch.len + 1), SendLink(h, FirstParkedSend(h)))],
        values := st.values[StoreIndex(ch) := first.value],
        waiters := st.waiters[first.slot := EMPTY_WAITER])
  }

  /** Handing a value to the oldest parked receiver unlinks exactly that waiter. */
  lemma {:induction false} HandOffKeeps(st: Store, histories: seq<History>, place: seq<Place>, c: nat, r: SendRecord)
    requires Represents(st, histories, place)
    requires c < |histories| && |histories[c].sends| < |histories[c].receives|
    ensures var h := histories[c];
            var w := h.receives[|h.sends|].slot;
            && w < |st.waiters|
            && Represents(HandedOff(st, c, h), histories[c := AcceptSend(h, r)], place[w := Nowhere])
  {
    var h := histories[c];
    var h' := AcceptSend(h, r);
    assert ChannelHolds(st, place, c, h);
    assert ReceiveParked(st.waiters, place, c, h, |h.sends|);
    var w := h.receives[|h.sends|].slot;
    var link := ReceiveLink(h, |h.sends|);
    var st' := HandedOff(st, c, h);
    var place' := place[w := Nowhere];
    var histories' := histories[c := h'];
    assert link == NONE <==> |h.sends| + 1 == |h.receives| by {
      if |h.sends| + 1 < |h.receives| {
        assert ReceiveParked(st.waiters, place, c, h, |h.sends| + 1);
      }
    }
    forall t: nat | Delivered(h') <= t < |h'.receives|
      ensures ReceiveParked(st'.waiters, place', c, h', t)
    {
      assert ReceiveParked(st.waiters, place, c, h, t);
    }
    assert RingHolds(st'.values, st'.channels[c], h');
    assert ChannelHolds(st', place', c, h');
    SlotsKeep(st, histories, place, st', histories', place', c, w);
    UpdateKeeps(st, histories, place, st', histories', place', c);
  }

  /** Slots other than the touched one stay parked on tickets that remain parked. */
  lemma {:induction false} SlotsKeep(st: Store, histories: seq<History>, place: seq<Place>,
                  st': Store, histories': seq<History>, place': seq<Place>, c: nat, w: nat)
    requires Represents(st, histories, place)
    requires c < |histories| == |histories'|
    requires forall d | 0 <= d < |histories| && d != c :: histories'[d] == histories[d]
    requires w < |place| == |place'| == |st'.waiters|
    requires forall s | 0 <= s < |place| && s != w :: place'[s] == place[s] && (place[s] == Nowhere ==> st'.waiters[s] == st.waiters[s])
    requires histories[c].sends <= histories'[c].sends && histories[c].receives <= histories'[c].receives
    requires forall t: nat | FirstParkedSend(histories[c]) <= t < FirstParkedSend(histories'[c]) && t < |histories[c].sends| ::
               histories[c].sends[t].slot == w
    requires forall t: nat | Delivered(histories[c]) <= t < Delivered(histories'[c]) && t < |histories[c].receives| ::
               histories[c].receives[t].slot == w
    requires SlotHolds(st'.waiters, place', histories', w)
    ensures forall s: nat | s < |place'| :: SlotHolds(st'.waiters, place', histories', s)
  {
    forall s: nat | s < |place'|
      ensures SlotHolds(st'.waiters, place', histories', s)
    {
      assert SlotHolds(st.waiters, place, histories, s);
    }
  }

  /** Storing behind the last buffered value extends the ring by one. */
  lemma {:induction false} StoreKeeps(st: Store, histories: seq<History>, place: seq<Place>, c: nat, r: SendRecord)
    requires Represents(st, histories, place)
    requires c < |histories|
    requires |histories[c].receives| <= |histories[c].sends| < |histories[c].receives| + histories[c].capacity
    ensures StoreIndex(st.channels[c]) < |st.values|
    ensures Represents(Stored(st, c, r.value), histories[c := AcceptSend(histories[c], r)], place)
  {
    var h := histories[c];
    var h' := AcceptSend(h, r);
    var ch := st.channels[c];
    assert ChannelHolds(st, place, c, h);
    var st' := Stored(st, c, r.value);
    var histories' := histories[c := h'];
    assert RingHolds(st'.values, st'.channels[c], h');
    assert ChannelHolds(st', place, c, h');
    forall s: nat | s < |place|
      ensures SlotHolds(st.waiters, place, histories', s)
    {
      assert SlotHolds(st.waiters, place, histories, s);
    }
    UpdateKeeps(st, histories, place, st', histories', place, c);
  }

  /** Parking a send links it behind the newest parked send. */
  lemma {:induction false} ParkSendKeeps(st: Store, histories: seq<History>, place: seq<Place>, c: nat, r: SendRecord)
    requires Represents(st, histories, place)
    requires c < |histories| && |histories[c].receives| + histories[c].capacity <= |histories[c].sends|
    requires r.slot < |st.waiters| && place[r.slot] == Nowhere
    ensures var tail := st.channels[c].sendTail;
            && (tail == NONE || (tail < |st.waiters| && tail != r.slot))
            && Represents(SendQueued(st, c, r), histories[c := AcceptSend(histories[c], r)],
                          place[r.slot := SendPlace(c, |histories[c].sends|)])
  {
    var h := histories[c];
    var h' := AcceptSend(h, r);
    var ch := st.channels[c];
    assert ChannelHolds(st, place, c, h);
    if FirstParkedSend(h) < |h.sends| {
      assert SendParked(st.waiters, place, c, h, |h.sends| - 1);
    }
    var st' := SendQueued(st, c, r);
    var place' := place[r.slot := SendPlace(c, |h.sends|)];
    var histories' := histories[c := h'];
    forall t: nat | FirstParkedSend(h') <= t < |h'.sends|
      ensures SendParked(st'.waiters, place', c, h', t)
    {
      if t < |h.sends| {
        assert SendParked(st.waiters, place, c, h, t);
      }
    }
    assert RingHolds(st'.values, st'.channels[c], h');
    assert ChannelHolds(st', place', c, h');
    assert ch.sendTail != NONE ==> place[ch.sendTail] == SendPlace(c, |h.sends| - 1);
    SlotsKeep(st, histories, place, st', histories', place', c, r.slot);
    UpdateKeeps(st, histories, place, st', histories', place', c);
  }

  /** Parking a receive links it behind the newest parked receive. */
  lemma {:induction false} ParkReceiveKeeps(st: Store, histories: seq<History>, place: seq<Place>, c: nat, r: ReceiveRecord)
    requires Represents(st, histories, place)
    requires c < |histories| && |histories[c].sends| <= |histories[c].receives|
    requires r.slot < |st.waiters| && place[r.slot] == Nowhere
    ensures var tail := st.channels[c].receiveTail;
            && (tail == NONE || (tail < |st.waiters| && tail != r.slot))
            && Represents(ReceiveQueued(st, c, r), histories[c := AcceptReceive(histories[c], r)],
                          place[r.slot := ReceivePlace(c, |histories[c].receives|)])
  {
    var h := histories[c];
    var h' := AcceptReceive(h, r);
    var ch := st.channels[c];
    assert ChannelHolds(st, place, c, h);
    if Delivered(h) < |h.receives| {
      assert ReceiveParked(st.waiters, place, c, h, |h.receives| - 1);
    }
    var st' := ReceiveQueued(st, c, r);
    var place' := place[r.slot := ReceivePlace(c, |h.receives|)];
    var histories' := histories[c := h'];
    forall t: nat | Delivered(h') <= t < |h'.receives|
      ensures ReceiveParked(st'.waiters, place', c, h', t)
    {
      if t < |h.receives| {
        assert ReceiveParked(st.waiters, place, c, h, t);
      }
    }
    assert RingHolds(st'.values, st'.channels[c], h');
    assert ChannelHolds(st', place', c, h');
    assert ch.receiveTail != NONE ==> place[ch.receiveTail] == ReceivePlace(c, |h.receives| - 1);
    SlotsKeep(st, histories, place, st', histories', place', c, r.slot);
    UpdateKeeps(st, histories, place, st', histories', place', c);
  }

  /** After the head moves on, the i-th buffered value is the old (i + 1)-th. */
  lemma {:induction false} RingShifts(values: seq<int>, ch: Channel, h: History)
    requires RingHolds(values, ch, h)
    requires |h.receives| < |h.sends|
    ensures var head := Wrap(ch.head + 1, ch.capacity);
            forall i: nat | i < ch.len - 1 ::
              values[RingIndex(ch.valuesStart, head, ch.capacity, i)] == h.sends[|h.receives| + 1 + i].value
  {
    var head := Wrap(ch.head + 1, ch.capacity);
    forall i: nat | i < ch.len - 1
      ensures values[RingIndex(ch.valuesStart, head, ch.capacity, i)] == h.sends[|h.receives| + 1 + i].value
    {
      assert RingIndex(ch.valuesStart, head, ch.capacity, i) == RingIndex(ch.valuesStart, ch.head, ch.capacity, i + 1);
    }
  }

  /** Moving the head on and storing one value behind the last keeps a full ring full. */
  lemma {:induction false} RingRefills(values: seq<int>, ch: Channel, h: History, r: ReceiveRecord)
    requires RingHolds(values, ch, h)
    requires |h.receives| + h.capacity < |h.sends|
    ensures var head := Wrap(ch.head + 1, ch.capacity);
            && ch.len > 0
            && var at := RingIndex(ch.valuesStart, head, ch.capacity, ch.len - 1);
            && ch.valuesStart <= at < ch.valuesStart + ch.capacity
            && RingHolds(values[at := h.sends[FirstParkedSend(h)].value], ch.(head := head), AcceptReceive(h, r))
  {
    RingShifts(values, ch, h);
  }

  /** Taking the oldest buffered value when nobody waits to send. */
  lemma {:induction false} TakeKeeps(st: Store, histories: seq<History>, place: seq<Place>, c: nat, r: ReceiveRecord)
    requires Represents(st, histories, place)
    requires c < |histories|
    requires |histories[c].receives| < |histories[c].sends| <= |histories[c].receives| + histories[c].capacity
    ensures st.channels[c].len > 0
    ensures Represents(Taken(st, c), histories[c := AcceptReceive(histories[c], r)], place)
  {
    var h := histories[c];
    var h' := AcceptReceive(h, r);
    var ch := st.channels[c];
    assert ChannelHolds(st, place, c, h);
    var st' := Taken(st, c);
    var histories' := histories[c := h'];
    RingShifts(st.values, ch, h);
    assert RingHolds(st'.values, st'.channels[c], h');
    assert ChannelHolds(st', place, c, h');
    forall s: nat | s < |place|
      ensures SlotHolds(st.waiters, place, histories', s)
    {
      assert SlotHolds(st.waiters, place, histories, s);
    }
    UpdateKeeps(st, histories, place, st', histories', place, c);
  }

  /** After a refill the channel's ring and send queue hold what its history says. */
  lemma {:induction false} RefilledChannelHolds(st: Store, histories: seq<History>, place: seq<Place>, c: nat, r: ReceiveRecord)
    requires Represents(st, histories, place)
    requires c < |histories|
    requires |histories[c].receives| + histories[c].capacity < |histories[c].sends|
    ensures var h := histories[c];
            && Refillable(st, c, h)
            && h.sends[FirstParkedSend(h)].slot < |place|
            && ChannelHolds(Refilled(st, c, h), place[h.sends[FirstParkedSend(h)].slot := Nowhere], c, AcceptReceive(h, r))
  {
    var h := histories[c];
    var h' := AcceptReceive(h, r);
    var ch := st.channels[c];
    assert ChannelHolds(st, place, c, h);
    var first := FirstParkedSend(h);
    assert SendParked(st.waiters, place, c, h, first);
    var link := SendLink(h, first);
    RingRefills(st.values, ch, h, r);
    var st' := Refilled(st, c, h);
    var place' := place[h.sends[first].slot := Nowhere];
    assert link == NONE <==> first + 1 == |h.sends| by {
      if first + 1 < |h.sends| {
        assert SendParked(st.waiters, place, c, h, first + 1);
      }
    }
    forall t: nat | FirstParkedSend(h') <= t < |h'.sends|
      ensures SendParked(st'.waiters, place', c, h', t)
    {
      assert SendParked(st.waiters, place, c, h, t);
    }
    assert RingHolds(st'.values, st'.channels[c], h');
  }

  /**
   Taking the oldest buffered value while a sender waits: the oldest parked sender is unlinked
   and its value goes behind the last buffered one.
   */
  lemma {:induction false} TakeAndRefillKeeps(st: Store, histories: seq<History>, place: seq<Place>, c: nat, r: ReceiveRecord)
    requires Represents(st, histories, place)
    requires c < |histories|
    requires |histories[c].receives| + histories[c].capacity < |histories[c].sends|
    ensures var h := histories[c];
            && Refillable(st, c, h)
            && Represents(Refilled(st, c, h), histories[c := AcceptReceive(h, r)],
                          place[h.sends[FirstParkedSend(h)].slot := Nowhere])
  {
    var h := histories[c];
    RefilledChannelHolds(st, histories, place, c, r);
    assert ChannelHolds(st, place, c, h) && SendParked(st.waiters, place, c, h, FirstParkedSend(h));
    var w := h.sends[FirstParkedSend(h)].slot;
    var st', place' := Refilled(st, c, h), place[w := Nowhere];
    var histories' := histories[c := AcceptReceive(h, r)];
    SlotsKeep(st, histories, place, st', histories', place', c, w);
    UpdateKeeps(st, histories, place, st', histories', place', c);
  }

  class Arena {
    const channels: array<Channel>
    const values: array<int>
    const waiters: array<Waiter>
    var channelCount: nat
    var valueCount: nat

    /** The accepted calls of every channel created so far. */
    ghost var histories: seq<History>
    ghost var place: seq<Place>

    ghost function Contents(): Store
      reads this, channels, values, waiters
    {
      Store(channels[..], values[..], waiters[..], valueCount)
    }

    ghost predicate Valid()
      reads this, channels, values, waiters
    {
      && channelCount == |histories|
      && Represents(Contents(), histories, place)
    }

    lemma {:induction false} Packed(st: Store)
      requires Contents() == st && channelCount == |histories|
      requires Represents(st, histories, place)
      ensures Valid()
    {
    }

    /** `taskCapacity` waiters are reserved only when the arena can hold a channel. */
    constructor (channelCapacity: nat, valueCapacity: nat, taskCapacity: nat)
      requires channelCapacity <= MAXIMUM_LENGTH && valueCapacity <= MAXIMUM_LENGTH && taskCapacity <= MAXIMUM_LENGTH
      ensures Valid() && fresh(channels) && fresh(values) && fresh(waiters)
      ensures histories == []
      ensures channels.Length == channelCapacity && values.Length == valueCapacity
      ensures waiters.Length == if channelCapacity == 0 then 0 else taskCapacity
    {
      var tasks := if channelCapacity == 0 then 0 else taskCapacity;
      channels := new Channel[channelCapacity](_ => EMPTY_CHANNEL);
      values := new int[valueCapacity](_ => 0);
      waiters := new Waiter[tasks](_ => EMPTY_WAITER);
      channelCount := 0;
      valueCount := 0;
      histories := [];
      place := seq(tasks, _ => Nowhere);
    }

    /** Whether `handle` names a channel of this arena, and which. */
    method ChannelIndex(handle: int) returns (r: Result<nat, ChannelError>)
      requires Valid()
      ensures r == if 1 <= handle <= |histories| then Ok(handle - 1) else Err(InvalidHandle)
    {
      if handle < 0 || handle == 0 || handle - 1 >= channelCount {
        return Err(InvalidHandle);
      }
      return Ok(handle - 1);
    }

    /**
     A channel is created exactly when there is a free channel and enough free values; every
     other channel keeps its history.  (A handle beyond 2^31 - 1 cannot be named, but its
     channel has been created by then.)
     */
    method Create(capacity: int) returns (r: Result<int, ChannelError>)
      requires Valid()
      modifies this, channels
      ensures Valid()
      ensures var fits := capacity > 0 && |old(histories)| < channels.Length && old(valueCount) + capacity <= values.Length;
              if fits then
                && histories == old(histories) + [History(capacity, [], [])]
                && valueCount == old(valueCount) + capacity
                && r == (if |histories| <= I32_MAX then Ok(|histories|) else Err(NoCapacity))
              else
                && r == Err(if capacity < 0 then InvalidCapacity else NoCapacity)
                && histories == old(histories) && valueCount == old(valueCount)
    {
      if capacity < 0 {
        return Err(InvalidCapacity);
      }
      if capacity == 0 || channelCount == channels.Length {
        return Err(NoCapacity);
      }
      var end := valueCount + capacity;
      if end > values.Length {
        return Err(NoCapacity);
      }
      var slot := channelCount;
      channels[slot] := EMPTY_CHANNEL.(valuesStart := valueCount, capacity := capacity);
      channelCount := channelCount + 1;
      valueCount := end;
      histories := histories + [History(capacity, [], [])];
      assert Represents(Contents(), histories, place) by {
        forall c: nat | c < |histories|
          ensures ChannelHolds(Contents(), place, c, histories[c])
        {
          if c < slot {
            assert ChannelHolds(old(Contents()), place, c, old(histories)[c]);
          }
        }
        forall s: nat | s < |place|
          ensures SlotHolds(waiters[..], place, histories, s)
        {
          assert SlotHolds(old(waiters[..]), place, old(histories), s);
        }
      }
      if slot + 1 > I32_MAX {
        return Err(NoCapacity);
      }
      return Ok(slot + 1);
    }

    /** Fills an empty waiter slot; a slot that is out of range or taken is a corrupt queue. */
    method InstallWaiter(slot: nat, task: nat, kind: WaitKind) returns (r: Result<(), ChannelError>)
      modifies waiters
      ensures r == if slot < waiters.Length && old(waiters[..])[slot].task.None? then Ok(()) else Err(CorruptQueue)
      ensures waiters[..] == if r.Ok? then old(waiters[..])[slot := Waiter(Some(task), NONE, kind)] else old(waiters[..])
    {
      if slot >= waiters.Length {
        return Err(CorruptQueue);
      }
      if waiters[slot].task.Some? {
        return Err(CorruptQueue);
      }
      waiters[slot] := Waiter(Some(task), NONE, kind);
      return Ok(());
    }

    /** Links `slot` behind the tail of one of the two queues of a channel. */
    method PushWaiter(index: nat, slot: nat, send: bool) returns (r: Result<(), ChannelError>)
      requires index < channels.Length
      modifies channels, waiters
      ensures var ch := old(channels[..])[index];
              var tail := if send then ch.sendTail else ch.receiveTail;
              && r == (if tail == NONE || tail < waiters.Length then Ok(()) else Err(CorruptQueue))
              && (r.Ok? ==>
                    && channels[..] == old(channels[..])[index :=
                         if send then ch.(sendHead := if tail == NONE then slot else ch.sendHead, sendTail := slot)
                         else ch.(receiveHead := if tail == NONE then slot else ch.receiveHead, receiveTail := slot)]
                    && waiters[..] == (if tail == NONE then old(waiters[..])
                                       else old(waiters[..])[tail := old(waiters[..])[tail].(next := slot)]))
    {
      var ch := channels[index];
      var tail := if send then ch.sendTail else ch.receiveTail;
      if tail == NONE {
        ch := if send then ch.(sendHead := slot) else ch.(receiveHead := slot);
      } else {
        if tail >= waiters.Length {
          return Err(CorruptQueue);
        }
        waiters[tail] := waiters[tail].(next := slot);
      }
      channels[index] := if send then ch.(sendTail := slot) else ch.(receiveTail := slot);
      return Ok(());
    }

    /** Unlinks and empties the head of one of the two queues of a channel. */
    method PopWaiter(index: nat, send: bool) returns (r: Result<Waiter, ChannelError>)
      requires index < channels.Length
      modifies channels, waiters
      ensures var ch := old(channels[..])[index];
              var head := if send then ch.sendHead else ch.receiveHead;
              if head < waiters.Length then
                var waiter := old(waiters[..])[head];
                && r == Ok(waiter)
                && channels[..] == old(channels[..])[index :=
                     if send then ch.(sendHead := waiter.next, sendTail := if waiter.next == NONE then NONE else ch.sendTail)
                     else ch.(receiveHead := waiter.next, receiveTail := if waiter.next == NONE then NONE else ch.receiveTail)]
                && waiters[..] == old(waiters[..])[head := EMPTY_WAITER]
              else
                && r == Err(CorruptQueue)
                && channels[..] == old(channels[..])
                && waiters[..] == old(waiters[..])
    {
      var ch := channels[index];
      var slot := if send then ch.sendHead else ch.receiveHead;
      if slot >= waiters.Length {
        return Err(CorruptQueue);
      }
      var waiter := waiters[slot];
      if send {
        ch := ch.(sendHead := waiter.next);
        if waiter.next == NONE {
          ch := ch.(sendTail := NONE);
        }
      } else {
        ch := ch.(receiveHead := waiter.next);
        if waiter.next == NONE {
          ch := ch.(receiveTail := NONE);
        }
      }
      channels[index] := ch;
      waiters[slot] := EMPTY_WAITER;
      return Ok(waiter);
    }

    /** A parked receiver takes the value directly; its waiter is unlinked and named in the answer. */
    method WakeReceiverOf(index: nat, ghost record: SendRecord) returns (r: Result<SendResult, ChannelError>)
      requires Valid() && index < |histories|
      requires ParkedReceivers(histories[index]) != []
      modifies this, channels, waiters
      ensures Valid() && valueCount == old(valueCount)
      ensures histories == old(histories)[index := AcceptSend(old(histories)[index], record)]
      ensures r == Ok(SendAnswer(old(histories)[index]))
    {
      ghost var h := histories[index];
      ghost var before := Contents();
      HandOffKeeps(before, histories, place, index, record);
      HeadOfReceivers(before, histories, place, index);
      ghost var w := h.receives[|h.sends|].slot;
      var popped := PopWaiter(index, false);
      if popped.Err? {
        return Err(CorruptQueue);
      }
      histories, place := histories[index := AcceptSend(h, record)], place[w := Nowhere];
      Packed(HandedOff(before, index, h));
      match popped.value.kind
      case ReceiveWait(destination, block) =>
        if popped.value.task.None? {
          return Err(CorruptQueue);
        }
        return Ok(WakeReceiver(popped.value.task.value, destination, block));
      case _ =>
        return Err(CorruptQueue);
    }

    /** Writes a value behind the last one of a ring. */
    method Append(index: nat, value: int)
      requires index < channels.Length
      requires channels[index].head < channels[index].capacity && channels[index].len < channels[index].capacity
      requires channels[index].valuesStart + channels[index].capacity <= values.Length
      modifies channels, values
      ensures var ch := old(channels[..])[index];
              && channels[..] == old(channels[..])[index := ch.(len := ch.len + 1)]
              && StoreIndex(ch) < values.Length
              && values[..] == old(values[..])[StoreIndex(ch) := value]
    {
      var channel := channels[index];
      var tail := WrapIndex(channel.head + channel.len, channel.capacity);
      values[channel.valuesStart + tail] := value;
      channels[index] := channel.(len := channel.len + 1);
    }

    /** Stores a value behind the last buffered one. */
    method StoreValue(index: nat, value: int, ghost record: SendRecord)
      requires Valid() && index < |histories|
      requires |histories[index].receives| <= |histories[index].sends|
      requires |histories[index].sends| < |histories[index].receives| + histories[index].capacity
      requires record.value == value
      modifies this, channels, values
      ensures Valid() && valueCount == old(valueCount)
      ensures histories == old(histories)[index := AcceptSend(old(histories)[index], record)]
    {
      ghost var before := Contents();
      assert ChannelHolds(before, place, index, histories[index]);
      StoreKeeps(before, histories, place, index, record);
      Append(index, value);
      histories := histories[index := AcceptSend(histories[index], record)];
      Packed(Stored(before, index, value));
    }

    /** Parks a send; refused exactly when the slot is out of range or already parked. */
    method ParkSend(index: nat, record: SendRecord) returns (r: Result<(), ChannelError>)
      requires Valid() && index < |histories|
      requires |histories[index].receives| + histories[index].capacity <= |histories[index].sends|
      modifies this, channels, waiters
      ensures Valid() && valueCount == old(valueCount)
      ensures if record.slot >= waiters.Length || old(Parked(histories, record.slot)) then
                r == Err(CorruptQueue) && histories == old(histories)
              else
                r == Ok(()) && histories == old(histories)[index := AcceptSend(old(histories)[index], record)]
    {
      ghost var before := Contents();
      if record.slot < waiters.Length {
        OccupiedIffParked(before, histories, place, record.slot);
      }
      var installed := InstallWaiter(record.slot, record.task, SendWait(record.value, record.resumeBlock));
      if installed.Err? {
        return installed;
      }
      ParkSendKeeps(before, histories, place, index, record);
      var pushed := PushWaiter(index, record.slot, true);
      if pushed.Err? {
        return pushed;
      }
      ghost var ticket := |histories[index].sends|;
      histories, place := histories[index := AcceptSend(histories[index], record)], place[record.slot := SendPlace(index, ticket)];
      Packed(SendQueued(before, index, record));
      return Ok(());
    }

    method ParkReceive(index: nat, record: ReceiveRecord) returns (r: Result<(), ChannelError>)
      requires Valid() && index < |histories|
      requires |histories[index].sends| <= |histories[index].receives|
      modifies this, channels, waiters
      ensures Valid() && valueCount == old(valueCount)
      ensures if record.slot >= waiters.Length || old(Parked(histories, record.slot)) then
                r == Err(CorruptQueue) && histories == old(histories)
              else
                r == Ok(()) && histories == old(histories)[index := AcceptReceive(old(histories)[index], record)]
    {
      ghost var before := Contents();
      if record.slot < waiters.Length {
        OccupiedIffParked(before, histories, place, record.slot);
      }
      var installed := InstallWaiter(record.slot, record.task, ReceiveWait(record.destination, record.resumeBlock));
      if installed.Err? {
        return installed;
      }
      ParkReceiveKeeps(before, histories, place, index, record);
      var pushed := PushWaiter(index, record.slot, false);
      if pushed.Err? {
        return pushed;
      }
      ghost var ticket := |histories[index].receives|;
      histories, place := histories[index := AcceptReceive(histories[index], record)], place[record.slot := ReceivePlace(index, ticket)];
      Packed(ReceiveQueued(before, index, record));
      return Ok(());
    }

    /** Takes the oldest buffered value when no sender is parked. */
    method TakeValue(index: nat, ghost record: ReceiveRecord) returns (value: int)
      requires Valid() && index < |histories|
      requires |histories[index].receives| < |histories[index].sends|
      requires ParkedSenders(histories[index]) == []
      modifies this, channels
      ensures Valid() && valueCount == old(valueCount)
      ensures histories == old(histories)[index := AcceptReceive(old(histories)[index], record)]
      ensures Value(value, None) == ReceiveAnswer(old(histories)[index])
    {
      var channel := channels[index];
      ghost var h := histories[index];
      ghost var before := Contents();
      FrontOfRing(before, histories, place, index);
      TakeKeeps(before, histories, place, index, record);
      value := values[channel.valuesStart + channel.head];
      var head := WrapIndex(channel.head + 1, channel.capacity);
      channels[index] := channel.(head := head, len := channel.len - 1);
      histories := histories[index := AcceptReceive(h, record)];
      Packed(Taken(before, index));
    }

    /** What the oldest parked sender of a channel has left in its slot, and that its ring can be refilled from there. */
    ghost predicate SenderWaits(index: nat, h: History)
      reads this, channels, values, waiters
    {
      && index < channels.Length && FirstParkedSend(h) < |h.sends|
      && var ch, first := channels[index], h.sends[FirstParkedSend(h)];
      && ch.head < ch.capacity && 0 < ch.len <= ch.capacity && ch.valuesStart + ch.capacity <= values.Length
      && ch.sendHead == first.slot < waiters.Length
      && waiters[first.slot]
         == Waiter(Some(first.task), SendLink(h, FirstParkedSend(h)), SendWait(first.value, first.resumeBlock))
    }

    /** Takes the value at the head of the ring and moves the oldest parked sender's value behind the last one. */
    method ShiftRing(index: nat, ghost h: History) returns (r: Result<ReceiveResult, ChannelError>)
      requires SenderWaits(index, h)
      modifies channels, values, waiters
      ensures Refillable(old(Contents()), index, h) && Contents() == Refilled(old(Contents()), index, h)
      ensures var ch, first := old(channels[..])[index], h.sends[FirstParkedSend(h)];
              r == Ok(Value(old(values[..])[ch.valuesStart + ch.head], Some((first.task, first.resumeBlock))))
    {
      var channel := channels[index];
      var value := values[channel.valuesStart + channel.head];
      var head := WrapIndex(channel.head + 1, channel.capacity);
      channels[index] := channel.(head := head, len := channel.len - 1);
      var popped := PopWaiter(index, true);
      if popped.Err? {
        return Err(CorruptQueue);
      }
      match popped.value.kind
      case SendWait(sent, block) =>
        Append(index, sent);
        if popped.value.task.None? {
          return Err(CorruptQueue);
        }
        return Ok(Value(value, Some((popped.value.task.value, block))));
      case _ =>
        return Err(CorruptQueue);
    }

    /** Takes the oldest buffered value and moves the oldest parked sender's value into the ring. */
    method TakeValueAndWakeSender(index: nat, ghost record: ReceiveRecord) returns (r: Result<ReceiveResult, ChannelError>)
      requires Valid() && index < |histories|
      requires ParkedSenders(histories[index]) != []
      modifies this, channels, values, waiters
      ensures Valid() && valueCount == old(valueCount)
      ensures histories == old(histories)[index := AcceptReceive(old(histories)[index], record)]
      ensures r == Ok(ReceiveAnswer(old(histories)[index]))
    {
      ghost var h := histories[index];
      ghost var before := Contents();
      HeadOfSenders(before, histories, place, index);
      FrontOfRing(before, histories, place, index);
      TakeAndRefillKeeps(before, histories, place, index, record);
      r := ShiftRing(index, h);
      histories, place := histories[index := AcceptReceive(h, record)], place[h.sends[FirstParkedSend(h)].slot := Nowhere];
      Packed(Refilled(before, index, h));
    }

    /**
     A send on a known channel is accepted unless it must park in a slot that is out of range or
     already parked; an accepted send answers what the channel's history says, and only that
     channel's history grows.
     */
    method Send(handle: int, taskSlot: nat, task: nat, value: int, resumeBlock: nat)
      returns (r: Result<SendResult, ChannelError>)
      requires Valid()
      modifies this, channels, values, waiters
      ensures Valid() && valueCount == old(valueCount)
      ensures if !(1 <= handle <= |old(histories)|) then
                r == Err(InvalidHandle) && histories == old(histories)
              else
                var h := old(histories)[handle - 1];
                if SendAnswer(h) == SendSuspend && (taskSlot >= waiters.Length || old(Parked(histories, taskSlot))) then
                  r == Err(CorruptQueue) && histories == old(histories)
                else
                  && r == Ok(SendAnswer(h))
                  && histories == old(histories)[handle - 1 := AcceptSend(h, SendRecord(taskSlot, task, value, resumeBlock))]
    {
      var index :- ChannelIndex(handle);
      var record := SendRecord(taskSlot, task, value, resumeBlock);
      assert ChannelHolds(Contents(), place, index, histories[index]);
      HeadsTellParked(Contents(), histories, place, index);
      if channels[index].receiveHead != NONE {
        r := WakeReceiverOf(index, record);
        return;
      }
      if channels[index].len < channels[index].capacity {
        StoreValue(index, value, record);
        return Ok(Complete);
      }
      var _ :- ParkSend(index, record);
      return Ok(SendSuspend);
    }

    /** The same for a receive. */
    method Receive(handle: int, taskSlot: nat, task: nat, destination: nat, resumeBlock: nat)
      returns (r: Result<ReceiveResult, ChannelError>)
      requires Valid()
      modifies this, channels, values, waiters
      ensures Valid() && valueCount == old(valueCount)
      ensures if !(1 <= handle <= |old(histories)|) then
                r == Err(InvalidHandle) && histories == old(histories)
              else
                var h := old(histories)[handle - 1];
                if ReceiveAnswer(h) == ReceiveSuspend && (taskSlot >= waiters.Length || old(Parked(histories, taskSlot))) then
                  r == Err(CorruptQueue) && histories == old(histories)
                else
                  && r == Ok(ReceiveAnswer(h))
                  && histories == old(histories)[handle - 1 :=
                       AcceptReceive(h, ReceiveRecord(taskSlot, task, destination, resumeBlock))]
    {
      var index :- ChannelIndex(handle);
      var record := ReceiveRecord(taskSlot, task, destination, resumeBlock);
      assert ChannelHolds(Contents(), place, index, histories[index]);
      HeadsTellParked(Contents(), histories, place, index);
      if channels[index].len != 0 {
        if channels[index].sendHead == NONE {
          var value := TakeValue(index, record);
          return Ok(Value(value, None));
        }
        r := TakeValueAndWakeSender(index, record);
        return;
      }
      var _ :- ParkReceive(index, record);
      return Ok(ReceiveSuspend);
    }
  }
}
