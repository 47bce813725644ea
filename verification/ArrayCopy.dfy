/**
 The resumable array copy: a memory move cut into budget slices and 256-element chunks, which may
 be interrupted between slices and must still behave as one atomic move.
 */
module ArrayCopy {
  import opened Wrappers
  import opened Words

  const CHUNK := 256
  /** An array payload starts with its length word; elements follow. */
  const ELEMENTS_OFFSET := 8

  /** The payload of every live block, by reference. */
  type Objects = map<nat, seq<Byte>>

  datatype GuestTrap = IndexOutOfBounds
  datatype VmFault = CorruptHeap | InvalidReference

  // ---- byte moves ----

  ghost predicate InRange(o: Objects, reference: nat, offset: nat, length: nat) {
    reference in o && offset + length <= |o[reference]|
  }

  /** `length` bytes of `source`, as they are now, replace as many bytes of `destination`. */
  function Move(o: Objects, source: nat, from: nat, destination: nat, to: nat, length: nat): Objects
    requires InRange(o, source, from, length) && InRange(o, destination, to, length)
  {
    o[destination := seq(|o[destination]|, k requires 0 <= k < |o[destination]| =>
        if to <= k < to + length then o[source][from + (k - to)] else o[destination][k])]
  }

  /** Which byte a move leaves at each place. */
  lemma {:induction false} MovedByte(o: Objects, source: nat, from: nat, destination: nat, to: nat, length: nat, k: nat)
    requires InRange(o, source, from, length) && InRange(o, destination, to, length)
    requires k < |o[destination]|
    ensures var o' := Move(o, source, from, destination, to, length);
            && |o'[destination]| == |o[destination]|
            && o'[destination][k] == if to <= k < to + length then o[source][from + (k - to)] else o[destination][k]
  {
  }

  /** Two adjacent moves taken upwards make one, unless the first overwrites what the second reads. */
  lemma {:induction false} MoveUpwards(o: Objects, source: nat, from: nat, destination: nat, to: nat, first: nat, second: nat)
    requires InRange(o, source, from, first + second) && InRange(o, destination, to, first + second)
    requires source != destination || to <= from
    ensures var o' := Move(o, source, from, destination, to, first);
            && InRange(o', source, from + first, second) && InRange(o', destination, to + first, second)
            && Move(o', source, from + first, destination, to + first, second)
               == Move(o, source, from, destination, to, first + second)
  {
    var o' := Move(o, source, from, destination, to, first);
    var o'' := Move(o', source, from + first, destination, to + first, second);
    var whole := Move(o, source, from, destination, to, first + second);
    forall k | 0 <= k < |o[destination]|
      ensures o''[destination][k] == whole[destination][k]
    {
      MovedByte(o, source, from, destination, to, first, k);
      MovedByte(o', source, from + first, destination, to + first, second, k);
      MovedByte(o, source, from, destination, to, first + second, k);
    }
    assert o''[destination] == whole[destination];
  }

  /** Two adjacent moves taken downwards make one when an array moves up onto itself. */
  lemma {:induction false} MoveDownwards(o: Objects, reference: nat, from: nat, to: nat, low: nat, high: nat)
    requires InRange(o, reference, from, low + high) && InRange(o, reference, to, low + high)
    requires from <= to
    ensures var o' := Move(o, reference, from + low, reference, to + low, high);
            && InRange(o', reference, from, low) && InRange(o', reference, to, low)
            && Move(o', reference, from, reference, to, low) == Move(o, reference, from, reference, to, low + high)
  {
    var o' := Move(o, reference, from + low, reference, to + low, high);
    var o'' := Move(o', reference, from, reference, to, low);
    var whole := Move(o, reference, from, reference, to, low + high);
    forall k | 0 <= k < |o[reference]|
      ensures o''[reference][k] == whole[reference][k]
    {
      MovedByte(o', reference, from, reference, to, low, k);
      MovedByte(o, reference, from, reference, to, low + high, k);
      MovedByte(o, reference, from + low, reference, to + low, high, k);
      if to <= k < to + low {
        MovedByte(o, reference, from + low, reference, to + low, high, from + (k - to));
      }
    }
    assert o''[reference] == whole[reference];
  }

  // ---- the request ----

  datatype Request = Request(
    source: nat, destination: nat, sourceStart: nat, destinationStart: nat, length: nat, width: nat, backward: bool)

  /** Checks every bound before anything is written; `lengths` are those of the two arrays. */
  function New(source: (nat, int), destination: (nat, int), sourceStart: int, destinationStart: int, length: int, width: nat)
    : (r: Result<Request, GuestTrap>)
    requires source.1 <= I32_MAX && destination.1 <= I32_MAX
    ensures r.Ok? <==>
              && 0 <= sourceStart && 0 <= destinationStart && 0 <= length
              && sourceStart + length <= source.1 && destinationStart + length <= destination.1
    ensures r.Ok? ==> ChoosesDirection(r.value)
    ensures r.Ok? ==>
              && r.value.source == source.0 && r.value.sourceStart == sourceStart
              && r.value.destination == destination.0 && r.value.destinationStart == destinationStart
              && r.value.length == length && r.value.width == width
  {
    if sourceStart < 0 || destinationStart < 0 || length < 0
       || sourceStart + length > I32_MAX || sourceStart + length > source.1
       || destinationStart + length > I32_MAX || destinationStart + length > destination.1
    then Err(IndexOutOfBounds)
    else Ok(Request(source.0, destination.0, sourceStart, destinationStart, length, width,
                    source.0 == destination.0 && destinationStart > sourceStart))
  }

  /** The direction that never overwrites a source element before reading it. */
  predicate ChoosesDirection(q: Request) {
    if q.backward then q.source == q.destination && q.sourceStart <= q.destinationStart
    else q.source != q.destination || q.destinationStart <= q.sourceStart
  }

  /** The request in bytes. */
  datatype Span = Span(source: nat, from: nat, destination: nat, to: nat, size: nat, backward: bool)

  /** The size in bytes of `n` elements. */
  function Bytes(n: nat, width: nat): nat {
    if n == 0 then 0 else Bytes(n - 1, width) + width
  }

  lemma {:induction false} BytesIsProduct(n: nat, width: nat)
    ensures Bytes(n, width) == n * width
  {
    if n > 0 {
      BytesIsProduct(n - 1, width);
    }
  }

  lemma {:induction false} Distribute(a: nat, b: nat, width: nat)
    ensures Bytes(a + b, width) == Bytes(a, width) + Bytes(b, width)
  {
    if b > 0 {
      Distribute(a, b - 1, width);
    }
  }

  lemma {:induction false} Ordered(a: nat, b: nat, width: nat)
    requires a <= b
    ensures Bytes(a, width) <= Bytes(b, width)
  {
    Distribute(a, b - a, width);
  }

  function SpanOf(q: Request): Span {
    Span(q.source, ELEMENTS_OFFSET + Bytes(q.sourceStart, q.width),
         q.destination, ELEMENTS_OFFSET + Bytes(q.destinationStart, q.width), Bytes(q.length, q.width), q.backward)
  }

  predicate SafeDirection(sp: Span) {
    if sp.backward then sp.source == sp.destination && sp.from <= sp.to
    else sp.source != sp.destination || sp.to <= sp.from
  }

  lemma {:induction false} DirectionInBytes(q: Request)
    requires ChoosesDirection(q)
    ensures SafeDirection(SpanOf(q))
  {
    if q.backward {
      Ordered(q.sourceStart, q.destinationStart, q.width);
    } else if q.source == q.destination {
      Ordered(q.destinationStart, q.sourceStart, q.width);
    }
  }

  /** The offset, from the start of the span, of the part that is moved once `done` bytes are. */
  function Low(sp: Span, done: nat): nat
    requires done <= sp.size
  {
    if sp.backward then sp.size - done else 0
  }

  /** The first `done` bytes to be moved lie inside both live payloads. */
  ghost predicate Reaches(o: Objects, sp: Span, done: nat) {
    && done <= sp.size
    && InRange(o, sp.source, sp.from + Low(sp, done), done)
    && InRange(o, sp.destination, sp.to + Low(sp, done), done)
  }

  /** The heap after `done` bytes have been moved, seen from the heap at the start. */
  ghost function Progress(o: Objects, sp: Span, done: nat): Objects
    requires done > 0 ==> Reaches(o, sp, done)
  {
    if done == 0 then o else Move(o, sp.source, sp.from + Low(sp, done), sp.destination, sp.to + Low(sp, done), done)
  }

  /** Where the next chunk lies, from the start of the span. */
  function ChunkOffset(sp: Span, done: nat, count: nat): nat
    requires done + count <= sp.size
  {
    if sp.backward then sp.size - done - count else done
  }

  ghost predicate ChunkInside(o: Objects, sp: Span, done: nat, count: nat)
    requires done + count <= sp.size
  {
    && InRange(o, sp.source, sp.from + ChunkOffset(sp, done, count), count)
    && InRange(o, sp.destination, sp.to + ChunkOffset(sp, done, count), count)
  }

  /** A chunk lies inside the payloads exactly when it does together with all that went before. */
  lemma {:induction false} ChunkInsideIff(o: Objects, sp: Span, done: nat, count: nat)
    requires 0 < count && done + count <= sp.size
    requires done > 0 ==> Reaches(o, sp, done)
    ensures ChunkInside(Progress(o, sp, done), sp, done, count) <==> Reaches(o, sp, done + count)
  {
  }

  /** Moving one more chunk, read from the partly moved heap, is the same as having moved both at once. */
  lemma {:induction false} ChunkExtends(o: Objects, sp: Span, done: nat, count: nat)
    requires SafeDirection(sp) && 0 < count && done + count <= sp.size
    requires done > 0 ==> Reaches(o, sp, done)
    requires Reaches(o, sp, done + count) && ChunkInside(Progress(o, sp, done), sp, done, count)
    ensures Move(Progress(o, sp, done), sp.source, sp.from + ChunkOffset(sp, done, count),
                 sp.destination, sp.to + ChunkOffset(sp, done, count), count)
            == Progress(o, sp, done + count)
  {
    if done > 0 {
      if sp.backward {
        var at := Low(sp, done + count);
        MoveDownwards(o, sp.source, sp.from + at, sp.to + at, count, done);
      } else {
        MoveUpwards(o, sp.source, sp.from, sp.destination, sp.to, done, count);
      }
    }
  }

  lemma {:induction false} ReachesLess(o: Objects, sp: Span, less: nat, done: nat)
    requires less <= done
    ensures Reaches(o, sp, done) ==> Reaches(o, sp, less)
  {
  }

  /**
   A finished copy: every destination byte is the source byte as it was at the start, for either
   overlap, and nothing else has changed.
   */
  lemma {:induction false} FinishedCopy(o: Objects, sp: Span, reference: nat, k: nat)
    requires sp.size > 0 && Reaches(o, sp, sp.size)
    requires reference in o && k < |o[reference]|
    ensures var o' := Progress(o, sp, sp.size);
            && o'.Keys == o.Keys && |o'[reference]| == |o[reference]|
            && o'[reference][k] ==
                 if reference == sp.destination && sp.to <= k < sp.to + sp.size
                 then o[sp.source][sp.from + (k - sp.to)]
                 else o[reference][k]
  {
    MovedByte(o, sp.source, sp.from, sp.destination, sp.to, sp.size, if reference == sp.destination then k else 0);
  }

  /** Where byte `b` of element `i` of an array lies in its payload. */
  function ElementByte(i: nat, width: nat, b: nat): nat {
    ELEMENTS_OFFSET + Bytes(i, width) + b
  }

  /** Element `i` behind the first of a range lies inside the range. */
  lemma {:induction false} ElementLies(first: nat, i: nat, length: nat, width: nat, b: nat)
    requires i < length && b < width
    ensures ElementByte(first + i, width, b) == ELEMENTS_OFFSET + Bytes(first, width) + Bytes(i, width) + b
    ensures Bytes(i, width) + b < Bytes(length, width)
    ensures Bytes(first + length, width) == Bytes(first, width) + Bytes(length, width)
  {
    Distribute(first, i, width);
    Distribute(first, length, width);
    Ordered(i + 1, length, width);
  }

  /**
   What a finished copy means for the guest: every element of the destination range is the element of
   the source range as it was, whichever way the ranges overlap.
   */
  lemma {:induction false} CopiesElements(o: Objects, q: Request, i: nat, b: nat)
    requires i < q.length && b < q.width && q.source in o && q.destination in o
    requires ELEMENTS_OFFSET + Bytes(q.sourceStart + q.length, q.width) <= |o[q.source]|
    requires ELEMENTS_OFFSET + Bytes(q.destinationStart + q.length, q.width) <= |o[q.destination]|
    ensures var sp := SpanOf(q);
            && sp.size > 0 && Reaches(o, sp, sp.size)
            && var from, to := ElementByte(q.sourceStart + i, q.width, b), ElementByte(q.destinationStart + i, q.width, b);
            && from < |o[q.source]| && q.destination in Progress(o, sp, sp.size)
            && to < |Progress(o, sp, sp.size)[q.destination]|
            && Progress(o, sp, sp.size)[q.destination][to] == o[q.source][from]
  {
    var sp := SpanOf(q);
    ElementLies(q.sourceStart, i, q.length, q.width, b);
    ElementLies(q.destinationStart, i, q.length, q.width, b);
    FinishedCopy(o, sp, q.destination, sp.to + Bytes(i, q.width) + b);
  }

  /** The chunk's offsets in elements and in bytes agree. */
  lemma {:induction false} ChunkInBytes(q: Request, done: nat, count: nat, width: nat)
    requires 0 < count && done + count <= q.length && width == q.width
    ensures Bytes(done, width) + Bytes(count, width) == Bytes(done + count, width) <= Bytes(q.length, width)
    ensures 0 < width ==> 0 < Bytes(count, width) && (done > 0 <==> Bytes(done, width) > 0)
    ensures var sp := SpanOf(q);
            var offset := if q.backward then q.length - done - count else done;
            && ELEMENTS_OFFSET + Bytes(q.sourceStart + offset, width) == sp.from + ChunkOffset(sp, Bytes(done, width), Bytes(count, width))
            && ELEMENTS_OFFSET + Bytes(q.destinationStart + offset, width) == sp.to + ChunkOffset(sp, Bytes(done, width), Bytes(count, width))
  {
    var offset := if q.backward then q.length - done - count else done;
    Distribute(done, count, width);
    Distribute(q.sourceStart, offset, width);
    Distribute(q.destinationStart, offset, width);
    Distribute(done + count, q.length - done - count, width);
  }

  function FirstOfChunk(q: Request, done: nat, count: nat): nat
    requires done + count <= q.length
  {
    if q.backward then q.length - done - count else done
  }

  /** `now` is the starting heap `o` with exactly the first `done` elements of the request moved. */
  ghost predicate MovedSoFar(o: Objects, q: Request, done: nat, now: Objects) {
    && (done > 0 ==> Reaches(o, SpanOf(q), Bytes(done, q.width)))
    && now == Progress(o, SpanOf(q), Bytes(done, q.width))
  }

  lemma {:induction false} NoBytes(n: nat)
    ensures Bytes(n, 0) == 0
  {
    if n > 0 {
      NoBytes(n - 1);
    }
  }

  /** Elements of no width are moved by moving nothing, as long as both arrays are there. */
  lemma {:induction false} EmptyChunk(o: Objects, q: Request, done: nat, count: nat, o': Objects)
    requires q.width == 0 && MovedSoFar(o, q, done, o')
    ensures o' == o
    ensures var there := InRange(o, q.source, ELEMENTS_OFFSET, 0) && InRange(o, q.destination, ELEMENTS_OFFSET, 0);
            && (there <==> Reaches(o, SpanOf(q), 0))
            && (there ==> Move(o, q.source, ELEMENTS_OFFSET, q.destination, ELEMENTS_OFFSET, 0) == o)
    ensures forall n: nat :: Bytes(n, 0) == 0
  {
    forall n: nat
      ensures Bytes(n, 0) == 0
    {
      NoBytes(n);
    }
    if InRange(o, q.source, ELEMENTS_OFFSET, 0) && InRange(o, q.destination, ELEMENTS_OFFSET, 0) {
      var moved := Move(o, q.source, ELEMENTS_OFFSET, q.destination, ELEMENTS_OFFSET, 0);
      assert moved[q.destination] == o[q.destination];
      assert moved == o;
    }
  }

  /** One chunk of a request, in elements. */
  lemma {:induction false} ChunkStep(o: Objects, q: Request, done: nat, count: nat, o': Objects, from: nat, to: nat, size: nat)
    requires ChoosesDirection(q) && 0 < count && done + count <= q.length
    requires MovedSoFar(o, q, done, o')
    requires from == ELEMENTS_OFFSET + Bytes(q.sourceStart + FirstOfChunk(q, done, count), q.width)
    requires to == ELEMENTS_OFFSET + Bytes(q.destinationStart + FirstOfChunk(q, done, count), q.width)
    requires size == Bytes(count, q.width)
    ensures (InRange(o', q.source, from, size) && InRange(o', q.destination, to, size))
            <==> Reaches(o, SpanOf(q), Bytes(done + count, q.width))
    ensures InRange(o', q.source, from, size) && InRange(o', q.destination, to, size) ==>
              MovedSoFar(o, q, done + count, Move(o', q.source, from, q.destination, to, size))
  {
    if q.width == 0 {
      EmptyChunk(o, q, done, count, o');
    } else {
      WideChunkStep(o, q, done, count, o', from, to, size);
    }
  }

  lemma {:induction false} WideChunkStep(o: Objects, q: Request, done: nat, count: nat, o': Objects,
                                         from: nat, to: nat, size: nat)
    requires ChoosesDirection(q) && 0 < count && done + count <= q.length && q.width > 0
    requires MovedSoFar(o, q, done, o')
    requires from == ELEMENTS_OFFSET + Bytes(q.sourceStart + FirstOfChunk(q, done, count), q.width)
    requires to == ELEMENTS_OFFSET + Bytes(q.destinationStart + FirstOfChunk(q, done, count), q.width)
    requires size == Bytes(count, q.width)
    ensures (InRange(o', q.source, from, size) && InRange(o', q.destination, to, size))
            <==> Reaches(o, SpanOf(q), Bytes(done + count, q.width))
    ensures InRange(o', q.source, from, size) && InRange(o', q.destination, to, size) ==>
              MovedSoFar(o, q, done + count, Move(o', q.source, from, q.destination, to, size))
  {
    var sp, moved := SpanOf(q), Bytes(done, q.width);
    ChunkInBytes(q, done, count, q.width);
    DirectionInBytes(q);
    assert from == sp.from + ChunkOffset(sp, moved, size) && to == sp.to + ChunkOffset(sp, moved, size);
    ChunkInsideIff(o, sp, moved, size);
    if Reaches(o, sp, Bytes(done + count, q.width)) {
      ChunkExtends(o, sp, moved, size);
    }
  }

  /**
   A request that passed the bounds check stays inside the payloads whenever each payload really
   holds its array, so none of its slices can fault.
   */
  lemma {:induction false} AcceptedRequestReaches(o: Objects, source: (nat, nat), destination: (nat, nat),
                               sourceStart: int, destinationStart: int, length: int, width: nat)
    requires source.1 <= I32_MAX && destination.1 <= I32_MAX
    requires New(source, destination, sourceStart, destinationStart, length, width).Ok?
    requires source.0 in o && ELEMENTS_OFFSET + Bytes(source.1, width) <= |o[source.0]|
    requires destination.0 in o && ELEMENTS_OFFSET + Bytes(destination.1, width) <= |o[destination.0]|
    ensures var sp := SpanOf(New(source, destination, sourceStart, destinationStart, length, width).value);
            Reaches(o, sp, sp.size)
  {
    Distribute(sourceStart, length, width);
    Ordered(sourceStart + length, source.1, width);
    Distribute(destinationStart, length, width);
    Ordered(destinationStart + length, destination.1, width);
  }

  // ---- the machine ----

  class Heap {
    var objects: Objects

    /** Block sizes are 32-bit. */
    ghost predicate Valid()
      reads this
    {
      forall r | r in objects :: |objects[r]| <= U32_MAX
    }

    /** Refuses any span that is not inside a live payload, before writing anything. */
    method CopyPayloadRange(source: nat, from: nat, destination: nat, to: nat, length: nat) returns (r: Result<(), VmFault>)
      requires Valid()
      modifies this
      ensures Valid()
      ensures r.Ok? <==> InRange(old(objects), source, from, length) && InRange(old(objects), destination, to, length)
      ensures objects == if r.Ok? then Move(old(objects), source, from, destination, to, length) else old(objects)
    {
      if source !in objects {
        return Err(InvalidReference);
      }
      if from + length > |objects[source]| {
        return Err(CorruptHeap);
      }
      if destination !in objects {
        return Err(InvalidReference);
      }
      if to + length > |objects[destination]| {
        return Err(CorruptHeap);
      }
      objects := Move(objects, source, from, destination, to, length);
      return Ok(());
    }
  }

  class PendingArrayCopy {
    var sourceStart: nat
    var destinationStart: nat
    var remaining: nat
    const source: nat
    const destination: nat
    const width: nat
    const backward: bool

    /** What was asked for, and the heap it was asked in. */
    ghost const request: Request
    ghost const initial: Objects

    ghost function Done(): int
      reads this
    {
      request.length - remaining
    }

    /** The heap is always the starting heap with exactly the finished elements moved. */
    ghost predicate Valid(heap: Heap)
      reads this, heap
    {
      && heap.Valid()
      && ChoosesDirection(request) && width <= U32_MAX / CHUNK
      && source == request.source && destination == request.destination
      && width == request.width && backward == request.backward
      && remaining <= request.length
      && sourceStart == request.sourceStart + (if backward then 0 else Done())
      && destinationStart == request.destinationStart + (if backward then 0 else Done())
      && MovedSoFar(initial, request, Done(), heap.objects)
    }

    /** A chunk of elements of this width must not overflow the unchecked product that gives its size. */
    constructor (q: Request, heap: Heap)
      requires heap.Valid() && ChoosesDirection(q) && q.width <= U32_MAX / CHUNK
      ensures Valid(heap) && remaining == q.length && request == q && initial == heap.objects
    {
      source, destination := q.source, q.destination;
      sourceStart, destinationStart := q.sourceStart, q.destinationStart;
      remaining := q.length;
      width, backward := q.width, q.backward;
      request := q;
      initial := heap.objects;
    }

    /** Copies one chunk: the offsets are computed in 32-bit arithmetic that must not overflow. */
    method CopyChunk(heap: Heap, count: nat) returns (r: Result<(), VmFault>)
      requires Valid(heap) && 0 < count <= remaining
      modifies heap
      ensures heap.Valid()
      ensures r.Ok? <==> Reaches(initial, SpanOf(request), Bytes(Done() + count, width))
      ensures if r.Ok? then MovedSoFar(initial, request, Done() + count, heap.objects) else heap.objects == old(heap.objects)
    {
      var offset := if backward then remaining - count else 0;
      var from := ByteOffset(sourceStart + offset, width);
      var to := ByteOffset(destinationStart + offset, width);
      var size := ByteSize(count, width);
      ChunkStep(initial, request, Done(), count, heap.objects, from, to, size);
      if from > U32_MAX || to > U32_MAX {
        return Err(CorruptHeap);
      }
      r := heap.CopyPayloadRange(source, from, destination, to, size);
    }

    /**
     Moves at most `budget` further elements.  The slice costs exactly the elements it moves, and
     succeeds exactly when the elements up to its end lie inside both live payloads.
     */
    method Advance(heap: Heap, budget: nat) returns (r: Result<(nat, bool), VmFault>)
      requires Valid(heap)
      modifies this, heap
      ensures Valid(heap)
      ensures var used := Min(old(remaining), budget);
              r.Ok? ==> r.value == (used, remaining == 0) && remaining == old(remaining) - used
      ensures var used := Min(old(remaining), budget);
              r.Ok? <==> used == 0 || Reaches(initial, SpanOf(request), Bytes(old(Done()) + used, width))
    {
      var used := Min(remaining, budget);
      var left: nat := used;
      ghost var target := Done() + used;
      while left != 0
        invariant left <= used && Done() == target - left && left <= remaining
        invariant Valid(heap)
      {
        var count := Min(left, CHUNK);
        ghost var done := Done();
        var copied := CopyChunk(heap, count);
        if copied.Err? {
          Ordered(done + count, target, width);
          ReachesLess(initial, SpanOf(request), Bytes(done + count, width), Bytes(target, width));
          return Err(copied.error);
        }
        remaining := remaining - count;
        if !backward {
          sourceStart := sourceStart + count;
          destinationStart := destinationStart + count;
        }
        left := left - count;
      }
      return Ok((used, remaining == 0));
    }
  }

  method ByteSize(count: nat, width: nat) returns (size: nat)
    ensures size == Bytes(count, width)
  {
    BytesIsProduct(count, width);
    size := count * width;
  }

  /** The payload offset of an element, as the code multiplies it out. */
  method ByteOffset(index: nat, width: nat) returns (offset: nat)
    ensures offset == ELEMENTS_OFFSET + Bytes(index, width)
  {
    BytesIsProduct(index, width);
    offset := index * width + ELEMENTS_OFFSET;
  }

  function Sum(budgets: seq<nat>): nat {
    if budgets == [] then 0 else Sum(budgets[..|budgets| - 1]) + budgets[|budgets| - 1]
  }

  /**
   The interpreter's use of a pending copy: one slice per budget until it is done.  However the
   budgets cut the work, the cost is the number of elements moved and the heap is the starting heap
   with exactly those moved; a fault means the request leaves a payload, and a finished copy is
   one uninterrupted move.
   */
  method ResumeSlices(copy: PendingArrayCopy, heap: Heap, budgets: seq<nat>) returns (cost: nat, done: bool, faulted: bool)
    requires copy.Valid(heap) && copy.remaining == copy.request.length
    modifies copy, heap
    ensures copy.Valid(heap)
    ensures !faulted ==> cost == Min(copy.request.length, Sum(budgets)) == copy.Done()
    ensures !faulted ==> (done <==> budgets != [] && copy.request.length <= Sum(budgets))
    ensures var sp := SpanOf(copy.request);
            && (done && !faulted ==>
                  && (copy.request.length > 0 ==> Reaches(copy.initial, sp, sp.size))
                  && heap.objects == Progress(copy.initial, sp, sp.size))
            && (faulted ==> !Reaches(copy.initial, sp, sp.size))
  {
    cost, done, faulted := 0, false, false;
    var i := 0;
    while i < |budgets| && !done
      invariant 0 <= i <= |budgets|
      invariant copy.Valid(heap)
      invariant cost == copy.Done() == Min(copy.request.length, Sum(budgets[..i]))
      invariant done <==> i > 0 && copy.remaining == 0
    {
      assert budgets[..i + 1][..i] == budgets[..i];
      ghost var after := copy.Done() + Min(copy.remaining, budgets[i]);
      var slice := copy.Advance(heap, budgets[i]);
      if slice.Err? {
        Ordered(after, copy.request.length, copy.width);
        ReachesLess(copy.initial, SpanOf(copy.request), Bytes(after, copy.width), Bytes(copy.request.length, copy.width));
        faulted := true;
        return;
      }
      cost := cost + slice.value.0;
      done := slice.value.1;
      i := i + 1;
    }
    SumGrows(budgets, i);
    assert budgets[..|budgets|] == budgets;
  }

  lemma {:induction false} SumGrows(budgets: seq<nat>, i: nat)
    requires i <= |budgets|
    ensures Sum(budgets[..i]) <= Sum(budgets)
    decreases |budgets|
  {
    if i < |budgets| {
      var shorter := budgets[..|budgets| - 1];
      assert shorter[..i] == budgets[..i];
      SumGrows(shorter, i);
    } else {
      assert budgets[..i] == budgets;
    }
  }
}
