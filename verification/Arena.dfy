/**
 A bump allocator over a list of equally sized chunks. Addresses are natural numbers; the
 system allocator appears as the address it would hand out for the next chunk.
 */
module Arena {
  import opened Wrappers

  /** What a value needs: a size and a positive alignment. */
  datatype Layout = Layout(size: nat, align: nat) {
    ghost predicate Ok() {
      align >= 1
    }
  }

  /** The least address at or above `addr` that is a multiple of `align`. */
  function AlignUp(addr: nat, align: nat): (r: nat)
    requires align >= 1
    ensures r % align == 0
    ensures addr <= r < addr + align
  {
    AlignUpFacts(addr, align);
    addr + (align - addr % align) % align
  }

  lemma MulAtLeast(a: int, d: int)
    requires d >= 1
    ensures a >= 1 ==> a * d >= d
    ensures a <= -1 ==> a * d <= -d
  {
    if a >= 1 {
      assert (a - 1) * d >= 0;
    } else if a <= -1 {
      assert (-1 - a) * d >= 0;
    }
  }

  lemma RemainderIsUnique(x: int, d: int, q: int, r: int)
    requires d >= 1 && x == q * d + r && 0 <= r < d
    ensures x % d == r
  {
    var a := q - x / d;
    assert a * d == q * d - x / d * d;
    assert x == x / d * d + x % d;
    MulAtLeast(a, d);
  }

  lemma AlignUpFacts(addr: nat, align: nat)
    requires align >= 1
    ensures var pad := (align - addr % align) % align; 0 <= pad < align && (addr + pad) % align == 0
  {
    var q, m := addr / align, addr % align;
    assert addr == q * align + m;
    if m == 0 {
      RemainderIsUnique(align, align, 1, 0);
    } else {
      RemainderIsUnique(align - m, align, 0, align - m);
      assert addr + (align - m) == (q + 1) * align + 0;
      RemainderIsUnique(addr + (align - m), align, q + 1, 0);
    }
  }

  lemma AlignUpIsLeast(addr: nat, align: nat, other: nat)
    requires align >= 1 && addr <= other && other % align == 0
    ensures AlignUp(addr, align) <= other
  {
    var r := AlignUp(addr, align);
    var a := r / align - other / align;
    assert r == r / align * align && other == other / align * align;
    assert a * align == r / align * align - other / align * align;
    MulAtLeast(a, align);
  }

  datatype Chunk = Chunk(start: nat, end: nat, offset: nat) {
    /** Where the layout would go, and whether it fits. */
    function Place(layout: Layout): (r: Option<nat>)
      requires layout.align >= 1
      ensures r.Some? ==> offset <= r.value && r.value % layout.align == 0 && r.value + layout.size <= end
    {
      var aligned := AlignUp(offset, layout.align);
      if aligned + layout.size <= end then Some(aligned) else None
    }

    function Reset(): Chunk {
      this.(offset := start)
    }
  }

  function NewChunk(start: nat, size: nat): Chunk {
    Chunk(start, start + size, start)
  }

  /** One allocation on the chunk list: the new list, the new current index, and the address (none is a panic). */
  function Placed(chunks: seq<Chunk>, current: nat, layout: Layout, offered: nat, size: nat): (r: (seq<Chunk>, nat, Option<nat>))
    requires current < |chunks| && layout.align >= 1
    ensures |chunks| <= |r.0| && current <= r.1 < |r.0|
    ensures forall i :: 0 <= i < |chunks| ==> r.0[i].start == chunks[i].start && r.0[i].end == chunks[i].end
  {
    match chunks[current].Place(layout)
    case Some(ptr) => (chunks[current := chunks[current].(offset := ptr + layout.size)], current, Some(ptr))
    case None =>
      var more := if current + 1 < |chunks| then chunks else chunks + [NewChunk(offered, size)];
      match more[current + 1].Place(layout)
      case Some(ptr) => (more[current + 1 := more[current + 1].(offset := ptr + layout.size)], current + 1, Some(ptr))
      case None => (more, current + 1, None)
  }

  function Range(from: nat, count: nat): seq<nat> {
    seq(count, i => from + i)
  }

  function AllReset(chunks: seq<Chunk>): seq<Chunk> {
    seq(|chunks|, i requires 0 <= i < |chunks| => chunks[i].Reset())
  }

  // ---------- The arena ----------

  /** Shared between an arena generation and the boxes it handed out. */
  class Token {
    var valid: bool

    constructor ()
      ensures valid
    {
      valid := true;
    }
  }

  /** A stored value: where it is, what it needed, and which allocation it came from. */
  datatype Element = Element(ptr: nat, layout: Layout, id: nat)

  /** A handle to a stored value. */
  datatype ArenaBox = ArenaBox(ptr: nat, id: nat, token: Token)

  ghost predicate ChunkOk(c: Chunk, size: nat) {
    0 < c.start <= c.offset <= c.end == c.start + size
  }

  ghost predicate Apart(a: nat, aEnd: nat, b: nat, bEnd: nat) {
    aEnd <= b || bEnd <= a
  }

  ghost predicate ChunksOk(chunks: seq<Chunk>, current: nat, size: nat) {
    && size >= 1 && current < |chunks|
    && (forall i :: 0 <= i < |chunks| ==> ChunkOk(chunks[i], size))
    && (forall i, j :: 0 <= i < j < |chunks| ==> Apart(chunks[i].start, chunks[i].end, chunks[j].start, chunks[j].end))
    && (forall i :: current < i < |chunks| ==> chunks[i].offset == chunks[i].start)
  }

  /** The system allocator's promise: a new chunk at `offered` overlaps no existing one. */
  ghost predicate FreshChunk(chunks: seq<Chunk>, offered: nat, size: nat) {
    0 < offered && forall i :: 0 <= i < |chunks| ==> Apart(chunks[i].start, chunks[i].end, offered, offered + size)
  }

  /** The element lies in the used part of chunk `h`, aligned. */
  ghost predicate Housed(chunks: seq<Chunk>, e: Element, h: nat) {
    && h < |chunks| && e.layout.Ok()
    && chunks[h].start <= e.ptr && e.ptr + e.layout.size <= chunks[h].offset
    && e.ptr % e.layout.align == 0
  }

  ghost predicate Disjoint(a: Element, b: Element) {
    Apart(a.ptr, a.ptr + a.layout.size, b.ptr, b.ptr + b.layout.size)
  }

  ghost predicate ElementsOk(chunks: seq<Chunk>, current: nat, elements: seq<Element>, home: seq<nat>) {
    && |home| == |elements|
    && (forall k :: 0 <= k < |elements| ==> home[k] <= current && Housed(chunks, elements[k], home[k]))
    && (forall j, k :: 0 <= j < k < |elements| ==> Disjoint(elements[j], elements[k]))
  }

  lemma PlacedChunksOk(chunks: seq<Chunk>, current: nat, size: nat, layout: Layout, offered: nat)
    requires ChunksOk(chunks, current, size) && layout.Ok()
    requires current + 1 == |chunks| ==> FreshChunk(chunks, offered, size)
    ensures var (chunks', current', ptr) := Placed(chunks, current, layout, offered, size);
            && ChunksOk(chunks', current', size)
            && |chunks| <= |chunks'| && current <= current' < |chunks'|
            && (forall i :: 0 <= i < |chunks| ==> chunks'[i].start == chunks[i].start && chunks'[i].offset >= chunks[i].offset)
  {
  }

  /** Placing a layout keeps the chunk list good, and the new block clear of everything already there. */
  lemma PlacedIsGood(chunks: seq<Chunk>, current: nat, size: nat, elements: seq<Element>, home: seq<nat>,
                     layout: Layout, offered: nat, id: nat)
    requires ChunksOk(chunks, current, size) && ElementsOk(chunks, current, elements, home) && layout.Ok()
    requires current + 1 == |chunks| ==> FreshChunk(chunks, offered, size)
    ensures var (chunks', current', ptr) := Placed(chunks, current, layout, offered, size);
            && ElementsOk(chunks', current', elements, home)
            && (ptr.Some? ==> ElementsOk(chunks', current', elements + [Element(ptr.value, layout, id)], home + [current']))
  {
    var (chunks', current', ptr) := Placed(chunks, current, layout, offered, size);
    PlacedChunksOk(chunks, current, size, layout, offered);
    forall k | 0 <= k < |elements|
      ensures home[k] <= current && Housed(chunks', elements[k], home[k])
    {
      assert Housed(chunks, elements[k], home[k]);
    }
    if ptr.Some? {
      var e := Element(ptr.value, layout, id);
      assert Housed(chunks', e, current');
      forall k | 0 <= k < |elements|
        ensures Disjoint(elements[k], e)
      {
        NewBlockIsApart(chunks, current, size, elements[k], home[k], layout, offered);
      }
    }
  }

  /** The new block overlaps no block that is already housed. */
  lemma NewBlockIsApart(chunks: seq<Chunk>, current: nat, size: nat, e: Element, h: nat, layout: Layout, offered: nat)
    requires ChunksOk(chunks, current, size) && layout.Ok() && h <= current && Housed(chunks, e, h)
    requires current + 1 == |chunks| ==> FreshChunk(chunks, offered, size)
    requires Placed(chunks, current, layout, offered, size).2.Some?
    ensures var ptr := Placed(chunks, current, layout, offered, size).2.value;
            Apart(e.ptr, e.ptr + e.layout.size, ptr, ptr + layout.size)
  {
    assert ChunkOk(chunks[h], size) && ChunkOk(chunks[current], size);
    if chunks[current].Place(layout).Some? {
      if h != current {
        assert Apart(chunks[h].start, chunks[h].end, chunks[current].start, chunks[current].end);
      }
    } else if current + 1 < |chunks| {
      assert ChunkOk(chunks[current + 1], size);
      assert Apart(chunks[h].start, chunks[h].end, chunks[current + 1].start, chunks[current + 1].end);
    } else {
      assert Apart(chunks[h].start, chunks[h].end, offered, offered + size);
    }
  }

  /** An allocation fits exactly when it fits in the current chunk or in an empty next one. */
  lemma PlacedFitsIff(chunks: seq<Chunk>, current: nat, size: nat, layout: Layout, offered: nat)
    requires ChunksOk(chunks, current, size) && layout.Ok()
    ensures var next := if current + 1 < |chunks| then chunks[current + 1].start else offered;
            Placed(chunks, current, layout, offered, size).2.Some? <==>
            || AlignUp(chunks[current].offset, layout.align) + layout.size <= chunks[current].end
            || AlignUp(next, layout.align) + layout.size <= next + size
    ensures layout.size + layout.align - 1 <= size ==> Placed(chunks, current, layout, offered, size).2.Some?
    ensures layout.size > size ==> Placed(chunks, current, layout, offered, size).2.None?
  {
  }

  /** Boxes are numbered in order; the dropped values come first, and the live ones share the current token. */
  ghost predicate Ledger(boxes: seq<ArenaBox>, dropped: seq<nat>, elements: seq<Element>, valid: Token) {
    && |boxes| == |dropped| + |elements|
    && (forall k :: 0 <= k < |boxes| ==> boxes[k].id == k)
    && (forall k :: 0 <= k < |dropped| ==> dropped[k] == k)
    && (forall k :: |dropped| <= k < |boxes| ==>
          && boxes[k].token == valid
          && elements[k - |dropped|].id == k
          && elements[k - |dropped|].ptr == boxes[k].ptr)
  }

  lemma LedgerPush(boxes: seq<ArenaBox>, dropped: seq<nat>, elements: seq<Element>, valid: Token, ptr: nat, layout: Layout)
    requires Ledger(boxes, dropped, elements, valid)
    ensures Ledger(boxes + [ArenaBox(ptr, |boxes|, valid)], dropped, elements + [Element(ptr, layout, |boxes|)], valid)
  {
  }

  class Arena {
    var chunks: seq<Chunk>
    var elements: seq<Element>
    var valid: Token
    var current: nat
    const chunkSize: nat
    /** How many values were ever stored; it numbers them. */
    var issued: nat
    /** The chunk each element lies in. */
    ghost var home: seq<nat>
    /** Every box ever handed out; box `k` is for allocation `k`. */
    ghost var boxes: seq<ArenaBox>
    /** Which values were dropped, in the order of dropping. */
    ghost var dropped: seq<nat>
    /** The highest chunk index ever current. */
    ghost var highest: nat

    ghost function Tokens(): set<Token>
      reads this
    {
      {valid} + set b | b in boxes :: b.token
    }

    ghost predicate Valid()
      reads this, Tokens()
    {
      && ChunksOk(chunks, current, chunkSize)
      && ElementsOk(chunks, current, elements, home)
      && |chunks| == highest + 1 && current <= highest
      && issued == |boxes| && Ledger(boxes, dropped, elements, valid)
      && valid.valid
      && (forall k :: 0 <= k < |dropped| ==> !boxes[k].token.valid)
    }

    constructor (chunkSize: nat, start: nat)
      requires chunkSize >= 1 && start > 0
      ensures Valid() && fresh(valid) && boxes == [] && dropped == [] && this.chunkSize == chunkSize
      ensures Capacity() == chunkSize
    {
      this.chunkSize := chunkSize;
      chunks, elements, current := [NewChunk(start, chunkSize)], [], 0;
      valid := new Token();
      issued, home, boxes, dropped, highest := 0, [], [], [], 0;
    }

    function Capacity(): nat
      reads this
    {
      |chunks| * chunkSize
    }

    /** Drops every stored value in order, invalidates the boxes, and makes all chunks empty again. */
    method Clear()
      requires Valid()
      modifies this, valid
      ensures Valid() && fresh(valid) && boxes == old(boxes) && highest == old(highest)
      ensures elements == [] && issued == old(issued) && dropped == old(dropped) + Range(|old(dropped)|, |old(elements)|)
      ensures |dropped| == |boxes|
      ensures chunks == AllReset(old(chunks)) && current == 0
    {
      valid.valid := false;
      valid := new Token();
      dropped := dropped + Range(|dropped|, |elements|);
      elements, home := [], [];
      var index := 0;
      while index <= current
        modifies this`chunks
        invariant 0 <= index <= current + 1 && |chunks| == |old(chunks)|
        invariant forall i :: 0 <= i < |chunks| ==>
                    chunks[i] == if i < index then old(chunks)[i].Reset() else old(chunks)[i]
      {
        chunks := chunks[index := chunks[index].Reset()];
        index := index + 1;
      }
      assert chunks == AllReset(old(chunks));
      current := 0;
    }

    /** Finds room for a layout, moving on to the next chunk, new or empty, when the current one is too full. */
    method Bump(layout: Layout, offered: nat) returns (ptr: Option<nat>)
      requires current < |chunks| && layout.Ok()
      modifies this`chunks, this`current
      ensures (chunks, current, ptr) == Placed(old(chunks), old(current), layout, offered, chunkSize)
    {
      ptr := chunks[current].Place(layout);
      if ptr.Some? {
        chunks := chunks[current := chunks[current].(offset := ptr.value + layout.size)];
        return;
      }
      current := current + 1;
      if current >= |chunks| {
        chunks := chunks + [NewChunk(offered, chunkSize)];
        assert current == |chunks| - 1;
      }
      ptr := chunks[current].Place(layout);
      if ptr.Some? {
        chunks := chunks[current := chunks[current].(offset := ptr.value + layout.size)];
      }
    }

    /** Stores a value; `None` is the panic of a layout that does not fit in an empty chunk. */
    method Alloc(layout: Layout, offered: nat) returns (r: Option<ArenaBox>)
      requires Valid() && layout.Ok()
      requires FreshChunk(chunks, offered, chunkSize)
      modifies this`chunks, this`current, this`elements, this`home, this`boxes, this`issued, this`highest
      ensures Valid()
      ensures var (chunks', current', ptr) := Placed(old(chunks), old(current), layout, offered, chunkSize);
              && chunks == chunks' && current == current'
              && (match ptr
                  case None => r.None? && boxes == old(boxes) && elements == old(elements)
                  case Some(p) => && r == Some(ArenaBox(p, |old(boxes)|, valid))
                                  && boxes == old(boxes) + [r.value]
                                  && elements == old(elements) + [Element(p, layout, |old(boxes)|)])
      ensures Capacity() >= old(Capacity()) && highest == if current > old(highest) then current else old(highest)
    {
      PlacedChunksOk(chunks, current, chunkSize, layout, offered);
      PlacedIsGood(chunks, current, chunkSize, elements, home, layout, offered, issued);
      ghost var oldCount := |chunks|;
      var placed := Bump(layout, offered);
      highest := if current > highest then current else highest;
      MulMonotone(oldCount, |chunks|, chunkSize);
      if placed.None? {
        return None;
      }
      LedgerPush(boxes, dropped, elements, valid, placed.value, layout);
      elements := elements + [Element(placed.value, layout, issued)];
      home := home + [current];
      var box := ArenaBox(placed.value, issued, valid);
      boxes := boxes + [box];
      issued := issued + 1;
      r := Some(box);
    }

    /** Dereferencing a box panics after its arena was cleared. */
    method Deref(box: ArenaBox) returns (r: Option<nat>)
      requires Valid() && box in boxes
      ensures r == if box.id < |dropped| then None else Some(box.ptr)
      ensures r.Some? ==> exists e :: e in elements && e.id == box.id && e.ptr == box.ptr
    {
      ghost var k :| 0 <= k < |boxes| && boxes[k] == box;
      if !box.token.valid {
        return None;
      }
      assert elements[k - |dropped|] in elements;
      r := Some(box.ptr);
    }

    /** Dropping the arena clears it: every value ever stored has then been dropped, once. */
    method Drop()
      requires Valid()
      modifies this, valid
      ensures |dropped| == |old(boxes)| && forall k :: 0 <= k < |dropped| ==> dropped[k] == k
    {
      Clear();
    }
  }

  lemma MulMonotone(a: nat, b: nat, c: nat)
    requires a <= b
    ensures a * c <= b * c
  {
    assert b * c - a * c == (b - a) * c;
    assert (b - a) * c >= 0;
  }

  // ---------- Repeating a run after a clear ----------

  /** A run of allocations without a clear: the chunk list, the current index and the addresses. */
  function Run(chunks: seq<Chunk>, current: nat, layouts: seq<Layout>, offers: seq<nat>, size: nat)
    : (r: (seq<Chunk>, nat, seq<Option<nat>>))
    requires current < |chunks| && |offers| == |layouts|
    requires forall k :: 0 <= k < |layouts| ==> layouts[k].align >= 1
    ensures |chunks| <= |r.0| && r.1 < |r.0| && |r.2| == |layouts|
    ensures forall i :: 0 <= i < |chunks| ==> r.0[i].start == chunks[i].start && r.0[i].end == chunks[i].end
    decreases |layouts|
  {
    if layouts == [] then (chunks, current, [])
    else
      var (chunks1, current1, ptr) := Placed(chunks, current, layouts[0], offers[0], size);
      var (chunks2, current2, ptrs) := Run(chunks1, current1, layouts[1..], offers[1..], size);
      (chunks2, current2, [ptr] + ptrs)
  }

  /** `more` already has, empty, the chunks that a run from `chunks` is about to acquire. */
  lemma {:induction false} RunWithSpareChunks(chunks: seq<Chunk>, more: seq<Chunk>, current: nat, layouts: seq<Layout>,
                                              offers: seq<nat>, offers': seq<nat>, size: nat)
    requires current < |chunks| <= |more| && |offers| == |offers'| == |layouts|
    requires forall k :: 0 <= k < |layouts| ==> layouts[k].align >= 1
    requires more[..|chunks|] == chunks
    requires var last := Run(chunks, current, layouts, offers, size).0;
             |more| == |last| && forall i :: |chunks| <= i < |more| ==> more[i] == last[i].Reset()
    ensures Run(more, current, layouts, offers', size) == Run(chunks, current, layouts, offers, size)
    decreases |layouts|
  {
    assert forall i :: 0 <= i < |chunks| ==> more[i] == more[..|chunks|][i];
    if layouts == [] {
      assert more == chunks;
    } else {
      var (chunks1, current1, ptr) := Placed(chunks, current, layouts[0], offers[0], size);
      var (more1, currentMore, ptrMore) := Placed(more, current, layouts[0], offers'[0], size);
      if chunks[current].Place(layouts[0]).None? && current + 1 == |chunks| {
        assert chunks1[current + 1].start == offers[0];
        assert more[current + 1] == NewChunk(offers[0], size);
      }
      assert more1[..|chunks1|] == chunks1;
      RunWithSpareChunks(chunks1, more1, current1, layouts[1..], offers[1..], offers'[1..], size);
    }
  }

  /**
   A frame that allocates the same layouts as the one before `Clear` gets the same addresses
   and needs no new chunk, whatever the system allocator would offer.
   */
  lemma RepeatedFrameReusesMemory(chunks: seq<Chunk>, layouts: seq<Layout>, offers: seq<nat>, offers': seq<nat>, size: nat)
    requires |chunks| > 0 && chunks == AllReset(chunks) && |offers| == |offers'| == |layouts|
    requires forall k :: 0 <= k < |layouts| ==> layouts[k].align >= 1
    ensures var frame := Run(chunks, 0, layouts, offers, size);
            Run(AllReset(frame.0), 0, layouts, offers', size) == frame
  {
    var frame := Run(chunks, 0, layouts, offers, size);
    var again := AllReset(frame.0);
    assert forall i :: 0 <= i < |chunks| ==> AllReset(chunks)[i] == chunks[i].Reset();
    assert again[..|chunks|] == chunks;
    RunWithSpareChunks(chunks, again, 0, layouts, offers, offers', size);
  }

  // ---------- No room is wasted ----------

  /** After a block comes the next one, at the least aligned address, as long as the chunk has room for it. */
  lemma BlocksFollowEachOther(chunks: seq<Chunk>, current: nat, first: Layout, second: Layout, offered: nat, offered': nat, size: nat)
    requires current < |chunks| && first.Ok() && second.Ok() && Placed(chunks, current, first, offered, size).2.Some?
    ensures var (chunks1, current1, ptr) := Placed(chunks, current, first, offered, size);
            var next := AlignUp(ptr.value + first.size, second.align);
            next + second.size <= chunks1[current1].end ==>
              Placed(chunks1, current1, second, offered', size).1 == current1
              && Placed(chunks1, current1, second, offered', size).2 == Some(next)
  {
  }

  /** What a layout takes at most, wherever it goes. */
  function Padded(layout: Layout): nat
    requires layout.align >= 1
  {
    layout.size + layout.align - 1
  }

  function AllPadded(layouts: seq<Layout>): nat
    requires forall k :: 0 <= k < |layouts| ==> layouts[k].align >= 1
  {
    if layouts == [] then 0 else Padded(layouts[0]) + AllPadded(layouts[1..])
  }

  /** A run whose padded sizes fit in what is left of the current chunk stays in that chunk, and never panics. */
  lemma {:induction false} RunStaysInChunk(chunks: seq<Chunk>, current: nat, layouts: seq<Layout>, offers: seq<nat>, size: nat)
    requires current < |chunks| && |offers| == |layouts|
    requires forall k :: 0 <= k < |layouts| ==> layouts[k].align >= 1
    requires chunks[current].offset + AllPadded(layouts) <= chunks[current].end
    ensures var (chunks', current', ptrs) := Run(chunks, current, layouts, offers, size);
            && |chunks'| == |chunks| && current' == current
            && (forall i :: 0 <= i < |chunks| && i != current ==> chunks'[i] == chunks[i])
            && chunks[current].offset <= chunks'[current].offset <= chunks[current].offset + AllPadded(layouts)
            && forall k :: 0 <= k < |ptrs| ==>
                 ptrs[k].Some? && chunks[current].offset <= ptrs[k].value
                 && ptrs[k].value + layouts[k].size <= chunks[current].offset + AllPadded(layouts)
    decreases |layouts|
  {
    if layouts != [] {
      var (chunks1, current1, ptr) := Placed(chunks, current, layouts[0], offers[0], size);
      assert ptr.Some? && chunks1[current].offset <= chunks[current].offset + Padded(layouts[0]);
      RunStaysInChunk(chunks1, current1, layouts[1..], offers[1..], size);
    }
  }
}
