/** The lock-free bump allocator: any number of threads in its load / compare-exchange loop, the
    scheduler free to interleave them and the weak exchange free to fail spuriously. */
module BumpAllocator {
  import opened Wrappers
  import opened Bits
  import opened Bytes
  import opened FrameAllocator

  datatype Block = Block(start: nat, size: nat, align: nat)
  {
    function End(): nat { start + size }
  }

  predicate IsPowerOfTwo(x: nat, k: nat) { x == Pow2(k) }

  /** `is_power_of_two` on a 64-bit size. */
  ghost predicate Aligned64(align: nat) { exists k: nat :: k < 64 && IsPowerOfTwo(align, k) }

  /** `(current + (align - 1)) & !(align - 1)`, both sums checked. */
  function RoundUp(current: U64, align: U64): Result<nat, AllocError>
    requires align > 0
  {
    if current + (align - 1) >= TWO64 then Err(Overflow)
    else Ok(And(current + (align - 1), TWO64 - align))
  }

  /** Where a thread that has loaded `current` wants to move `next`. */
  function Plan(current: U64, size: U64, align: U64, heapEnd: U64): Result<Block, AllocError>
    requires align > 0
  {
    match RoundUp(current, align)
    case Err(e) => Err(e)
    case Ok(start) =>
      if start + size >= TWO64 then Err(Overflow)
      else if start + size > heapEnd then Err(OutOfMemory)
      else Ok(Block(start, size, align))
  }

  /** Rounding yields the first multiple of `align` not below `current`. */
  lemma RoundUpIs(current: U64, align: U64, k: nat)
    requires k < 64 && IsPowerOfTwo(align, k)
    ensures align > 0
    ensures RoundUp(current, align).Ok? <==> current + (align - 1) < TWO64
    ensures RoundUp(current, align).Ok? ==>
              var a := RoundUp(current, align).value;
              a % align == 0 && current <= a < current + align
  {
    Pow2Words();
    hide Pow2, And;
    var y := current + (align - 1);
    if y < TWO64 {
      AndHighMask(y, k, 64);
      var q := y / align;
      assert y == align * q + y % align;
      QuotientUnique(y - y % align, align, q, 0);
    }
  }

  /** The exact plan: with `a` the first multiple of `align` not below `current`, the block goes to `a` if
      it fits; an overflowing sum is told from a full heap. */
  lemma PlanIs(current: U64, size: U64, align: U64, heapEnd: U64, k: nat, a: nat)
    requires k < 64 && IsPowerOfTwo(align, k)
    requires a % align == 0 && current <= a < current + align
    ensures Plan(current, size, align, heapEnd) ==
            if current + (align - 1) >= TWO64 || a + size >= TWO64 then Err(Overflow)
            else if a + size > heapEnd then Err(OutOfMemory)
            else Ok(Block(a, size, align))
  {
    hide And;
    RoundUpIs(current, align, k);
    if current + (align - 1) < TWO64 {
      OneMultiple(a, RoundUp(current, align).value, current, align);
    }
  }

  lemma PlanAligned(current: U64, size: U64, align: U64, heapEnd: U64, k: nat)
    requires k < 64 && IsPowerOfTwo(align, k)
    ensures align > 0
    ensures Plan(current, size, align, heapEnd).Ok? ==>
              var b := Plan(current, size, align, heapEnd).value;
              b.size == size && b.align == align && b.start % align == 0 && current <= b.start && b.End() <= heapEnd
  {
    RoundUpIs(current, align, k);
    hide RoundUp, IsPowerOfTwo;
  }

  lemma OneMultiple(a: nat, b: nat, x: nat, d: nat)
    requires d > 0 && a % d == 0 && b % d == 0 && x <= a < x + d && x <= b < x + d
    ensures a == b
  {
    assert a == d * (a / d) && b == d * (b / d);
    assert a - b == d * (a / d - b / d);
    if a / d > b / d { MulMono(d, 1, a / d - b / d); }
    if a / d < b / d { MulMono(d, a / d - b / d, -1); }
  }

  // ---------- the interleaved machine ----------

  datatype Thread = Idle | Trying(current: U64, size: U64, align: U64)

  datatype Heap = Heap(start: U64, end: U64, next: U64, threads: map<nat, Thread>, blocks: seq<Block>)

  datatype Event =
    | Begin(t: nat, size: U64, align: U64)
    | Attempt(t: nat, spurious: bool)

  function Init(start: U64, end: U64): Heap { Heap(start, end, start, map[], []) }

  function ThreadOf(h: Heap, t: nat): Thread { if t in h.threads then h.threads[t] else Idle }

  /** `Begin` checks the arguments and loads `next`; `Attempt` is one turn of the loop. */
  ghost function Next(h: Heap, e: Event): Heap
  {
    match e
    case Begin(t, size, align) =>
      if ThreadOf(h, t).Trying? || size == 0 || !Aligned64(align) then h
      else h.(threads := h.threads[t := Trying(h.next, size, align)])
    case Attempt(t, spurious) =>
      match ThreadOf(h, t)
      case Idle => h
      case Trying(current, size, align) =>
        if align == 0 then h
        else match Plan(current, size, align, h.end)
          case Err(_) => h.(threads := h.threads[t := Idle])
          case Ok(block) =>
            if !spurious && h.next == current
            then h.(next := block.End(), threads := h.threads[t := Idle], blocks := h.blocks + [block])
            else h.(threads := h.threads[t := Trying(h.next, size, align)])
  }

  ghost function Run(h: Heap, es: seq<Event>): Heap
  {
    if es == [] then h else Next(Run(h, es[..|es| - 1]), es[|es| - 1])
  }

  ghost predicate GoodBlock(h: Heap, b: Block)
  {
    b.size > 0 && b.align > 0 && b.start % b.align == 0 && h.start <= b.start && b.End() <= h.next
  }

  ghost predicate Inv(h: Heap)
  {
    && h.start <= h.next
    && (h.blocks != [] ==> h.next <= h.end)
    && (forall t :: t in h.threads && h.threads[t].Trying? ==> h.threads[t].size > 0 && Aligned64(h.threads[t].align))
    && (forall i :: 0 <= i < |h.blocks| ==> GoodBlock(h, h.blocks[i]))
    && (forall i, j :: 0 <= i < j < |h.blocks| ==> h.blocks[i].End() <= h.blocks[j].start)
  }

  lemma NextKeepsInv(h: Heap, e: Event)
    requires Inv(h)
    ensures Inv(Next(h, e)) && Next(h, e).start == h.start && Next(h, e).end == h.end
  {
    if e.Attempt? && ThreadOf(h, e.t).Trying? {
      var th := ThreadOf(h, e.t);
      var k :| k < 64 && IsPowerOfTwo(th.align, k);
      PlanAligned(th.current, th.size, th.align, h.end, k);
      hide Plan, Aligned64, IsPowerOfTwo;
      var h' := Next(h, e);
      forall i | 0 <= i < |h'.blocks| ensures GoodBlock(h', h'.blocks[i]) {
        if i < |h.blocks| { assert GoodBlock(h, h.blocks[i]); }
      }
      forall i, j | 0 <= i < j < |h'.blocks| ensures h'.blocks[i].End() <= h'.blocks[j].start {
        assert GoodBlock(h, h.blocks[i]);
      }
    }
  }

  lemma {:induction false} RunKeepsInv(h: Heap, es: seq<Event>)
    requires Inv(h)
    ensures Inv(Run(h, es)) && Run(h, es).start == h.start && Run(h, es).end == h.end
    decreases |es|
  {
    hide Next, Inv;
    if es != [] {
      RunKeepsInv(h, es[..|es| - 1]);
      NextKeepsInv(Run(h, es[..|es| - 1]), es[|es| - 1]);
    }
  }

  /** A thread that is not disturbed gets its block, at the first aligned address, if and only if the sums
      do not overflow and the block ends inside the heap; otherwise the heap stays as it is. */
  lemma UndisturbedIff(h: Heap, t: nat, size: U64, align: U64, k: nat, a: nat)
    requires ThreadOf(h, t).Idle? && size > 0 && k < 64 && IsPowerOfTwo(align, k)
    requires a % align == 0 && h.next <= a < h.next + align
    ensures var h' := Next(Next(h, Begin(t, size, align)), Attempt(t, false));
            var fits := h.next + (align - 1) < TWO64 && a + size <= h.end;
            && ThreadOf(h', t).Idle?
            && h'.blocks == (if fits then h.blocks + [Block(a, size, align)] else h.blocks)
            && h'.next == if fits then a + size else h.next
  {
    hide Plan;
    PlanIs(h.next, size, align, h.end, k, a);
    assert Aligned64(align);
  }

  /** An exchange that fails, for a real reason or a spurious one, only loads the pointer again. */
  lemma FailedExchangeReloads(h: Heap, t: nat, spurious: bool)
    requires ThreadOf(h, t).Trying? && ThreadOf(h, t).align > 0
    requires Plan(ThreadOf(h, t).current, ThreadOf(h, t).size, ThreadOf(h, t).align, h.end).Ok?
    requires spurious || h.next != ThreadOf(h, t).current
    ensures var h' := Next(h, Attempt(t, spurious));
            && h' == h.(threads := h'.threads)
            && ThreadOf(h', t) == ThreadOf(h, t).(current := h.next)
            && forall u :: u != t ==> ThreadOf(h', u) == ThreadOf(h, u)
  {
    hide Plan;
  }

  /** Under every interleaving the blocks handed out are aligned, inside the heap, and disjoint. */
  lemma BlocksAreDisjoint(start: U64, end: U64, es: seq<Event>)
    ensures var bs := Run(Init(start, end), es).blocks;
            && (forall i :: 0 <= i < |bs| ==>
                  bs[i].align > 0 && bs[i].start % bs[i].align == 0 && bs[i].size > 0 && start <= bs[i].start
                  && bs[i].End() <= end)
            && (forall i, j :: 0 <= i < j < |bs| ==> bs[i].End() <= bs[j].start)
  {
    hide Run;
    assert Inv(Init(start, end));
    RunKeepsInv(Init(start, end), es);
    var h := Run(Init(start, end), es);
    forall i | 0 <= i < |h.blocks|
      ensures h.blocks[i].align > 0 && h.blocks[i].start % h.blocks[i].align == 0 && h.blocks[i].size > 0
           && start <= h.blocks[i].start && h.blocks[i].End() <= end
    {
      assert GoodBlock(h, h.blocks[i]);
    }
  }

  /** Some thread always gets on: `next` only moves when a block is handed out, so an exchange that fails
      for a real reason means that another thread has succeeded. */
  lemma {:induction false} MovesOnlyWithBlocks(h: Heap, es: seq<Event>)
    ensures |Run(h, es).blocks| >= |h.blocks|
    ensures Run(h, es).next != h.next ==> |Run(h, es).blocks| > |h.blocks|
    decreases |es|
  {
    hide Plan, Aligned64;
    if es != [] {
      MovesOnlyWithBlocks(h, es[..|es| - 1]);
    }
  }
}
