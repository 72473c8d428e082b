/** The physical frame allocator: a bitmap of 64-bit words and a free count, against the set of
    free frames. */
module FrameAllocator {
  import opened Wrappers
  import opened Bits
  import opened Bytes
  import opened Sets

  const PAGE_SIZE: nat := 4096
  const MAX_FRAMES: nat := 262144
  const BITMAP_WORDS: nat := 4096
  const ALL_ONES: U64 := 0xFFFF_FFFF_FFFF_FFFF

  datatype AllocError = OutOfMemory | ZeroSize | BadAlignment | Overflow | InvalidAddress | DoubleFree

  // ---------- the set of free frames ----------

  datatype Pool = Pool(free: set<nat>, total: nat, base: nat)

  ghost predicate Lowest(f: nat, s: set<nat>) { f in s && forall g :: g in s ==> f <= g }

  /** What an allocation may return and leave behind. */
  ghost predicate Allocates(p: Pool, r: Result<nat, AllocError>, p': Pool)
  {
    if p.free == {} then r == Err(OutOfMemory) && p' == p
    else
      r.Ok? && exists f: nat :: Lowest(f, p.free) && r.value == p.base + f * PAGE_SIZE && p' == p.(free := p.free - {f})
  }

  function FrameOf(p: Pool, addr: nat): nat
    requires addr >= p.base
  {
    (addr - p.base) / PAGE_SIZE
  }

  ghost predicate Frees(p: Pool, addr: nat, r: Result<(), AllocError>, p': Pool)
  {
    if addr < p.base || FrameOf(p, addr) >= p.total then r == Err(InvalidAddress) && p' == p
    else if FrameOf(p, addr) in p.free then r == Err(DoubleFree) && p' == p
    else r == Ok(()) && p' == p.(free := p.free + {FrameOf(p, addr)})
  }

  // ---------- what a free erases ----------

  /** The memory with the page at offset `at` cleared. */
  function Erased(mem: seq<byte>, at: nat): (m: seq<byte>)
    requires at + PAGE_SIZE <= |mem|
    ensures |m| == |mem|
  {
    mem[..at] + Zeros(PAGE_SIZE) + mem[at + PAGE_SIZE..]
  }

  lemma ErasedAt(mem: seq<byte>, at: nat, k: nat)
    requires at + PAGE_SIZE <= |mem| && k < |mem|
    ensures Erased(mem, at)[k] == if at <= k < at + PAGE_SIZE then 0 else mem[k]
  {}

  /** Octet `k` of the memory belongs to frame `f`. */
  predicate InFrame(k: nat, f: nat) { f * PAGE_SIZE <= k < (f + 1) * PAGE_SIZE }

  /** Whatever the memory holds, the octets of frame `f` and no others are cleared. */
  ghost predicate ErasesExactly(at: nat, f: nat)
  {
    forall mem: seq<byte>, k: nat :: at + PAGE_SIZE <= |mem| && k < |mem| ==>
      Erased(mem, at)[k] == if InFrame(k, f) then 0 else mem[k]
  }

  /** Freeing by `addr` erases exactly the freed frame if and only if `addr` is the frame's first
      address. */
  lemma ErasesItsFrameIff(p: Pool, addr: nat)
    requires p.base <= addr
    ensures ErasesExactly(addr - p.base, FrameOf(p, addr)) <==> (addr - p.base) % PAGE_SIZE == 0
  {
    hide Erased;
    var at, f := addr - p.base, FrameOf(p, addr);
    if at % PAGE_SIZE == 0 {
      forall mem: seq<byte>, k: nat | at + PAGE_SIZE <= |mem| && k < |mem|
        ensures Erased(mem, at)[k] == if InFrame(k, f) then 0 else mem[k]
      {
        ErasedAt(mem, at, k);
      }
    } else {
      var mem: seq<byte> := seq(at + PAGE_SIZE, _ => 1);
      var k := f * PAGE_SIZE;
      SpillsOver(mem, p, addr, k);
      assert InFrame(k, f) && Erased(mem, at)[k] == 1;
    }
  }

  /** Any other address leaves the head of the freed frame as it was and clears as much of the frame
      after it, whether or not that one is in use. */
  lemma SpillsOver(mem: seq<byte>, p: Pool, addr: nat, k: nat)
    requires p.base <= addr && (addr - p.base) % PAGE_SIZE != 0 && addr - p.base + PAGE_SIZE <= |mem| && k < |mem|
    ensures var at, f := addr - p.base, FrameOf(p, addr);
            && f * PAGE_SIZE < at < (f + 1) * PAGE_SIZE < at + PAGE_SIZE
            && (InFrame(k, f) && k < at ==> Erased(mem, at)[k] == mem[k])
            && (InFrame(k, f + 1) && k < at + PAGE_SIZE ==> Erased(mem, at)[k] == 0)
  {
    hide Erased;
    ErasedAt(mem, addr - p.base, k);
  }

  /** So every address that an allocation returns can be freed without harm. */
  lemma HandedOutErasesItsFrame(p: Pool, r: Result<nat, AllocError>, p': Pool)
    requires Allocates(p, r, p') && r.Ok?
    ensures r.value >= p.base && FrameOf(p, r.value) in p.free && ErasesExactly(r.value - p.base, FrameOf(p, r.value))
  {
    hide ErasesExactly;
    ErasesItsFrameIff(p, r.value);
  }

  // ---------- what a range reserves ----------

  /** Some octet of `[start, end)` lies in frame `f`. */
  ghost predicate Overlaps(p: Pool, f: nat, start: nat, end: nat)
  {
    start < end && start < p.base + (f + 1) * PAGE_SIZE && p.base + f * PAGE_SIZE < end
  }

  /** An empty or reversed range reserves a frame after all when both ends lie in it and the end is
      not on its boundary. */
  ghost predicate Straddled(p: Pool, f: nat, start: nat, end: nat)
  {
    end <= start && p.base + f * PAGE_SIZE < end && start < p.base + (f + 1) * PAGE_SIZE
  }

  ghost predicate Reserved(p: Pool, f: nat, start: nat, end: nat)
  {
    Overlaps(p, f, start, end) || Straddled(p, f, start, end)
  }

  ghost predicate Reserves(p: Pool, start: nat, end: nat, p': Pool)
  {
    p' == p.(free := set f | f in p.free && !Reserved(p, f, start, end))
  }

  function FirstReserved(p: Pool, start: nat): nat { SaturatingSub(start, p.base) / PAGE_SIZE }

  function EndReserved(p: Pool, end: nat): nat { (SaturatingSub(end, p.base) + PAGE_SIZE - 1) / PAGE_SIZE }

  /** The index computation: for a proper range exactly the overlapping frames, for an empty or
      reversed one exactly the frame it straddles. */
  lemma ReservedIff(p: Pool, f: nat, start: nat, end: nat)
    ensures FirstReserved(p, start) <= f < EndReserved(p, end) <==> Reserved(p, f, start, end)
  {}

  /** Marking the frames from the first to the limit of the pool is all there is to do. */
  lemma RangeTaken(p: Pool, start: nat, end: nat, stop: nat)
    requires forall f :: f in p.free ==> f < p.total
    requires FirstReserved(p, start) <= stop
    requires var limit := if EndReserved(p, end) < p.total then EndReserved(p, end) else p.total;
             stop == if FirstReserved(p, start) <= limit then limit else FirstReserved(p, start)
    ensures Reserves(p, start, end, p.(free := set f | f in p.free && !(FirstReserved(p, start) <= f < stop)))
  {
    hide FirstReserved, EndReserved, Reserved;
    var free' := set f | f in p.free && !(FirstReserved(p, start) <= f < stop);
    forall f: nat ensures f in free' <==> f in p.free && !Reserved(p, f, start, end) {
      ReservedIff(p, f, start, end);
    }
  }

  /** When a range without octets reserves anything: both ends lie in one frame of the pool, the
      end past the frame's first octet. */
  lemma EmptyRangeReservesIff(p: Pool, start: nat, end: nat)
    requires end <= start
    ensures (exists f: nat :: f < p.total && Reserved(p, f, start, end)) <==>
              && p.base < end && (end - p.base) % PAGE_SIZE != 0 && FrameOf(p, start) == FrameOf(p, end) < p.total
  {
    if p.base < end {
      var f := FrameOf(p, end);
      if (end - p.base) % PAGE_SIZE != 0 && FrameOf(p, start) == f < p.total {
        assert Reserved(p, f, start, end);
      }
    }
  }

  /** Reversed ends inside one page: nothing to reserve, yet frame 0 is taken. */
  lemma EmptyRangeTakesFrameZero(p: Pool, p': Pool)
    requires p.base == 0 && 0 in p.free && Reserves(p, 200, 100, p')
    ensures 0 !in p'.free && forall f: nat :: !Overlaps(p, f, 200, 100)
  {
    assert Straddled(p, 0, 200, 100);
  }

  // ---------- whole runs ----------

  datatype Op =
    | Alloc(result: Result<nat, AllocError>)
    | Free(addr: nat, outcome: Result<(), AllocError>)
    | Reserve(start: nat, end: nat)

  ghost predicate Does(p: Pool, op: Op, p': Pool)
  {
    match op
    case Alloc(r) => Allocates(p, r, p')
    case Free(addr, r) => Frees(p, addr, r, p')
    case Reserve(start, end) => Reserves(p, start, end, p')
  }

  /** `states` records a run performing `ops`. */
  ghost predicate IsRun(states: seq<Pool>, ops: seq<Op>)
  {
    |states| == |ops| + 1 && forall k :: 0 <= k < |ops| ==> Does(states[k], ops[k], states[k + 1])
  }

  ghost predicate FreesFrame(p: Pool, op: Op, f: nat)
  {
    op.Free? && op.outcome.Ok? && op.addr >= p.base && FrameOf(p, op.addr) == f
  }

  /** A frame that is in use, handed out or reserved, stays in use until it is freed; until then no
      allocation returns it. */
  lemma {:induction false} LiveUntilFreed(states: seq<Pool>, ops: seq<Op>, f: nat, n: nat)
    requires IsRun(states, ops) && n <= |ops|
    requires f !in states[0].free
    requires forall k :: 0 <= k < n ==> !FreesFrame(states[k], ops[k], f)
    ensures f !in states[n].free && states[n].base == states[0].base
    ensures forall k :: 0 <= k < n && ops[k].Alloc? ==> ops[k].result != Ok(states[0].base + f * PAGE_SIZE)
  {
    if n > 0 {
      LiveUntilFreed(states, ops, f, n - 1);
      assert Does(states[n - 1], ops[n - 1], states[n]);
      assert !FreesFrame(states[n - 1], ops[n - 1], f);
    }
  }

  /** In particular two allocations return the same frame only if it was freed in between. */
  lemma NoDoubleHandOut(states: seq<Pool>, ops: seq<Op>, j: nat, k: nat)
    requires IsRun(states, ops) && j < k < |ops|
    requires ops[j].Alloc? && ops[k].Alloc? && ops[j].result.Ok? && ops[j].result == ops[k].result
    ensures exists m :: j < m < k && ops[m].Free? && ops[m].outcome.Ok? && ops[m].addr >= states[m].base
                     && states[m].base + FrameOf(states[m], ops[m].addr) * PAGE_SIZE == ops[j].result.value
  {
    assert Does(states[j], ops[j], states[j + 1]);
    var f: nat :| Lowest(f, states[j].free) && ops[j].result.value == states[j].base + f * PAGE_SIZE
          && states[j + 1] == states[j].(free := states[j].free - {f});
    var ss, os := states[j + 1..], ops[j + 1..];
    assert IsRun(ss, os) by {
      forall i | 0 <= i < |os| ensures Does(ss[i], os[i], ss[i + 1]) {
        assert Does(states[j + 1 + i], ops[j + 1 + i], states[j + 2 + i]);
      }
    }
    var n := k - (j + 1);
    assert Does(ss[n], os[n], ss[n + 1]) && os[n] == ops[k];
    SameBase(ss, os, n);
    if forall i :: 0 <= i < n ==> !FreesFrame(ss[i], os[i], f) {
      LiveUntilFreed(ss, os, f, n);
      assert false;
    }
    var i :| 0 <= i < n && FreesFrame(ss[i], os[i], f);
    SameBase(ss, os, i);
    assert ops[j + 1 + i] == os[i] && states[j + 1 + i] == ss[i];
  }

  lemma {:induction false} SameBase(states: seq<Pool>, ops: seq<Op>, n: nat)
    requires IsRun(states, ops) && n <= |ops|
    ensures states[n].base == states[0].base
  {
    if n > 0 {
      SameBase(states, ops, n - 1);
      assert Does(states[n - 1], ops[n - 1], states[n]);
    }
  }

  /** Freeing what was just handed out restores the pool; freeing it again is a double free. */
  lemma FreeUndoesAlloc(p: Pool, r: Result<nat, AllocError>, q: Pool, o: Result<(), AllocError>, p': Pool,
                        o': Result<(), AllocError>, p'': Pool)
    requires forall f :: f in p.free ==> f < p.total
    requires Allocates(p, r, q) && r.Ok? && Frees(q, r.value, o, p') && Frees(p', r.value, o', p'')
    ensures o == Ok(()) && p' == p && o' == Err(DoubleFree) && p'' == p
  {
    var f: nat :| Lowest(f, p.free) && r.value == p.base + f * PAGE_SIZE && q == p.(free := p.free - {f});
    assert FrameOf(q, r.value) == f;
    assert q.free + {f} == p.free;
  }

  /** What `free_frame` answers, and what changes: octet addresses outside the pool are invalid, a free
      frame is not freed again, any other is added to the free ones. */
  lemma FreeAnswers(p: Pool, addr: nat, r: Result<(), AllocError>, p': Pool)
    requires Frees(p, addr, r, p')
    ensures r == Err(InvalidAddress) <==> !(p.base <= addr < p.base + 4096 * p.total)
    ensures p.base <= addr < p.base + 4096 * p.total ==>
              var f := (addr - p.base) / 4096;
              && (f in p.free ==> r == Err(DoubleFree))
              && (f !in p.free ==> r == Ok(()) && p' == Pool(p.free + {f}, p.total, p.base))
    ensures r.Err? ==> p' == p
  {}

  /** A fresh pool hands out its frames in order, each once, and then no more. */
  lemma {:induction false} FreshPoolInOrder(states: seq<Pool>, ops: seq<Op>, n: nat)
    requires IsRun(states, ops) && n <= |ops|
    requires states[0].free == Below(states[0].total) && forall k :: 0 <= k < n ==> ops[k].Alloc?
    ensures var p := states[0];
            && states[n] == p.(free := set f | f in Below(p.total) && n <= f)
            && forall k :: 0 <= k < n ==>
                 ops[k] == Alloc(if k < p.total then Ok(p.base + k * 4096) else Err(OutOfMemory))
  {
    var p := states[0];
    if n == 0 {
      assert p.free == set f | f in Below(p.total) && n <= f;
    } else {
      FreshPoolInOrder(states, ops, n - 1);
      assert Does(states[n - 1], ops[n - 1], states[n]);
      NextInOrder(states[n - 1], ops[n - 1].result, states[n], n - 1);
    }
  }

  lemma NextInOrder(p: Pool, r: Result<nat, AllocError>, p': Pool, n: nat)
    requires p.free == (set f | f in Below(p.total) && n <= f) && Allocates(p, r, p')
    ensures r == if n < p.total then Ok(p.base + n * 4096) else Err(OutOfMemory)
    ensures p' == p.(free := set f | f in Below(p.total) && n + 1 <= f)
  {
    if n < p.total {
      assert n in p.free;
      var f: nat :| Lowest(f, p.free) && r.value == p.base + f * PAGE_SIZE && p' == p.(free := p.free - {f});
      assert f == n;
      assert p.free - {n} == set f | f in Below(p.total) && n + 1 <= f;
    } else {
      assert p.free == {};
      assert p.free == set f | f in Below(p.total) && n + 1 <= f;
    }
  }

  // ---------- one word of the bitmap ----------

  function Mask(b: nat): U64
    requires b < 64
  {
    Pow2Monotone(b, 63);
    Pow2Words();
    assert Pow2(64) == 2 * Pow2(63);
    Pow2(b)
  }

  function Set(w: U64, b: nat): U64
    requires b < 64
  {
    Pow2Words();
    OrBound(w, Mask(b), 64);
    Or(w, Mask(b))
  }

  function Clear(w: U64, b: nat): (r: U64)
    requires b < 64
    ensures forall i :: 0 <= i < 64 ==> (Bit(r, i) <==> Bit(w, i) && i != b)
  {
    var keep: nat := ALL_ONES - Mask(b);
    var r := And(w, keep);
    assert forall i :: 0 <= i < 64 ==> (Bit(r, i) <==> Bit(w, i) && i != b) by { ClearBits(w, b); }
    AndAtMost(w, keep);
    r
  }

  lemma ClearBits(w: U64, b: nat)
    requires b < 64
    ensures forall i :: 0 <= i < 64 ==> (Bit(And(w, ALL_ONES - Mask(b)), i) <==> Bit(w, i) && i != b)
  {
    hide And, Bit;
    Pow2Words();
    forall i | 0 <= i < 64 ensures Bit(And(w, ALL_ONES - Mask(b)), i) <==> Bit(w, i) && i != b {
      BitAnd(w, ALL_ONES - Mask(b), i);
      BitNot(Mask(b), 64, i);
      BitPow2(b, i);
    }
  }

  lemma SetBits(w: U64, b: nat)
    requires b < 64
    ensures forall i :: 0 <= i < 64 ==> (Bit(Set(w, b), i) <==> Bit(w, i) || i == b)
  {
    hide Or, Bit;
    forall i | 0 <= i < 64 ensures Bit(Set(w, b), i) <==> Bit(w, i) || i == b {
      BitOr(w, Mask(b), i);
      BitPow2(b, i);
    }
  }

  // ---------- the bitmap ----------

  /** Frames below `total` whose bit is clear. */
  ghost function FreeFrames(words: seq<U64>, total: nat): set<nat>
    requires |words| == BITMAP_WORDS && total <= MAX_FRAMES
  {
    set f: nat | f < total && !Bit(words[f / 64], f % 64)
  }

  lemma TakeFrame(words: seq<U64>, total: nat, f: nat)
    requires |words| == BITMAP_WORDS && f < total <= MAX_FRAMES
    ensures FreeFrames(words[f / 64 := Set(words[f / 64], f % 64)], total) == FreeFrames(words, total) - {f}
  {
    hide Bit, Set;
    SetBits(words[f / 64], f % 64);
    var words' := words[f / 64 := Set(words[f / 64], f % 64)];
    forall g: nat | g < total ensures Bit(words'[g / 64], g % 64) <==> Bit(words[g / 64], g % 64) || g == f {
      assert g == 64 * (g / 64) + g % 64 && f == 64 * (f / 64) + f % 64;
    }
  }

  lemma GiveFrame(words: seq<U64>, total: nat, f: nat)
    requires |words| == BITMAP_WORDS && f < total <= MAX_FRAMES
    ensures FreeFrames(words[f / 64 := Clear(words[f / 64], f % 64)], total) == FreeFrames(words, total) + {f}
  {
    hide Bit, Clear;
    var words' := words[f / 64 := Clear(words[f / 64], f % 64)];
    forall g: nat | g < total ensures Bit(words'[g / 64], g % 64) <==> Bit(words[g / 64], g % 64) && g != f {
      assert g == 64 * (g / 64) + g % 64 && f == 64 * (f / 64) + f % 64;
    }
  }

  /** `bitmap[w] & (1 << b) == 0`. */
  lemma TestBit(w: U64, b: nat)
    requires b < 64
    ensures And(w, Mask(b)) == 0 <==> !Bit(w, b)
  {
    AndPow2(w, b);
  }

  class FrameAllocator {
    const bitmap: array<U64>
    const total: nat
    const physBase: nat
    var freeCount: nat

    ghost predicate Valid()
      reads this, bitmap
    {
      && bitmap.Length == BITMAP_WORDS && total <= MAX_FRAMES
      && freeCount == |FreeFrames(bitmap[..], total)|
    }

    ghost function Abs(): Pool
      reads bitmap
      requires bitmap.Length == BITMAP_WORDS && total <= MAX_FRAMES
    {
      Pool(FreeFrames(bitmap[..], total), total, physBase)
    }

    /** A pool larger than the bitmap would be indexed out of bounds later on. */
    constructor (physBase: nat, totalFrames: nat)
      requires totalFrames <= MAX_FRAMES
      ensures Valid() && fresh(bitmap)
      ensures Abs() == Pool(Below(totalFrames), totalFrames, physBase)
    {
      bitmap := new U64[BITMAP_WORDS](_ => 0);
      total := totalFrames;
      this.physBase := physBase;
      freeCount := totalFrames;
      new;
      AllFree(bitmap[..], total);
    }

    /** Scans for the first word that is not full; returns the lowest free frame, if any. */
    method AllocFrame() returns (r: Result<nat, AllocError>)
      requires Valid()
      modifies this, bitmap
      ensures Valid() && Allocates(old(Abs()), r, Abs())
    {
      hide Bit, Set;
      if freeCount == 0 { return Err(OutOfMemory); }
      for i := 0 to BITMAP_WORDS
        invariant Valid() && bitmap[..] == old(bitmap[..]) && freeCount == old(freeCount)
        invariant forall g :: g in FreeFrames(bitmap[..], total) ==> 64 * i <= g
      {
        var word := bitmap[i];
        assert Pow2(64) == ALL_ONES + 1 by { Pow2Words(); }
        LowestClearBit(word, 64);
        if word == ALL_ONES {
          FullWord(bitmap[..], total, i);
          continue;
        }
        var bit := TrailingOnes(word);
        var f := 64 * i + bit;
        assert f / 64 == i && f % 64 == bit;
        FirstFree(bitmap[..], total, i, bit);
        if f >= total { break; }
        TakeFrame(bitmap[..], total, f);
        bitmap[i] := Set(word, bit);
        assert bitmap[..] == old(bitmap[..])[i := Set(word, bit)];
        freeCount := freeCount - 1;
        return Ok(physBase + f * PAGE_SIZE);
      }
      return Err(OutOfMemory);
    }

    /** `mem` is the memory from `physBase` on.  The PAGE_SIZE octets at `addr` are cleared before the
        frame is free; the address may lie anywhere in the frame. */
    method FreeFrame(addr: nat, mem: array<byte>) returns (r: Result<(), AllocError>)
      requires Valid() && mem as object != bitmap
      requires physBase <= addr && FrameOf(Abs(), addr) < total ==> addr - physBase + PAGE_SIZE <= mem.Length
      modifies this, bitmap, mem
      ensures Valid() && Frees(old(Abs()), addr, r, Abs())
      ensures if r.Ok? then mem[..] == Erased(old(mem[..]), addr - physBase) else mem[..] == old(mem[..])
    {
      hide Bit, Clear;
      if addr < physBase { return Err(InvalidAddress); }
      var f := (addr - physBase) / PAGE_SIZE;
      if f >= total { return Err(InvalidAddress); }
      var i, bit := f / 64, f % 64;
      TestBit(bitmap[i], bit);
      if And(bitmap[i], Mask(bit)) == 0 { return Err(DoubleFree); }
      ClearPage(mem, addr - physBase);
      GiveFrame(bitmap[..], total, f);
      bitmap[i] := Clear(bitmap[i], bit);
      assert bitmap[..] == old(bitmap[..])[i := Clear(old(bitmap[i]), bit)];
      freeCount := freeCount + 1;
      return Ok(());
    }

    method ClearPage(mem: array<byte>, at: nat)
      requires at + PAGE_SIZE <= mem.Length
      modifies mem
      ensures mem[..] == Erased(old(mem[..]), at)
    {
      forall i | at <= i < at + PAGE_SIZE { mem[i] := 0; }
    }

    /** The body of the loop: a free frame is taken, any other left as it is. */
    method TakeOne(f: nat)
      requires Valid() && f < total
      modifies this, bitmap
      ensures Valid() && Abs() == old(Abs()).(free := old(Abs()).free - {f})
    {
      hide Bit, Set, FreeFrames, And;
      var i, bit := f / 64, f % 64;
      TestBit(bitmap[i], bit);
      InFree(bitmap[..], total, f);
      if And(bitmap[i], Mask(bit)) == 0 {
        TakeFrame(bitmap[..], total, f);
        ghost var words := bitmap[..];
        bitmap[i] := Set(bitmap[i], bit);
        assert bitmap[..] == words[i := Set(words[i], bit)];
        freeCount := SaturatingSub(freeCount, 1);
      }
    }

    method ReserveRange(start: nat, end: nat)
      requires Valid()
      modifies this, bitmap
      ensures Valid() && Reserves(old(Abs()), start, end, Abs())
    {
      hide FreeFrames, Reserves;
      ghost var free := Abs().free;
      FreeBelow(bitmap[..], total);
      var first := SaturatingSub(start, physBase) / PAGE_SIZE;
      var last := (SaturatingSub(end, physBase) + PAGE_SIZE - 1) / PAGE_SIZE;
      var limit := if last < total then last else total;
      var f := first;
      while f < limit
        invariant first <= f && (f <= limit || f == first)
        invariant Valid() && Abs() == old(Abs()).(free := set g | g in free && !(first <= g < f))
      {
        TakeOne(f);
        f := f + 1;
      }
      RangeTaken(old(Abs()), start, end, f);
    }
  }

  lemma AllFree(words: seq<U64>, total: nat)
    requires |words| == BITMAP_WORDS && total <= MAX_FRAMES && forall i :: 0 <= i < |words| ==> words[i] == 0
    ensures FreeFrames(words, total) == Below(total)
  {
    hide Below;
    forall f: nat | f < total ensures !Bit(words[f / 64], f % 64) { BitOfZero(f % 64); }
  }

  lemma InFree(words: seq<U64>, total: nat, f: nat)
    requires |words| == BITMAP_WORDS && f < total <= MAX_FRAMES
    ensures f in FreeFrames(words, total) <==> !Bit(words[f / 64], f % 64)
  {
    hide Bit;
  }

  lemma FreeBelow(words: seq<U64>, total: nat)
    requires |words| == BITMAP_WORDS && total <= MAX_FRAMES
    ensures forall f :: f in FreeFrames(words, total) ==> f < total
  {}

  lemma FullWord(words: seq<U64>, total: nat, i: nat)
    requires |words| == BITMAP_WORDS && total <= MAX_FRAMES && i < BITMAP_WORDS
    requires forall k :: 0 <= k < 64 ==> Bit(words[i], k)
    requires forall g :: g in FreeFrames(words, total) ==> 64 * i <= g
    ensures forall g :: g in FreeFrames(words, total) ==> 64 * (i + 1) <= g
  {
    hide Bit;
    forall g | g in FreeFrames(words, total) ensures 64 * (i + 1) <= g {
      assert Bit(words[i], g % 64);
    }
  }

  lemma FirstFree(words: seq<U64>, total: nat, i: nat, bit: nat)
    requires |words| == BITMAP_WORDS && total <= MAX_FRAMES && i < BITMAP_WORDS && bit < 64
    requires !Bit(words[i], bit) && forall k :: 0 <= k < bit ==> Bit(words[i], k)
    requires forall g :: g in FreeFrames(words, total) ==> 64 * i <= g
    ensures if 64 * i + bit < total then Lowest(64 * i + bit, FreeFrames(words, total))
            else FreeFrames(words, total) == {}
  {
    hide Bit;
    var f := 64 * i + bit;
    assert f / 64 == i && f % 64 == bit;
    forall g | g in FreeFrames(words, total) ensures f <= g {
      assert g % 64 < bit ==> Bit(words[i], g % 64);
    }
  }
}
