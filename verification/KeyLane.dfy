/** The one-time-key store: a sliding window over a key stream, addressed by absolute offset.

    `Lane` is the abstract window, class `KeyLane` the ring buffer the kernel updates in place.
    `stream` records every octet deposited; `Valid` says that the ring, in reading order, is the
    not yet discarded tail of the stream followed by zeros. */
module KeyLane {
  import opened Wrappers
  import opened Bytes
  import opened Ring

  const CAPACITY: nat := 16384

  datatype KeyError = InsufficientKey | AlreadyConsumed | BlockTooLarge | EmptyInput

  /** `window[i]` is the key octet at absolute offset `base + i`. */
  datatype Window = Lane(base: nat, window: seq<byte>)

  type Lane = l: Window | |l.window| <= CAPACITY witness Lane(0, [])

  const EMPTY: Lane := Lane(0, [])

  datatype Taken = Taken(lane: Lane, offset: nat, key: seq<byte>)

  function Drop(l: Lane, n: nat): Lane
    requires n <= |l.window|
  {
    Lane(l.base + n, l.window[n..])
  }

  /** A full lane gives up its oldest unused octets. */
  function LaneDeposit(l: Lane, key: seq<byte>): Result<Lane, KeyError>
  {
    if key == [] then Err(EmptyInput)
    else if |key| > CAPACITY then Err(BlockTooLarge)
    else
      var overflow := if |l.window| + |key| > CAPACITY then |l.window| + |key| - CAPACITY else 0;
      Ok(Lane(l.base + overflow, l.window[overflow..] + key))
  }

  function LaneTake(l: Lane, n: nat): Result<Taken, KeyError>
  {
    if n == 0 then Err(EmptyInput)
    else if n > |l.window| then Err(InsufficientKey)
    else Ok(Taken(Drop(l, n), l.base, l.window[..n]))
  }

  function Peek(l: Lane, offset: nat, n: nat): Result<seq<byte>, KeyError>
  {
    if n == 0 then Err(EmptyInput)
    else if offset < l.base then Err(AlreadyConsumed)
    else if offset - l.base + n > |l.window| then Err(InsufficientKey)
    else Ok(l.window[offset - l.base..offset - l.base + n])
  }

  function LaneConsume(l: Lane, offset: nat, n: nat): Result<Lane, KeyError>
  {
    if offset < l.base then Err(AlreadyConsumed)
    else if offset - l.base + n > |l.window| then Err(InsufficientKey)
    else Ok(Drop(l, offset - l.base + n))
  }

  function Wipe(l: Lane): Lane { Lane(l.base + |l.window|, []) }

  // ---------- the window is always the tail of the stream ----------

  ghost predicate Windows(l: Lane, stream: seq<byte>)
  {
    l.base <= |stream| && l.window == stream[l.base..]
  }

  /** An accepted block extends the stream; the base moves only as far as the capacity forces it. */
  lemma DepositSlides(l: Lane, stream: seq<byte>, key: seq<byte>)
    requires Windows(l, stream) && LaneDeposit(l, key).Ok?
    ensures Windows(LaneDeposit(l, key).value, stream + key)
    ensures var forced := |stream| + |key| - CAPACITY;
            LaneDeposit(l, key).value.base == if l.base >= forced then l.base else forced
  {}

  lemma DropKeepsWindow(l: Lane, stream: seq<byte>, n: nat)
    requires Windows(l, stream) && n <= |l.window|
    ensures Windows(Drop(l, n), stream)
  {}

  /** What a lane hands out is the stream at the offset it reports. */
  lemma ReadsStream(l: Lane, stream: seq<byte>, offset: nat, n: nat)
    requires Windows(l, stream)
    ensures LaneTake(l, n).Ok? ==>
              LaneTake(l, n).value.offset == l.base && l.base + n <= |stream|
              && LaneTake(l, n).value.key == stream[l.base..l.base + n]
    ensures Peek(l, offset, n).Ok? <==> n > 0 && l.base <= offset && offset + n <= |stream|
    ensures Peek(l, offset, n).Ok? ==> Peek(l, offset, n).value == stream[offset..offset + n]
  {}

  /** Every answer of a lane, in terms of the stream: which octets can be had, and where the window starts
      afterwards. */
  lemma LaneAnswers(l: Lane, stream: seq<byte>, offset: nat, n: nat)
    requires Windows(l, stream)
    ensures LaneTake(l, n) ==
            if n == 0 then Err(EmptyInput)
            else if l.base + n > |stream| then Err(InsufficientKey)
            else Ok(Taken(Lane(l.base + n, stream[l.base + n..]), l.base, stream[l.base..l.base + n]))
    ensures Peek(l, offset, n) ==
            if n == 0 then Err(EmptyInput)
            else if offset < l.base then Err(AlreadyConsumed)
            else if offset + n > |stream| then Err(InsufficientKey)
            else Ok(stream[offset..offset + n])
    ensures LaneConsume(l, offset, n) ==
            if offset < l.base then Err(AlreadyConsumed)
            else if offset + n > |stream| then Err(InsufficientKey)
            else Ok(Lane(offset + n, stream[offset + n..]))
    ensures Wipe(l) == Lane(|stream|, [])
  {
    if n <= |l.window| { assert l.window[n..] == stream[l.base + n..] && l.window[..n] == stream[l.base..l.base + n]; }
    if l.base <= offset && offset + n <= |stream| {
      assert l.window[offset - l.base + n..] == stream[offset + n..];
      assert l.window[offset - l.base..offset - l.base + n] == stream[offset..offset + n];
    }
  }

  /** Blocks of 1 to 16384 octets are taken, and no others. */
  lemma DepositIff(l: Lane, key: seq<byte>)
    ensures LaneDeposit(l, key).Ok? <==> 1 <= |key| <= 16384
    ensures |key| == 0 ==> LaneDeposit(l, key) == Err(EmptyInput)
    ensures |key| > 16384 ==> LaneDeposit(l, key) == Err(BlockTooLarge)
  {}

  // ---------- the ring buffer ----------

  class KeyLane {
    const buf: array<byte>
    var read: nat
    var count: nat
    var base: nat
    ghost var stream: seq<byte>

    ghost predicate Shape()
      reads this
    {
      buf.Length == CAPACITY && read < CAPACITY && count <= CAPACITY
    }

    /** The cells in reading order. */
    ghost function Cells(): (c: seq<byte>)
      reads this, buf
      requires Shape()
      ensures |c| == CAPACITY
    {
      Rotate(buf[..], read)
    }

    ghost predicate Valid()
      reads this, buf
    {
      && Shape()
      && base + count == |stream| < TWO64
      && Cells() == stream[base..] + Zeros(CAPACITY - count)
    }

    ghost function Abs(): Lane
      reads this
      requires Shape() && base + count == |stream|
    {
      Lane(base, stream[base..])
    }

    constructor ()
      ensures Valid() && fresh(buf)
      ensures stream == [] && Abs() == EMPTY
    {
      buf := new byte[CAPACITY](_ => 0);
      read, count, base := 0, 0, 0;
      stream := [];
      new;
      assert buf[..] == Zeros(CAPACITY);
    }

    /** Zeroes the `n` oldest cells and moves the window past them. */
    method Discard(n: nat)
      requires Valid() && n <= count
      modifies this, buf
      ensures Valid() && stream == old(stream)
      ensures Abs() == Drop(old(Abs()), n)
    {
      ghost var cells := Cells();
      for i := 0 to n
        invariant Shape() && count == old(count) && base == old(base) && stream == old(stream)
        invariant Cells() == cells[i..] + Zeros(i)
      {
        ghost var s := buf[..];
        RotateErase(s, read, 0);
        ErasedStep(cells, i);
        buf[read] := 0;
        assert buf[..] == s[read := 0];
        read := (read + 1) % CAPACITY;
      }
      DroppedCells(stream, base, count, n);
      count := count - n;
      base := base + n;
    }

    method Deposit(key: seq<byte>) returns (r: Result<(), KeyError>)
      requires Valid() && |stream| + |key| < TWO64
      modifies this, buf
      ensures Valid()
      ensures stream == if r.Ok? then old(stream) + key else old(stream)
      ensures match LaneDeposit(old(Abs()), key)
              case Ok(l) => r == Ok(()) && Abs() == l
              case Err(e) => r == Err(e) && Abs() == old(Abs())
    {
      if key == [] { return Err(EmptyInput); }
      if |key| > CAPACITY { return Err(BlockTooLarge); }
      var overflow := if count + |key| > CAPACITY then count + |key| - CAPACITY else 0;
      if overflow > 0 { Discard(overflow); }
      assert |Abs().window| == count;
      Append(key);
      return Ok(());
    }

    /** The copy loop of `Deposit`, once there is room. */
    method Append(key: seq<byte>)
      requires Valid() && count + |key| <= CAPACITY && |stream| + |key| < TWO64
      modifies this, buf
      ensures Valid() && stream == old(stream) + key && base == old(base)
    {
      hide Rotate;
      ghost var cells := Cells();
      assert cells == Filled(cells, key, count, 0);
      hide Filled;
      var w := (read + count) % CAPACITY;
      for i := 0 to |key|
        invariant count == old(count) && read == old(read) && base == old(base) && stream == old(stream)
        invariant w == (read + count + i) % CAPACITY
        invariant Cells() == Filled(cells, key, count, i)
      {
        ghost var s := buf[..];
        RotateStore(s, read, count + i, key[i]);
        SlotStep(read, count + i, CAPACITY);
        StoredStep(cells, key, count, i);
        buf[w] := key[i];
        assert buf[..] == s[w := key[i]];
        w := (w + 1) % CAPACITY;
      }
      FilledCells(stream, key, base, count);
      count := count + |key|;
      stream := stream + key;
    }

    /** Reads `len` octets, `skip` past the read position, without consuming them. */
    method CopyOut(skip: nat, out: array<byte>, len: nat)
      requires Valid() && skip + len <= count && 0 < len <= out.Length && out != buf
      modifies out
      ensures out[..len] == stream[base + skip..base + skip + len]
      ensures out[len..] == old(out[len..])
    {
      var r := (read + skip) % CAPACITY;
      for i := 0 to len
        invariant r == (read + skip + i) % CAPACITY
        invariant out[..i] == stream[base + skip..base + skip + i]
        invariant out[len..] == old(out[len..])
      {
        RotateAt(buf[..], read, skip + i);
        SlotStep(read, skip + i, CAPACITY);
        assert Cells()[skip + i] == stream[base + skip + i];
        out[i] := buf[r];
        assert out[..i + 1] == out[..i] + [out[i]];
        r := (r + 1) % CAPACITY;
      }
    }

    /** Sender: removes the first `len` octets and reports the offset they started at. */
    method Take(out: array<byte>, len: nat) returns (r: Result<U64, KeyError>)
      requires Valid() && len <= out.Length && out != buf
      modifies this, buf, out
      ensures Valid() && stream == old(stream)
      ensures match LaneTake(old(Abs()), len)
              case Ok(t) => r == Ok(t.offset) && out[..len] == t.key && out[len..] == old(out[len..]) && Abs() == t.lane
              case Err(e) => r == Err(e) && out[..] == old(out[..]) && Abs() == old(Abs())
    {
      if len == 0 { return Err(EmptyInput); }
      if len > count { return Err(InsufficientKey); }
      var off := base;
      CopyOut(0, out, len);
      Discard(len);
      return Ok(off);
    }

    /** Receiver: reads at an absolute offset; the additions are checked for 64-bit overflow. */
    method PeekAt(offset: U64, out: array<byte>, len: nat) returns (r: Result<(), KeyError>)
      requires Valid() && len <= out.Length < TWO64 && out != buf
      modifies out
      ensures match Peek(Abs(), offset, len)
              case Ok(key) => r == Ok(()) && out[..len] == key && out[len..] == old(out[len..])
              case Err(e) => r == Err(e) && out[..] == old(out[..])
    {
      if len == 0 { return Err(EmptyInput); }
      if offset < base { return Err(AlreadyConsumed); }
      var skip: U64 := offset - base;
      if skip + len >= TWO64 { return Err(InsufficientKey); }
      var need: U64 := skip + len;
      if need > count { return Err(InsufficientKey); }
      CopyOut(skip, out, len);
      return Ok(());
    }

    /** Receiver: discards everything up to `offset + len`, skipped octets included. */
    method ConsumeThrough(offset: U64, len: nat) returns (r: Result<(), KeyError>)
      requires Valid() && len < TWO64
      modifies this, buf
      ensures Valid() && stream == old(stream)
      ensures match LaneConsume(old(Abs()), offset, len)
              case Ok(l) => r == Ok(()) && Abs() == l
              case Err(e) => r == Err(e) && Abs() == old(Abs())
    {
      if offset < base { return Err(AlreadyConsumed); }
      var skip: U64 := offset - base;
      if skip + len >= TWO64 { return Err(InsufficientKey); }
      var end: U64 := skip + len;
      if end > count { return Err(InsufficientKey); }
      Discard(end);
      return Ok(());
    }

    method WipeAll()
      requires Valid()
      modifies this, buf
      ensures Valid() && stream == old(stream)
      ensures Abs() == Wipe(old(Abs())) && buf[..] == Zeros(CAPACITY)
    {
      forall i | 0 <= i < CAPACITY { buf[i] := 0; }
      base := base + count;
      count := 0;
      read := 0;
    }
  }

  /** The ring contents after `i` octets of `key` have been stored behind the window. */
  ghost function Filled(cells: seq<byte>, key: seq<byte>, count: nat, i: nat): seq<byte>
    requires i <= |key| && count + |key| <= |cells|
  {
    cells[..count] + key[..i] + cells[count + i..]
  }

  lemma StoredStep(cells: seq<byte>, key: seq<byte>, count: nat, i: nat)
    requires i < |key| && count + |key| <= |cells| && |Filled(cells, key, count, i)| > count + i
    ensures Filled(cells, key, count, i)[count + i := key[i]] == Filled(cells, key, count, i + 1)
  {}

  lemma FilledCells(stream: seq<byte>, key: seq<byte>, base: nat, count: nat)
    requires base + count == |stream| && count + |key| <= CAPACITY
    ensures Filled(stream[base..] + Zeros(CAPACITY - count), key, count, |key|)
         == (stream + key)[base..] + Zeros(CAPACITY - (count + |key|))
  {}

  lemma ErasedStep(cells: seq<byte>, i: nat)
    requires i < |cells|
    ensures (cells[i..] + Zeros(i))[1..] + [0] == cells[i + 1..] + Zeros(i + 1)
  {}

  lemma DroppedCells(stream: seq<byte>, base: nat, count: nat, n: nat)
    requires base + count == |stream| && n <= count <= CAPACITY
    ensures (stream[base..] + Zeros(CAPACITY - count))[n..] + Zeros(n) ==
              stream[base + n..] + Zeros(CAPACITY - (count - n))
  {}
}
