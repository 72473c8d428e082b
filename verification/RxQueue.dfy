/** The receive queue of one session: four fixed payload buffers used as a ring. */
module RxQueue {
  import opened Wrappers
  import opened Bytes
  import opened Qtls
  import opened Ring
  import opened Sessions

  /** The buffer `i` places after the head. */
  function SlotAt(head: nat, i: nat): (s: nat)
    requires head < RX_SLOTS && i < RX_SLOTS
    ensures s < RX_SLOTS && s == (head + i) % RX_SLOTS
  {
    if head + i < RX_SLOTS then head + i else head + i - RX_SLOTS
  }

  lemma SlotsDiffer(head: nat, i: nat, j: nat)
    requires head < RX_SLOTS && i < j < RX_SLOTS
    ensures SlotAt(head, i) != SlotAt(head, j)
  {}

  lemma SlotNext(head: nat, i: nat)
    requires head < RX_SLOTS && i < RX_SLOTS
    ensures SlotAt(SlotAt(head, 1), i) == if i + 1 < RX_SLOTS then SlotAt(head, i + 1) else head
    ensures i + 1 < RX_SLOTS ==> SlotAt(head, i + 1) != head
  {}

  lemma PushRing(rows: seq<seq<byte>>, head: nat, count: nat, data: seq<byte>)
    requires |rows| == RX_SLOTS && head < RX_SLOTS && count < RX_SLOTS
    ensures Rotate(rows[SlotAt(head, count) := data], head)[..count + 1] == Rotate(rows, head)[..count] + [data]
  {
    RotateStore(rows, head, count, data);
    hide Rotate, SlotAt;
    assert (head + count) % |rows| == SlotAt(head, count);
  }

  lemma OldestRow(rows: seq<seq<byte>>, head: nat, count: nat)
    requires |rows| == RX_SLOTS && head < RX_SLOTS && 0 < count <= RX_SLOTS
    ensures Rotate(rows, head)[..count][0] == rows[head]
  {}

  lemma PopRing(rows: seq<seq<byte>>, head: nat, count: nat, blank: seq<byte>)
    requires |rows| == RX_SLOTS && head < RX_SLOTS && 0 < count <= RX_SLOTS
    ensures Rotate(rows[head := blank], SlotAt(head, 1))[..count - 1] == Rotate(rows, head)[..count][1..]
  {
    RotateErase(rows, head, blank);
    hide Rotate, SlotAt;
    assert (head + 1) % |rows| == SlotAt(head, 1);
    var cells := Rotate(rows, head);
    assert (cells[1..] + [blank])[..count - 1] == cells[..count][1..];
  }

  class RxQueue {
    const msgs: array2<byte>
    const lens: array<nat>
    var head: nat
    var count: nat

    ghost predicate Sized()
      reads lens
    {
      && msgs.Length0 == RX_SLOTS && msgs.Length1 == MAX_PAYLOAD && lens.Length == RX_SLOTS
      && forall s :: 0 <= s < RX_SLOTS ==> lens[s] <= MAX_PAYLOAD
    }

    ghost predicate Shape()
      reads this, lens
    {
      Sized() && head < RX_SLOTS && count <= RX_SLOTS
    }

    ghost predicate Blank(s: nat)
      reads msgs
      requires s < msgs.Length0
    {
      forall j :: 0 <= j < msgs.Length1 ==> msgs[s, j] == 0
    }

    /** Only the octets of queued messages are ever non-zero. */
    ghost predicate Clean()
      reads this, lens, msgs
      requires Shape()
    {
      && (forall s, j :: 0 <= s < RX_SLOTS && lens[s] <= j < MAX_PAYLOAD ==> msgs[s, j] == 0)
      && forall i :: count <= i < RX_SLOTS ==> Blank(SlotAt(head, i))
    }

    ghost predicate Valid()
      reads this, lens, msgs
    {
      Shape() && Clean()
    }

    /** What the four buffers hold, each up to its length. */
    ghost function Rows(): (rows: seq<seq<byte>>)
      reads lens, msgs
      requires Sized()
      ensures |rows| == RX_SLOTS
      ensures forall s :: 0 <= s < RX_SLOTS ==> |rows[s]| == lens[s]
      ensures forall s, j :: 0 <= s < RX_SLOTS && 0 <= j < lens[s] ==> rows[s][j] == msgs[s, j]
    {
      seq(RX_SLOTS, s requires 0 <= s < RX_SLOTS && Sized() reads lens, msgs =>
        seq(lens[s], j requires 0 <= j < MAX_PAYLOAD && 0 <= s < RX_SLOTS && Sized() reads lens, msgs => msgs[s, j]))
    }

    /** The queued messages, oldest first. */
    ghost function Contents(): (q: seq<seq<byte>>)
      reads this, lens, msgs
      requires Shape()
      ensures |q| == count
    {
      Rotate(Rows(), head)[..count]
    }

    constructor ()
      ensures Valid() && fresh(msgs) && fresh(lens) && Contents() == []
    {
      msgs := new byte[RX_SLOTS, MAX_PAYLOAD]((_, _) => 0);
      lens := new nat[RX_SLOTS](_ => 0);
      head, count := 0, 0;
    }

    /** The copy into a blank buffer. */
    method Store(s: nat, data: seq<byte>)
      requires Sized() && s < RX_SLOTS && Blank(s) && |data| <= MAX_PAYLOAD
      modifies msgs, lens
      ensures Sized() && Rows() == old(Rows())[s := data] && lens[s] == |data|
      ensures forall t :: 0 <= t < RX_SLOTS && t != s ==> lens[t] == old(lens[t])
      ensures forall t, j :: 0 <= t < RX_SLOTS && t != s && 0 <= j < MAX_PAYLOAD ==> msgs[t, j] == old(msgs[t, j])
      ensures forall j :: |data| <= j < MAX_PAYLOAD ==> msgs[s, j] == 0
    {
      for j := 0 to |data|
        invariant lens[..] == old(lens[..])
        invariant forall j' :: 0 <= j' < j ==> msgs[s, j'] == data[j']
        invariant forall t, j' :: 0 <= t < RX_SLOTS && 0 <= j' < MAX_PAYLOAD && (t != s || j' >= j) ==>
                    msgs[t, j'] == old(msgs[t, j'])
      {
        msgs[s, j] := data[j];
      }
      lens[s] := |data|;
      ghost var rows := old(Rows());
      forall t | 0 <= t < RX_SLOTS ensures Rows()[t] == rows[s := data][t] {}
    }

    /** A full queue refuses the message. */
    method Push(data: seq<byte>) returns (ok: bool)
      requires Valid() && |data| <= MAX_PAYLOAD
      modifies this`count, lens, msgs
      ensures Valid()
      ensures ok == (|old(Contents())| < RX_SLOTS)
      ensures Contents() == if ok then old(Contents()) + [data] else old(Contents())
    {
      if count == RX_SLOTS { return false; }
      Append(data);
      return true;
    }

    /** The first free buffer takes the message. */
    method Append(data: seq<byte>)
      requires Valid() && count < RX_SLOTS && |data| <= MAX_PAYLOAD
      modifies this`count, lens, msgs
      ensures Valid() && Contents() == old(Contents()) + [data]
    {
      hide Rotate, SlotAt, Rows;
      var s := SlotAt(head, count);
      PushRing(Rows(), head, count, data);
      Store(s, data);
      forall i | count < i < RX_SLOTS ensures Blank(SlotAt(head, i)) { SlotsDiffer(head, count, i); }
      count := count + 1;
    }

    /** Hands over the oldest message if the caller's buffer can take it, and clears its slot. */
    method Pop(out: array<byte>) returns (r: Option<nat>)
      requires Valid() && out as object != lens
      modifies this`head, this`count, msgs, out
      ensures Valid()
      ensures match r
              case Some(n) => old(Contents()) != [] && n == |old(Contents())[0]| <= out.Length
                           && out[..n] == old(Contents())[0] && out[n..] == old(out[n..])
                           && Contents() == old(Contents())[1..]
              case None =>
                (old(Contents()) == [] || out.Length < |old(Contents())[0]|) && out[..] == old(out[..])
                && Contents() == old(Contents())
    {
      if count == 0 { return None; }
      var n := lens[head];
      if out.Length < n { return None; }
      OldestRow(Rows(), head, count);
      CopyRow(head, out);
      DropOldest();
      return Some(n);
    }

    /** Clears the oldest buffer and moves the head on. */
    method DropOldest()
      requires Valid() && count > 0
      modifies this`head, this`count, msgs
      ensures Valid() && Contents() == old(Contents())[1..]
    {
      hide Rotate, SlotAt;
      PopRing(Rows(), head, count, Zeros(lens[head]));
      Erase(head);
      forall i | count - 1 <= i < RX_SLOTS ensures Blank(SlotAt(SlotAt(head, 1), i)) { SlotNext(head, i); }
      head := SlotAt(head, 1);
      count := count - 1;
    }

    method CopyRow(s: nat, out: array<byte>)
      requires Sized() && s < RX_SLOTS && lens[s] <= out.Length && out as object != lens
      modifies out
      ensures out[..lens[s]] == Rows()[s] && out[lens[s]..] == old(out[lens[s]..])
    {
      for j := 0 to lens[s]
        invariant out[..j] == Rows()[s][..j]
        invariant out[lens[s]..] == old(out[lens[s]..])
      {
        out[j] := msgs[s, j];
        assert out[..j + 1] == out[..j] + [out[j]];
      }
    }

    method Erase(s: nat)
      requires Sized() && s < RX_SLOTS
      modifies msgs
      ensures Sized() && Rows() == old(Rows())[s := Zeros(lens[s])] && Blank(s)
      ensures forall t, j :: 0 <= t < RX_SLOTS && t != s && 0 <= j < MAX_PAYLOAD ==> msgs[t, j] == old(msgs[t, j])
    {
      forall j | 0 <= j < MAX_PAYLOAD { msgs[s, j] := 0; }
      ghost var rows := old(Rows());
      forall t | 0 <= t < RX_SLOTS ensures Rows()[t] == rows[s := Zeros(lens[s])][t] {}
    }

    method Wipe()
      requires Valid()
      modifies this`count, msgs
      ensures Valid() && Contents() == []
      ensures forall s :: 0 <= s < RX_SLOTS ==> Blank(s)
    {
      forall s, j | 0 <= s < RX_SLOTS && 0 <= j < MAX_PAYLOAD { msgs[s, j] := 0; }
      count := 0;
    }
  }
}
