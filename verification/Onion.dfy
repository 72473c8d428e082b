/** Onion encryption over three word-count sessions: the innermost layer is sealed first, each relay
    peels one. */
module Onion {
  import opened Wrappers
  import opened Bytes
  import opened WcAuth

  const HOPS: nat := 3

  datatype OnionError = InvalidHopCount | Wc(error: WcError)

  type Path = hops: seq<Session> | |hops| == HOPS witness seq(HOPS, _ => Session(Zeros(32), 0, Sender))

  datatype Wrapped = Wrapped(hops: Path, result: Result<seq<byte>, WcError>)

  /** Seals with hop `i - 1`, then `i - 2`, down to hop 0; a failure leaves the hops already used advanced. */
  function Wrap(hops: Path, i: nat, data: seq<byte>): Wrapped
    requires i <= HOPS
    decreases i
  {
    if i == 0 then Wrapped(hops, Ok(data))
    else match SealWith(hops[i - 1], data)
      case Err(e) => Wrapped(hops, Err(e))
      case Ok(a) => Wrap(hops[i - 1 := hops[i - 1].(wc := a.session.wc)], i - 1, a.data)
  }

  datatype Peeled = Peeled(hops: Path, result: Result<seq<byte>, WcError>)

  /** The relays 0, 1, ... `n - 1` each open one layer, in that order. */
  function Peel(hops: Path, n: nat, data: seq<byte>): Peeled
    requires n <= HOPS
    decreases n
  {
    if n == 0 then Peeled(hops, Ok(data))
    else
      var p := Peel(hops, n - 1, data);
      match p.result
      case Err(_) => p
      case Ok(d) => match OpenWith(p.hops[n - 1], d)
        case Err(e) => Peeled(p.hops, Err(e))
        case Ok(a) => Peeled(p.hops[n - 1 := p.hops[n - 1].(wc := a.session.wc)], Ok(a.data))
  }

  ghost predicate InStepBelow(s: Path, r: Path, n: nat)
    requires n <= HOPS
  {
    forall i :: 0 <= i < n ==> InStep(s[i], r[i])
  }

  /** Hop `i` still has room on its counter for the layer it has to seal. */
  predicate Room(hops: Path, len: nat)
  {
    && hops[2].wc + BytesToWords(len) < TWO64
    && hops[1].wc + BytesToWords(len + MAR_HEADER_LEN) < TWO64
    && hops[0].wc + BytesToWords(len + 2 * MAR_HEADER_LEN) < TWO64
  }

  predicate Senders(hops: Path) { hops[0].role == Sender && hops[1].role == Sender && hops[2].role == Sender }

  const LONGEST: nat := 65480

  lemma SealOkIff(s: Session, pt: seq<byte>)
    requires s.role == Sender
    ensures SealWith(s, pt).Ok? <==> 1 <= |pt| <= MAX_MSG_LEN && s.wc + BytesToWords(|pt|) < TWO64
    ensures pt == [] ==> SealWith(s, pt) == Err(EmptyMessage)
    ensures |pt| > MAX_MSG_LEN ==> SealWith(s, pt) == Err(MessageTooLong)
    ensures SealWith(s, pt).Ok? ==>
              var a := SealWith(s, pt).value;
              |a.data| == MAR_HEADER_LEN + |pt| && a.session == s.(wc := s.wc + BytesToWords(|pt|))
  {
    hide TagOf, ToLE;
  }

  /** Three layers fit exactly for 1 to 65480 octets, as long as no counter runs out.  What the exit hop
      has sealed and an outer hop then refuses leaves the exit hop advanced: only a message the exit
      hop itself refuses goes without a trace. */
  lemma WrapOutcome(hops: Path, pt: seq<byte>)
    requires Senders(hops)
    ensures var w := Wrap(hops, HOPS, pt);
            && (w.result.Ok? <==> 1 <= |pt| <= LONGEST && Room(hops, |pt|))
            && (w.hops == hops <==> !(1 <= |pt| <= MAX_MSG_LEN && hops[2].wc + BytesToWords(|pt|) < TWO64))
            && (w.result.Err? && Room(hops, |pt|) ==>
                  w.result == Err(if pt == [] then EmptyMessage else MessageTooLong))
  {
    hide SealWith, BytesToWords, Wrap;
    SealOkIff(hops[2], pt);
    TraceIff(hops, pt);
    WrapExit(hops, pt);
    if SealWith(hops[2], pt).Ok? {
      var a2 := SealWith(hops[2], pt).value;
      OuterTwo(hops[2 := hops[2].(wc := a2.session.wc)], a2.data);
    }
  }

  lemma WrapExit(hops: Path, pt: seq<byte>)
    ensures var a := SealWith(hops[2], pt);
            Wrap(hops, HOPS, pt) == if a.Err? then Wrapped(hops, Err(a.error))
                                    else Wrap(hops[2 := hops[2].(wc := a.value.session.wc)], 2, a.value.data)
  {
    hide SealWith;
  }

  lemma TraceIff(hops: Path, pt: seq<byte>)
    ensures Wrap(hops, HOPS, pt).hops == hops <==> SealWith(hops[2], pt).Err?
  {
    hide SealWith;
    if SealWith(hops[2], pt).Ok? {
      var a := SealWith(hops[2], pt).value;
      SealAdvances(hops[2], pt);
      WrapKeeps(hops[2 := hops[2].(wc := a.session.wc)], 2, a.data);
    }
  }

  /** The hops 1 and 0, given a non-empty layer. */
  lemma OuterTwo(hops: Path, data: seq<byte>)
    requires hops[0].role == Sender && hops[1].role == Sender && data != []
    ensures var r := Wrap(hops, 2, data).result;
            var room := hops[1].wc + BytesToWords(|data|) < TWO64
                        && hops[0].wc + BytesToWords(|data| + MAR_HEADER_LEN) < TWO64;
            && (r.Ok? <==> |data| + MAR_HEADER_LEN <= MAX_MSG_LEN && room)
            && (r.Err? && room ==> r == Err(MessageTooLong))
  {
    SealOkIff(hops[1], data);
    hide SealWith, BytesToWords;
    if SealWith(hops[1], data).Ok? {
      var a := SealWith(hops[1], data).value;
      OuterOne(hops[1 := hops[1].(wc := a.session.wc)], a.data);
    }
  }

  lemma OuterOne(hops: Path, data: seq<byte>)
    requires hops[0].role == Sender && data != []
    ensures var r := Wrap(hops, 1, data).result; var room := hops[0].wc + BytesToWords(|data|) < TWO64;
            && (r.Ok? <==> |data| <= MAX_MSG_LEN && room)
            && (r.Err? && room ==> r == Err(MessageTooLong))
  {
    SealOkIff(hops[0], data);
    hide SealWith, BytesToWords;
  }

  /** Wrapping with the hops below `i` leaves the others alone, and no counter goes back. */
  lemma {:induction false} WrapKeeps(hops: Path, i: nat, data: seq<byte>)
    requires i <= HOPS
    ensures var w := Wrap(hops, i, data);
            forall j :: 0 <= j < HOPS ==>
              && w.hops[j] == hops[j].(wc := w.hops[j].wc) && w.hops[j].wc >= hops[j].wc
              && (j >= i ==> w.hops[j] == hops[j])
    decreases i
  {
    hide SealWith;
    if i > 0 && SealWith(hops[i - 1], data).Ok? {
      var a := SealWith(hops[i - 1], data).value;
      SealAdvances(hops[i - 1], data);
      WrapKeeps(hops[i - 1 := hops[i - 1].(wc := a.session.wc)], i - 1, a.data);
    }
  }

  lemma {:induction false} PeelUndoesWrapBelow(s: Path, r: Path, n: nat, data: seq<byte>)
    requires n <= HOPS && InStepBelow(s, r, n) && Wrap(s, n, data).result.Ok?
    ensures var w := Wrap(s, n, data); var p := Peel(r, n, w.result.value);
            && p.result == Ok(data) && InStepBelow(w.hops, p.hops, n)
            && forall j :: n <= j < HOPS ==> w.hops[j] == s[j] && p.hops[j] == r[j]
    decreases n
  {
    hide SealWith, OpenWith;
    if n > 0 {
      var a := SealWith(s[n - 1], data).value;
      GenuineMar(s[n - 1], r[n - 1], data);
      var s' := s[n - 1 := s[n - 1].(wc := a.session.wc)];
      assert InStepBelow(s', r, n - 1) by {
        forall i | 0 <= i < n - 1 ensures InStep(s'[i], r[i]) { assert InStep(s[i], r[i]); }
      }
      PeelUndoesWrapBelow(s', r, n - 1, a.data);
    }
  }

  /** For 1 to 65480 octets, and as long as no counter runs out, peeling at hops 0, 1, 2 undoes the
      wrapping and leaves all pairs in step; anything else is refused by the sender. */
  lemma PeelUndoesWrap(s: Path, r: Path, pt: seq<byte>)
    requires InStepBelow(s, r, HOPS)
    ensures var w := Wrap(s, HOPS, pt);
            && (w.result.Ok? <==> 1 <= |pt| <= LONGEST && Room(s, |pt|))
            && (w.result.Ok? ==>
                  var p := Peel(r, HOPS, w.result.value);
                  p.result == Ok(pt) && InStepBelow(w.hops, p.hops, HOPS))
  {
    hide Wrap, Peel, Room;
    assert InStep(s[0], r[0]) && InStep(s[1], r[1]) && InStep(s[2], r[2]);
    WrapOutcome(s, pt);
    if Wrap(s, HOPS, pt).result.Ok? { PeelUndoesWrapBelow(s, r, HOPS, pt); }
  }

  // ---------- many messages through one circuit ----------

  /** Both ends of a circuit: the sender's hops, the relays, what was wrapped and what came out. */
  datatype Ends = Ends(s: Path, r: Path, sent: seq<seq<byte>>, got: seq<seq<byte>>)

  function SendOne(e: Ends, pt: seq<byte>): Ends
  {
    var w := Wrap(e.s, HOPS, pt);
    if w.result.Err? then e.(s := w.hops)
    else
      var p := Peel(e.r, HOPS, w.result.value);
      Ends(w.hops, p.hops, e.sent + [pt], if p.result.Ok? then e.got + [p.result.value] else e.got)
  }

  function SendAll(e: Ends, pts: seq<seq<byte>>): Ends
  {
    if pts == [] then e else SendOne(SendAll(e, pts[..|pts| - 1]), pts[|pts| - 1])
  }

  /** No message so far was refused by an outer hop after the exit hop had sealed it. */
  predicate Clean(e: Ends, pts: seq<seq<byte>>)
  {
    pts == [] ||
    var e' := SendAll(e, pts[..|pts| - 1]); var w := Wrap(e'.s, HOPS, pts[|pts| - 1]);
    Clean(e, pts[..|pts| - 1]) && (w.result.Ok? || w.hops == e'.s)
  }

  /** Without such a refusal everything that was wrapped comes out, in order, and the circuit stays in step. */
  lemma {:induction false} CleanRunDelivers(e: Ends, pts: seq<seq<byte>>)
    requires InStepBelow(e.s, e.r, HOPS) && e.got == e.sent && Clean(e, pts)
    ensures var e' := SendAll(e, pts); InStepBelow(e'.s, e'.r, HOPS) && e'.got == e'.sent
    decreases |pts|
  {
    hide Wrap, Peel, InStepBelow;
    if pts != [] {
      CleanRunDelivers(e, pts[..|pts| - 1]);
      var e1 := SendAll(e, pts[..|pts| - 1]);
      PeelUndoesWrap(e1.s, e1.r, pts[|pts| - 1]);
    }
  }

  ghost predicate AllPaired(s: Path, r: Path) { forall i :: 0 <= i < HOPS ==> Paired(s[i], r[i]) }

  /** The exit hop's sender is ahead of the exit relay. */
  ghost predicate Ahead(e: Ends) { AllPaired(e.s, e.r) && e.r[2].wc < e.s[2].wc }

  /** Relays that are paired but perhaps out of step open a layer as it was sealed, or not at all. */
  lemma {:induction false} PeelYields(s: Path, r: Path, n: nat, data: seq<byte>)
    requires n <= HOPS && AllPaired(s, r) && Wrap(s, n, data).result.Ok?
    ensures var p := Peel(r, n, Wrap(s, n, data).result.value);
            && (p.result.Err? || p.result == Ok(data))
            && (n > 0 && s[n - 1].wc != r[n - 1].wc ==> p.result.Err? && p.hops[n - 1] == r[n - 1])
            && (forall j :: 0 <= j < HOPS ==> p.hops[j] == r[j].(wc := p.hops[j].wc))
            && (forall j :: n <= j < HOPS ==> p.hops[j] == r[j])
    decreases n
  {
    hide SealWith, OpenWith;
    if n > 0 {
      var a := SealWith(s[n - 1], data).value;
      assert Paired(s[n - 1], r[n - 1]);
      GenuineMar(s[n - 1], r[n - 1], data);
      var s' := s[n - 1 := s[n - 1].(wc := a.session.wc)];
      assert AllPaired(s', r) by {
        forall i | 0 <= i < HOPS ensures Paired(s'[i], r[i]) { assert Paired(s[i], r[i]); }
      }
      PeelYields(s', r, n - 1, a.data);
    }
  }

  lemma AheadStays(e: Ends, pt: seq<byte>)
    requires Ahead(e)
    ensures Ahead(SendOne(e, pt)) && SendOne(e, pt).got == e.got && SendOne(e, pt).r[2] == e.r[2]
  {
    hide Wrap, Peel;
    var w := Wrap(e.s, HOPS, pt);
    WrapKeeps(e.s, HOPS, pt);
    if w.result.Ok? { PeelYields(e.s, e.r, HOPS, pt); }
    forall i | 0 <= i < HOPS ensures Paired(SendOne(e, pt).s[i], SendOne(e, pt).r[i]) { assert Paired(e.s[i], e.r[i]); }
  }

  lemma {:induction false} AheadForever(e: Ends, pts: seq<seq<byte>>)
    requires Ahead(e)
    ensures Ahead(SendAll(e, pts)) && SendAll(e, pts).got == e.got && SendAll(e, pts).r[2] == e.r[2]
    decreases |pts|
  {
    hide SendOne, Ahead;
    if pts != [] {
      AheadForever(e, pts[..|pts| - 1]);
      AheadStays(SendAll(e, pts[..|pts| - 1]), pts[|pts| - 1]);
    }
  }

  /** One refusal that left a trace breaks the circuit for good: whatever is sent through it afterwards,
      nothing ever comes out, and the exit relay rejects every later exit layer. */
  lemma RefusalDesynchronises(e: Ends, bad: seq<byte>, pts: seq<seq<byte>>, pt: seq<byte>)
    requires InStepBelow(e.s, e.r, HOPS)
    requires Wrap(e.s, HOPS, bad).result.Err? && Wrap(e.s, HOPS, bad).hops != e.s
    ensures var e' := SendAll(SendOne(e, bad), pts);
            && e'.got == e.got && e'.r[2] == e.r[2]
            && (SealWith(e'.s[2], pt).Ok? ==>
                  OpenWith(e'.r[2], SealWith(e'.s[2], pt).value.data) == Err(WordCountMismatch))
  {
    assert InStep(e.s[0], e.r[0]) && InStep(e.s[1], e.r[1]) && InStep(e.s[2], e.r[2]);
    TraceAdvances(e.s, bad);
    hide SealWith, OpenWith, Wrap, Peel;
    WrapKeeps(e.s, HOPS, bad);
    AheadForever(SendOne(e, bad), pts);
    var e' := SendAll(SendOne(e, bad), pts);
    if SealWith(e'.s[2], pt).Ok? {
      assert Paired(e'.s[2], e'.r[2]);
      GenuineMar(e'.s[2], e'.r[2], pt);
    }
  }

  lemma TraceAdvances(s: Path, bad: seq<byte>)
    requires Wrap(s, HOPS, bad).hops != s
    ensures Wrap(s, HOPS, bad).hops[2].wc > s[2].wc
  {
    TraceIff(s, bad);
    hide SealWith;
    if SealWith(s[2], bad).Ok? {
      var a := SealWith(s[2], bad).value;
      SealAdvances(s[2], bad);
      WrapKeeps(s[2 := s[2].(wc := a.session.wc)], 2, a.data);
    }
  }

  /** In particular a message of 65481 to 65536 octets. */
  lemma OversizedMessageDesynchronises(e: Ends, big: seq<byte>, pts: seq<seq<byte>>, pt: seq<byte>)
    requires InStepBelow(e.s, e.r, HOPS) && LONGEST < |big| <= MAX_MSG_LEN && e.s[2].wc + BytesToWords(|big|) < TWO64
    ensures Wrap(e.s, HOPS, big).result.Err?
    ensures Room(e.s, |big|) ==> Wrap(e.s, HOPS, big).result == Err(MessageTooLong)
    ensures var e' := SendAll(SendOne(e, big), pts);
            && e'.got == e.got
            && (SealWith(e'.s[2], pt).Ok? ==>
                  OpenWith(e'.r[2], SealWith(e'.s[2], pt).value.data) == Err(WordCountMismatch))
  {
    hide SealWith, OpenWith, Wrap, Room, BytesToWords, SendOne, SendAll;
    assert InStep(e.s[0], e.r[0]) && InStep(e.s[1], e.r[1]) && InStep(e.s[2], e.r[2]);
    WrapOutcome(e.s, big);
    RefusalDesynchronises(e, big, pts, pt);
  }

  // ---------- the circuit ----------

  class Circuit {
    const hops: seq<WcAuthSession>

    ghost predicate Valid()
    {
      (forall i, j :: 0 <= i < j < |hops| ==> hops[i] != hops[j])
    }

    ghost function Abs(): Path
      reads hops
      requires Valid() && |hops| == HOPS
    {
      [hops[0].Abs(), hops[1].Abs(), hops[2].Abs()]
    }

    constructor (hops: seq<WcAuthSession>)
      requires forall i, j :: 0 <= i < j < |hops| ==> hops[i] != hops[j]
      ensures Valid() && this.hops == hops
    {
      this.hops := hops;
    }

    method OnionEncrypt(pt: seq<byte>) returns (r: Result<seq<byte>, OnionError>)
      requires Valid()
      modifies hops
      ensures |hops| != HOPS ==>
                r == Err(InvalidHopCount) && forall i :: 0 <= i < |hops| ==> hops[i].Abs() == old(hops[i].Abs())
      ensures |hops| == HOPS ==>
                var w := Wrap(old(Abs()), HOPS, pt);
                Abs() == w.hops && r == (match w.result case Ok(d) => Ok(d) case Err(e) => Err(Wc(e)))
    {
      hide SealWith;
      if |hops| != HOPS { return Err(InvalidHopCount); }
      var data := pt;
      var i: nat := HOPS;
      while i > 0
        invariant 0 <= i <= HOPS
        invariant Wrap(Abs(), i, data) == Wrap(old(Abs()), HOPS, pt)
      {
        i := i - 1;
        ghost var before := Abs();
        var wrapped := hops[i].Seal(data);
        if wrapped.Err? {
          assert Abs() == before;
          return Err(Wc(wrapped.error));
        }
        SealSession(before[i], data);
        assert Abs() == before[i := hops[i].Abs()];
        data := wrapped.value;
      }
      return Ok(data);
    }

    /** One relay. */
    static method OnionPeel(session: WcAuthSession, cell: seq<byte>) returns (r: Result<seq<byte>, OnionError>)
      modifies session
      ensures match OpenWith(old(session.Abs()), cell)
              case Ok(a) => r == Ok(a.data) && session.Abs() == a.session
              case Err(e) => r == Err(Wc(e)) && session.Abs() == old(session.Abs())
    {
      var inner := session.Open(cell);
      match inner
      case Ok(d) => return Ok(d);
      case Err(e) => return Err(Wc(e));
    }
  }

  lemma SealSession(s: Session, pt: seq<byte>)
    requires SealWith(s, pt).Ok?
    ensures SealWith(s, pt).value.session == s.(wc := SealWith(s, pt).value.session.wc)
  {
    hide TagOf, MarBytes;
  }
}
