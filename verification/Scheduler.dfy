/** The round-robin scheduler: 64 task slots, one current index, ten-tick time slices.

    `Sched` and its step functions specify the operations; class `Scheduler` updates the task table
    in place.  The waiting bound is proved for every sequence of events. */
module Scheduler {
  import opened Wrappers
  import opened Bytes

  const MAX_TASKS: nat := 64
  const TIMESLICE: nat := 10

  datatype TaskState = Empty | Ready | Running | Blocked | Zombie

  datatype Task = Task(tid: U32, state: TaskState, stackTop: nat, stackSize: nat, timeslice: nat, priority: byte,
                       entry: nat)

  datatype SpawnError = NoSlot | NotFound

  type Table = t: seq<Task> | |t| == MAX_TASKS witness seq(MAX_TASKS, _ => EMPTY_TASK)

  const EMPTY_TASK := Task(0, Empty, 0, 0, TIMESLICE, 128, 0)

  type Index = i: nat | i < MAX_TASKS

  datatype Sched = Sched(table: Table, cur: Index, nextTid: U32)

  function InitTable(): Table { seq(MAX_TASKS, _ => EMPTY_TASK) }

  const INIT := Sched(InitTable(), 0, 1)

  // ---------- searching the table ----------

  /** The first slot from `k` on that satisfies `p`, or the length of the table. */
  function First(t: seq<Task>, p: Task -> bool, k: nat): (i: nat)
    requires k <= |t|
    ensures k <= i <= |t| && (i < |t| ==> p(t[i])) && forall j :: k <= j < i ==> !p(t[j])
    decreases |t| - k
  {
    if k == |t| || p(t[k]) then k else First(t, p, k + 1)
  }

  function IsReady(): Task -> bool { (x: Task) => x.state == Ready }
  function IsEmpty(): Task -> bool { (x: Task) => x.state == Empty }
  function IsBlocked(tid: U32): Task -> bool { (x: Task) => x.tid == tid && x.state == Blocked }

  /** Slots `start..64`, then `0..start`. */
  function NextReady(t: Table, start: nat): nat
    requires start < MAX_TASKS
  {
    var i := First(t, IsReady(), start);
    if i < MAX_TASKS then i else First(t, IsReady(), 0)
  }

  // ---------- the operations ----------

  function SetState(t: Table, i: nat, st: TaskState): Table
    requires i < MAX_TASKS
  {
    t[i := t[i].(state := st)]
  }

  function Schedule(s: Sched): Sched
  {
    var next := NextReady(s.table, (s.cur + 1) % MAX_TASKS);
    if next < MAX_TASKS then s.(table := SetState(s.table, next, Running), cur := next) else s
  }

  function Tick(s: Sched): Sched
  {
    var task := s.table[s.cur];
    if task.state != Running then s
    else if task.timeslice > 1 then s.(table := s.table[s.cur := task.(timeslice := task.timeslice - 1)])
    else Schedule(s.(table := s.table[s.cur := task.(timeslice := TIMESLICE, state := Ready)]))
  }

  function BlockCurrent(s: Sched): Sched
  {
    Schedule(s.(table := SetState(s.table, s.cur, Blocked)))
  }

  function Unblock(s: Sched, tid: U32): Result<Sched, SpawnError>
  {
    var i := First(s.table, IsBlocked(tid), 0);
    if i == MAX_TASKS then Err(NotFound) else Ok(s.(table := SetState(s.table, i, Ready)))
  }

  function Spawn(s: Sched, entry: nat, stackTop: nat, stackSize: nat, priority: byte): Result<Sched, SpawnError>
  {
    var i := First(s.table, IsEmpty(), 0);
    if i == MAX_TASKS then Err(NoSlot)
    else Ok(s.(table := s.table[i := Task(s.nextTid, Ready, stackTop, stackSize, TIMESLICE, priority, entry)],
               nextTid := (s.nextTid + 1) % 0x1_0000_0000))
  }

  datatype Event =
    | TickEvent
    | BlockEvent
    | UnblockEvent(tid: U32)
    | SpawnEvent(entry: nat, stackTop: nat, stackSize: nat, priority: byte)

  function Next(s: Sched, e: Event): Sched
  {
    match e
    case TickEvent => Tick(s)
    case BlockEvent => BlockCurrent(s)
    case UnblockEvent(tid) => (match Unblock(s, tid) case Ok(s') => s' case Err(_) => s)
    case SpawnEvent(f, top, size, prio) => (match Spawn(s, f, top, size, prio) case Ok(s') => s' case Err(_) => s)
  }

  function Run(s: Sched, es: seq<Event>): Sched
    decreases |es|
  {
    if es == [] then s else Run(Next(s, es[0]), es[1..])
  }

  // ---------- what every operation keeps ----------

  /** At most one task runs, and it is the current one; time slices stay within 1..10. */
  ghost predicate Inv(s: Sched)
  {
    && (forall i :: 0 <= i < MAX_TASKS && s.table[i].state == Running ==> i == s.cur)
    && (forall i :: 0 <= i < MAX_TASKS ==> 1 <= s.table[i].timeslice <= TIMESLICE)
  }

  ghost predicate Busy(s: Sched)
  {
    s.table[s.cur].state == Running
  }

  lemma NextKeepsInv(s: Sched, e: Event)
    requires Inv(s)
    ensures Inv(Next(s, e))
  {
    hide First;
  }

  lemma {:induction false} RunKeepsInv(s: Sched, es: seq<Event>)
    requires Inv(s)
    ensures Inv(Run(s, es))
    decreases |es|
  {
    hide Next, Inv;
    if es != [] {
      NextKeepsInv(s, es[0]);
      RunKeepsInv(Next(s, es[0]), es[1..]);
    }
  }

  /** In every run from the initial table at most one task is running, at the current index. */
  lemma AtMostOneRunning(es: seq<Event>)
    ensures Inv(Run(INIT, es))
  {
    RunKeepsInv(INIT, es);
  }

  // ---------- the waiting bound ----------

  /** How far ahead of the current slot `i` is in scan order: 1 for the next slot, 64 for itself. */
  function Distance(cur: Index, i: Index): (d: nat)
    ensures 1 <= d <= MAX_TASKS
  {
    if i > cur then i - cur else i + MAX_TASKS - cur
  }

  /** The scan finds the closest ready slot. */
  lemma NextReadyClosest(t: Table, cur: Index, i: Index)
    requires t[i].state == Ready
    ensures var n := NextReady(t, (cur + 1) % MAX_TASKS);
            n < MAX_TASKS && t[n].state == Ready && Distance(cur, n) <= Distance(cur, i)
  {
    hide First;
  }

  /** Ticks that can still pass before `i` must be reached. */
  function Potential(s: Sched, i: Index): nat
  {
    TIMESLICE * (Distance(s.cur, i) - 1) + s.table[s.cur].timeslice
  }

  ghost predicate Waiting(s: Sched, i: Index)
  {
    Inv(s) && Busy(s) && s.table[i].state == Ready
  }

  predicate IsWork(e: Event) { e.TickEvent? || e.BlockEvent? }

  /** A dispatch while `i` waits starts `i` or a slot closer to it. */
  lemma DispatchProgress(s: Sched, i: Index)
    requires Inv(s) && s.table[s.cur].state != Running && s.table[i].state == Ready
    ensures var s' := Schedule(s);
            s'.table[i].state == Running ||
            (s'.table[i].state == Ready && Busy(s') && Distance(s'.cur, i) < Distance(s.cur, i))
  {
    hide First, NextReady;
    NextReadyClosest(s.table, s.cur, i);
  }

  /** A step either starts `i`, or leaves it waiting with less to wait for. */
  lemma StepProgress(s: Sched, e: Event, i: Index)
    requires Waiting(s, i)
    ensures var s' := Next(s, e);
            s'.table[i].state == Running ||
            (&& Waiting(s', i)
             && (s'.cur == s.cur || Distance(s'.cur, i) < Distance(s.cur, i))
             && Potential(s', i) + (if IsWork(e) then 1 else 0) <= Potential(s, i))
  {
    NextKeepsInv(s, e);
    hide First, NextReady, Schedule;
    match e
    case TickEvent =>
      var task := s.table[s.cur];
      if task.timeslice == 1 {
        DispatchProgress(s.(table := s.table[s.cur := task.(timeslice := TIMESLICE, state := Ready)]), i);
      }
    case BlockEvent =>
      DispatchProgress(s.(table := SetState(s.table, s.cur, Blocked)), i);
    case UnblockEvent(_) =>
    case SpawnEvent(_, _, _, _) =>
  }

  function Work(es: seq<Event>): nat
  {
    if es == [] then 0 else (if IsWork(es[0]) then 1 else 0) + Work(es[1..])
  }

  /** How often the current task changes. */
  function Dispatches(s: Sched, es: seq<Event>): nat
    decreases |es|
  {
    if es == [] then 0
    else (if Next(s, es[0]).cur != s.cur then 1 else 0) + Dispatches(Next(s, es[0]), es[1..])
  }

  /** Slot `i` gets to run at some point of the run. */
  ghost predicate Runs(s: Sched, es: seq<Event>, i: Index)
    decreases |es|
  {
    s.table[i].state == Running || (es != [] && Runs(Next(s, es[0]), es[1..], i))
  }

  lemma {:induction false} NotYetRun(s: Sched, es: seq<Event>, i: Index)
    requires Waiting(s, i) && !Runs(s, es, i)
    ensures Work(es) < Potential(s, i) && Dispatches(s, es) < Distance(s.cur, i)
    decreases |es|
  {
    hide Next, Inv, Distance;
    if es == [] {
      PotentialBounds(s, i);
    } else {
      StepProgress(s, es[0], i);
      assert !Runs(Next(s, es[0]), es[1..], i);
      NotYetRun(Next(s, es[0]), es[1..], i);
    }
  }

  lemma PotentialBounds(s: Sched, i: Index)
    requires Waiting(s, i)
    ensures 0 < Potential(s, i) <= 630 && Distance(s.cur, i) <= 63
  {}

  /** No starvation: while some task runs, a ready slot runs within 63 dispatches and within 630
      ticks or blocking calls, whatever else is spawned or unblocked meanwhile. */
  lemma ReadyRunsInTime(s: Sched, es: seq<Event>, i: Index)
    requires Inv(s) && Busy(s) && s.table[i].state == Ready
    requires Work(es) >= 630 || Dispatches(s, es) >= 63
    ensures Runs(s, es, i)
  {
    hide Next;
    PotentialBounds(s, i);
    if !Runs(s, es, i) {
      NotYetRun(s, es, i);
    }
  }

  // ---------- what the scheduler does not do ----------

  /** Nothing is ever dispatched before the first blocking call: ticks act on a running task only. */
  lemma OnlyBlockingStartsTheFirst(es: seq<Event>)
    requires forall k :: 0 <= k < |es| ==> !es[k].BlockEvent?
    ensures forall i :: 0 <= i < MAX_TASKS ==> Run(INIT, es).table[i].state != Running
  {
    IdleStaysIdle(INIT, es);
  }

  lemma {:induction false} IdleStaysIdle(s: Sched, es: seq<Event>)
    requires forall i :: 0 <= i < MAX_TASKS ==> s.table[i].state != Running
    requires forall k :: 0 <= k < |es| ==> !es[k].BlockEvent?
    ensures Run(s, es).cur == s.cur
    ensures forall i :: 0 <= i < MAX_TASKS ==> Run(s, es).table[i].state != Running
    decreases |es|
  {
    hide First;
    if es != [] {
      assert !es[0].BlockEvent?;
      IdleStaysIdle(Next(s, es[0]), es[1..]);
    }
  }

  /** Exactly when a blocking call leaves something running: some other slot is ready. */
  lemma BlockStartsIff(s: Sched)
    requires Inv(s)
    ensures Next(s, BlockEvent).table[s.cur].state == Blocked
    ensures Busy(Next(s, BlockEvent)) <==> exists i: Index :: i != s.cur && s.table[i].state == Ready
  {
    hide First, NextReady;
    var t := SetState(s.table, s.cur, Blocked);
    if i: Index :| i != s.cur && s.table[i].state == Ready {
      assert t[i].state == Ready;
      NextReadyClosest(t, s.cur, i);
    } else {
      NextReadyFinds(t, (s.cur + 1) % MAX_TASKS);
    }
  }

  lemma NextReadyFinds(t: Table, start: Index)
    ensures NextReady(t, start) < MAX_TASKS ==> t[NextReady(t, start)].state == Ready
  {}

  /** Exactly when something runs after an event: after a blocking call when another slot was ready,
      after any other event when something ran before it. */
  lemma BusyAfterIff(s: Sched, e: Event)
    requires Inv(s)
    ensures Busy(Next(s, e)) <==>
            if e.BlockEvent? then exists i: Index :: i != s.cur && s.table[i].state == Ready else Busy(s)
  {
    if e.BlockEvent? {
      BlockStartsIff(s);
    } else if e.TickEvent? {
      TickKeepsBusy(s);
    }
    hide First;
  }

  /** An expired slice hands the processor on, if only to the same task. */
  lemma TickKeepsBusy(s: Sched)
    requires Inv(s)
    ensures Busy(Tick(s)) <==> Busy(s)
  {
    hide First, NextReady;
    var task := s.table[s.cur];
    if task.state == Running && task.timeslice == 1 {
      var t := s.table[s.cur := task.(timeslice := TIMESLICE, state := Ready)];
      assert t[s.cur].state == Ready;
      NextReadyClosest(t, s.cur, s.cur);
    }
  }

  /** So between blocking calls a machine neither starts nor stops. */
  lemma {:induction false} BusyRunIff(s: Sched, es: seq<Event>)
    requires Inv(s) && forall k :: 0 <= k < |es| ==> !es[k].BlockEvent?
    ensures Busy(Run(s, es)) <==> Busy(s)
    decreases |es|
  {
    hide Next, Inv, Busy;
    if es != [] {
      assert !es[0].BlockEvent?;
      BusyAfterIff(s, es[0]);
      NextKeepsInv(s, es[0]);
      BusyRunIff(Next(s, es[0]), es[1..]);
    }
  }

  /** Whatever was spawned, unblocked or ticked before it, the first blocking call after boot blocks
      slot 0, and starts something exactly when another slot is ready. */
  lemma FirstBlockHitsSlotZero(es: seq<Event>)
    requires forall k :: 0 <= k < |es| ==> !es[k].BlockEvent?
    ensures var s := Run(INIT, es);
            && Next(s, BlockEvent).table[0].state == Blocked
            && (Busy(Next(s, BlockEvent)) <==> exists i: Index :: i != 0 && s.table[i].state == Ready)
  {
    hide Next, Run;
    AtMostOneRunning(es);
    IdleStaysIdle(INIT, es);
    BlockStartsIff(Run(INIT, es));
  }

  /** For instance: a single task spawned after boot is put to sleep without having run. */
  lemma IdleBlockHitsTheFirstTask(s: Sched, f: nat, top: nat, size: nat, prio: byte)
    requires s == INIT
    ensures var s' := Run(s, [SpawnEvent(f, top, size, prio), BlockEvent]);
            s'.table[0].tid == 1 && s'.table[0].state == Blocked && !Busy(s')
  {
    var t := InitTable();
    var s1 := Next(s, SpawnEvent(f, top, size, prio));
    assert IsEmpty()(t[0]) && First(t, IsEmpty(), 0) == 0;
    assert s1.table[0].state == Ready;
    var es := [SpawnEvent(f, top, size, prio), BlockEvent];
    assert es[1..] == [BlockEvent] && [BlockEvent][1..] == [];
    assert Run(s, es) == Run(s1, [BlockEvent]) == Next(s1, BlockEvent);
  }

  // ---------- what every event does ----------

  /** `i` is the ready slot that the scan from `cur` meets first, the current one last. */
  ghost predicate Closest(s: Sched, i: Index)
  {
    && s.table[i].state == Ready
    && forall j: Index :: s.table[j].state == Ready ==> Distance(s.cur, i) <= Distance(s.cur, j)
  }

  lemma DispatchIs(s: Sched, i: Index)
    requires Closest(s, i)
    ensures Schedule(s) == Sched(s.table[i := s.table[i].(state := Running)], i, s.nextTid)
  {
    hide NextReady;
    NextReadyClosest(s.table, s.cur, i);
  }

  lemma NothingToDispatch(s: Sched)
    requires forall j: Index :: s.table[j].state != Ready
    ensures Schedule(s) == s
  {
    NextReadyFinds(s.table, (s.cur + 1) % MAX_TASKS);
    hide NextReady;
  }

  /** A running task keeps the processor for as many ticks as its slice has left, less one. */
  lemma {:induction false} SliceLasts(s: Sched, es: seq<Event>)
    requires Busy(s) && |es| < s.table[s.cur].timeslice
    requires forall k :: 0 <= k < |es| ==> es[k] == TickEvent
    ensures var task := s.table[s.cur];
            Run(s, es) == s.(table := s.table[s.cur := task.(timeslice := task.timeslice - |es|)])
    decreases |es|
  {
    if es == [] {
      assert s.table == s.table[s.cur := s.table[s.cur]];
    } else {
      assert es[0] == TickEvent;
      SliceLasts(Next(s, es[0]), es[1..]);
    }
  }

  /** The last tick of the slice hands the processor to the closest ready slot, its own included,
      which has a full slice again. */
  lemma SliceEnds(s: Sched, i: Index)
    requires Inv(s) && Busy(s) && s.table[s.cur].timeslice == 1
    requires var expired := s.table[s.cur].(timeslice := 10, state := Ready);
             Closest(s.(table := s.table[s.cur := expired]), i)
    ensures var expired := s.table[s.cur].(timeslice := 10, state := Ready);
            var t := s.table[s.cur := expired];
            Tick(s) == Sched(t[i := t[i].(state := Running)], i, s.nextTid)
  {
    hide Closest;
    DispatchIs(s.(table := s.table[s.cur := s.table[s.cur].(timeslice := 10, state := Ready)]), i);
  }

  /** A tick while the current slot does not run does nothing. */
  lemma IdleTick(s: Sched)
    ensures !Busy(s) ==> Tick(s) == s
  {}

  /** A blocking call puts the current slot to sleep, whatever its state, and starts the closest other
      ready slot, if there is one. */
  lemma BlockIs(s: Sched, i: Index)
    requires i != s.cur
    ensures var t := s.table[s.cur := s.table[s.cur].(state := Blocked)];
            && (Closest(s.(table := t), i) ==>
                  BlockCurrent(s) == Sched(t[i := t[i].(state := Running)], i, s.nextTid))
            && ((forall j: Index :: t[j].state != Ready) ==> BlockCurrent(s) == s.(table := t))
  {
    hide Closest, Schedule;
    var s' := s.(table := s.table[s.cur := s.table[s.cur].(state := Blocked)]);
    if Closest(s', i) { DispatchIs(s', i); }
    if forall j: Index :: s'.table[j].state != Ready { NothingToDispatch(s'); }
  }

  /** The first blocked slot of that id becomes ready, and nothing else changes; without one, NotFound. */
  lemma UnblockIs(s: Sched, tid: U32, i: nat)
    requires i <= MAX_TASKS && forall j :: 0 <= j < i ==> s.table[j].tid != tid || s.table[j].state != Blocked
    requires i < MAX_TASKS ==> s.table[i].tid == tid && s.table[i].state == Blocked
    ensures Unblock(s, tid) == if i == MAX_TASKS then Err(NotFound)
                               else Ok(s.(table := s.table[i := s.table[i].(state := Ready)]))
  {
    assert i < MAX_TASKS ==> IsBlocked(tid)(s.table[i]);
    hide First;
  }

  /** The first empty slot takes a new task, ready, with a full slice and the next id; without one, NoSlot. */
  lemma SpawnIs(s: Sched, entry: nat, top: nat, size: nat, prio: byte, i: nat)
    requires i <= MAX_TASKS && forall j :: 0 <= j < i ==> s.table[j].state != Empty
    requires i < MAX_TASKS ==> s.table[i].state == Empty
    ensures Spawn(s, entry, top, size, prio) ==
            if i == MAX_TASKS then Err(NoSlot)
            else Ok(Sched(s.table[i := Task(s.nextTid, Ready, top, size, 10, prio, entry)], s.cur,
                          if s.nextTid == 0xFFFF_FFFF then 0 else s.nextTid + 1))
  {
    assert i < MAX_TASKS ==> IsEmpty()(s.table[i]);
    hide First;
  }

  // ---------- which slot has which id ----------

  /** 1 if the machine blocks before it spawns: that puts the empty slot 0 to sleep. */
  function Phantom(es: seq<Event>): (g: nat)
    ensures g <= 1
  {
    if es == [] || es[0].SpawnEvent? then 0 else if es[0].BlockEvent? then 1 else Phantom(es[1..])
  }

  function Spawns(es: seq<Event>): nat
  {
    if es == [] then 0 else (if es[0].SpawnEvent? then 1 else 0) + Spawns(es[1..])
  }

  /** The first `n` slots are used, and their ids are consecutive, from 0 on if there is a phantom. */
  ghost predicate Numbered(s: Sched, n: nat, g: nat)
  {
    && g <= 1 && g <= n <= MAX_TASKS && s.nextTid == n + 1 - g && s.cur <= n - (if n == 0 then 0 else 1)
    && forall i: Index :: (s.table[i].state == Empty <==> i >= n) && s.table[i].tid == if i < n then i + 1 - g else 0
  }

  function UsedAfter(e: Event, n: nat): nat
  {
    if (e.SpawnEvent? && n < MAX_TASKS) || (e.BlockEvent? && n == 0) then n + 1 else n
  }

  lemma NumberedStep(s: Sched, e: Event, n: nat, g: nat)
    requires Numbered(s, n, g)
    ensures Numbered(Next(s, e), UsedAfter(e, n), if e.BlockEvent? && n == 0 then 1 else g)
  {
    match e
    case TickEvent => TickNumbered(s, n, g);
    case BlockEvent =>
      hide Schedule;
      ScheduleNumbered(s.(table := SetState(s.table, s.cur, Blocked)), UsedAfter(e, n), if n == 0 then 1 else g);
    case UnblockEvent(tid) => hide First;
    case SpawnEvent(f, top, size, prio) =>
      hide Spawn;
      SpawnIs(s, f, top, size, prio, n);
  }

  lemma ScheduleNumbered(s: Sched, n: nat, g: nat)
    requires Numbered(s, n, g)
    ensures Numbered(Schedule(s), n, g)
  {
    hide First;
  }

  lemma TickNumbered(s: Sched, n: nat, g: nat)
    requires Numbered(s, n, g)
    ensures Numbered(Tick(s), n, g)
  {
    hide Schedule;
    var task := s.table[s.cur];
    if task.state == Running && task.timeslice <= 1 {
      ScheduleNumbered(s.(table := s.table[s.cur := task.(timeslice := TIMESLICE, state := Ready)]), n, g);
    }
  }

  lemma {:induction false} RunNumbered(s: Sched, es: seq<Event>, n: nat, g: nat)
    requires Numbered(s, n, g)
    ensures var g' := if n == 0 then Phantom(es) else g;
            var m := n - g + g' + Spawns(es);
            Numbered(Run(s, es), if m < MAX_TASKS then m else MAX_TASKS, g')
    decreases |es|
  {
    hide Next, Numbered;
    if es != [] {
      NumberedStep(s, es[0], n, g);
      assert g <= n by { NumberedBounds(s, n, g); }
      RunNumbered(Next(s, es[0]), es[1..], UsedAfter(es[0], n), if es[0].BlockEvent? && n == 0 then 1 else g);
    } else {
      NumberedBounds(s, n, g);
    }
  }

  lemma NumberedBounds(s: Sched, n: nat, g: nat)
    requires Numbered(s, n, g)
    ensures g <= 1 && g <= n <= MAX_TASKS
  {}

  /** In every run the k-th task spawned has id k and lives in slot k - 1, or, when a blocking call came
      before the first spawn, in slot k behind the phantom: no id is given twice, and no more are given
      than there are slots left. */
  lemma IdsAreSlots(es: seq<Event>)
    ensures var s, g := Run(INIT, es), Phantom(es);
            var n := if Spawns(es) + g < 64 then Spawns(es) + g else 64;
            && s.nextTid == n + 1 - g
            && forall i: Index :: (s.table[i].state == Empty <==> i >= n) && (i < n ==> s.table[i].tid == i + 1 - g)
  {
    hide Run;
    assert Numbered(INIT, 0, 0);
    RunNumbered(INIT, es, 0, 0);
  }

  /** So `unblock` wakes the one task of that id exactly when it is blocked, and no other. */
  lemma UnblockWakesIff(es: seq<Event>, tid: U32)
    ensures var s, i := Run(INIT, es), tid + Phantom(es) - 1;
            Unblock(s, tid) == if 0 <= i < 64 && s.table[i].state == Blocked
                               then Ok(s.(table := s.table[i := s.table[i].(state := Ready)])) else Err(NotFound)
  {
    hide Run, Unblock;
    IdsAreSlots(es);
    var s, i := Run(INIT, es), tid + Phantom(es) - 1;
    UnblockIs(s, tid, if 0 <= i < 64 && s.table[i].state == Blocked then i else MAX_TASKS);
  }

  // ---------- the task table, updated in place ----------

  class Scheduler {
    const table: array<Task>
    var cur: Index
    var nextTid: U32

    ghost predicate Shape() { table.Length == MAX_TASKS }

    ghost function Abs(): Sched
      reads this, table
      requires Shape()
    {
      Sched(table[..], cur, nextTid)
    }

    constructor ()
      ensures Shape() && Abs() == INIT && fresh(table)
    {
      table := new Task[MAX_TASKS](_ => EMPTY_TASK);
      cur := 0;
      nextTid := 1;
      new;
      assert table[..] == InitTable();
    }

    /** The iterator's `find` from slot `k`. */
    method Find(p: Task -> bool, k: nat) returns (i: nat)
      requires Shape() && k <= MAX_TASKS
      ensures i == First(table[..], p, k)
    {
      i := k;
      while i < MAX_TASKS && !p(table[i])
        invariant k <= i <= MAX_TASKS && First(table[..], p, i) == First(table[..], p, k)
      {
        i := i + 1;
      }
    }

    method DoSpawn(entry: nat, stackTop: nat, stackSize: nat, priority: byte) returns (r: Result<U32, SpawnError>)
      requires Shape()
      modifies this, table
      ensures match Spawn(old(Abs()), entry, stackTop, stackSize, priority)
              case Ok(s) => r == Ok(old(nextTid)) && Abs() == s
              case Err(e) => r == Err(e) && Abs() == old(Abs())
    {
      hide First;
      var i := Find(IsEmpty(), 0);
      if i == MAX_TASKS { return Err(NoSlot); }
      var tid := nextTid;
      nextTid := (nextTid + 1) % 0x1_0000_0000;
      table[i] := Task(tid, Ready, stackTop, stackSize, TIMESLICE, priority, entry);
      return Ok(tid);
    }

    method DoSchedule()
      requires Shape()
      modifies this, table
      ensures Abs() == Schedule(old(Abs()))
    {
      hide First;
      var start := (cur + 1) % MAX_TASKS;
      var next := Find(IsReady(), start);
      if next == MAX_TASKS { next := Find(IsReady(), 0); }
      if next < MAX_TASKS {
        table[next] := table[next].(state := Running);
        cur := next;
      }
    }

    method DoTick()
      requires Shape()
      modifies this, table
      ensures Abs() == Tick(old(Abs()))
    {
      hide Schedule;
      if table[cur].state == Running {
        if table[cur].timeslice > 0 { table[cur] := table[cur].(timeslice := table[cur].timeslice - 1); }
        if table[cur].timeslice == 0 {
          table[cur] := table[cur].(state := Ready);
          table[cur] := table[cur].(timeslice := TIMESLICE);
          ghost var expired := old(table[cur]).(timeslice := TIMESLICE, state := Ready);
          assert Abs() == old(Abs()).(table := old(table[..])[cur := expired]);
          DoSchedule();
        }
      }
    }

    method DoBlockCurrent()
      requires Shape()
      modifies this, table
      ensures Abs() == BlockCurrent(old(Abs()))
    {
      hide Schedule;
      table[cur] := table[cur].(state := Blocked);
      assert table[..] == SetState(old(table[..]), cur, Blocked);
      DoSchedule();
    }

    method DoUnblock(tid: U32) returns (r: Result<(), SpawnError>)
      requires Shape()
      modifies this, table
      ensures match Unblock(old(Abs()), tid)
              case Ok(s) => r == Ok(()) && Abs() == s
              case Err(e) => r == Err(e) && Abs() == old(Abs())
    {
      hide First;
      var i := Find(IsBlocked(tid), 0);
      if i == MAX_TASKS { return Err(NotFound); }
      table[i] := table[i].(state := Ready);
      return Ok(());
    }
  }
}
