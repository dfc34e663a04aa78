/** The scheduler of cycle-exact interrupts: a table of handlers holding a doubly linked list
    sorted by due time and ended by the sentinel handler 0. */
module CycInt {
  import Arith
  import opened CycIntQueue
  import opened CycIntList

  datatype CycleType = CpuCycle | MfpCycle | Cpu8Cycle

  class Scheduler {
    const cpuFreq: nat
    const mfpFreq: nat
    const cpuScale: nat  // 2 to the power nCpuFreqShift

    var h: array<Handler>
    var activeInt: int
    var activeCycles: int
    var pendingCount: int
    var delayedCycles: int
    /** The handlers in list order, the sentinel last. */
    ghost var order: seq<int>

    /** The list is well formed; says nothing about the active flags. */
    ghost predicate Linked()
      reads this, h
    {
      && mfpFreq > 0 && IsList(h[..], order)
      && activeInt == order[0] && activeCycles == h[activeInt].cycles
    }

    /** The list holds exactly the active handlers. */
    ghost predicate Valid()
      reads this, h
    {
      Linked() && forall i :: 0 <= i < MAX_INTERRUPTS ==> (h[i].active <==> i in order)
    }

    /** What is pending, soonest first; the sentinel is not part of it. */
    ghost function Queue(): (q: seq<Entry>)
      requires Linked()
      reads this, h
    {
      Entries(h[..], order)
    }

    /** Conversion of CPU or MFP cycles to internal cycles. */
    function ToInternal(cycles: int, kind: CycleType): int
      requires mfpFreq > 0
    {
      match kind
      case CpuCycle => cycles * INTERNAL
      case MfpCycle => Int32(U64(U64(cycles * INTERNAL) * cpuFreq) / mfpFreq)
      case Cpu8Cycle => cycles * INTERNAL * cpuScale
    }

    /** Conversion of internal cycles, a signed 64-bit number, back to CPU or MFP cycles. */
    function FromInternal(cycles: int, kind: CycleType): int
      requires cpuFreq > 0 && cpuScale > 0
    {
      match kind
      case CpuCycle => Int32(cycles / INTERNAL)
      case MfpCycle => Int32(U64(U64(cycles) * mfpFreq) / cpuFreq) / INTERNAL
      case Cpu8Cycle => Int32(cycles / (INTERNAL * cpuScale))
    }

    /** An MFP period in internal cycles is its time, in 256ths of a CPU cycle, rounded down. */
    lemma MfpTime(cycles: nat)
      requires 0 < mfpFreq && Scalable(cycles * INTERNAL, cpuFreq, mfpFreq)
      ensures var t := ToInternal(cycles, MfpCycle);
        0 <= t && t * mfpFreq <= 256 * cycles * cpuFreq < t * mfpFreq + mfpFreq
    {
      Scaled(cycles * INTERNAL, cpuFreq, mfpFreq);
      Quotient(cycles * INTERNAL * cpuFreq, mfpFreq);
    }

    /** Converting CPU cycles and 8 MHz cycles there and back gives them back. */
    lemma CpuTimeBack(cycles: int)
      requires mfpFreq > 0 && cpuFreq > 0 && cpuScale > 0 && -0x8000_0000 <= cycles < 0x8000_0000
      ensures FromInternal(ToInternal(cycles, CpuCycle), CpuCycle) == cycles
      ensures FromInternal(ToInternal(cycles, Cpu8Cycle), Cpu8Cycle) == cycles
    {
      ExactQuotient(cycles, INTERNAL);
      ExactQuotient(cycles, INTERNAL * cpuScale);
      assert cycles * INTERNAL * cpuScale == cycles * (INTERNAL * cpuScale);
    }

    /** MFP cycles come back too if their time is a whole number of internal cycles; else they come
        back one short. */
    lemma MfpTimeBack(cycles: nat)
      requires 0 < mfpFreq <= cpuFreq && cpuScale > 0
      requires Scalable(cycles * INTERNAL, cpuFreq, mfpFreq) && cycles * INTERNAL < 0x8000_0000
      ensures FromInternal(ToInternal(cycles, MfpCycle), MfpCycle)
           == if cycles * INTERNAL * cpuFreq % mfpFreq == 0 then cycles else cycles - 1
    {
      hide Int32, U64;
      var n := cycles * INTERNAL;
      Scaled(n, cpuFreq, mfpFreq);
      ScaledBack(n, cpuFreq, mfpFreq);
    }

    constructor (cpuFreq: nat, mfpFreq: nat, cpuScale: nat)
      requires mfpFreq > 0
      ensures Valid() && Queue() == [] && fresh(h)
      ensures this.cpuFreq == cpuFreq && this.mfpFreq == mfpFreq && this.cpuScale == cpuScale
    {
      this.cpuFreq, this.mfpFreq, this.cpuScale := cpuFreq, mfpFreq, cpuScale;
      h := new Handler[MAX_INTERRUPTS](_ => Handler(false, 0, -1, -1));
      pendingCount, delayedCycles := 0, 0;
      activeInt := 0;
      activeCycles := UINT64_MAX;
      order := [0];
      new;
      h[0] := h[0].(active := true, cycles := UINT64_MAX);
    }

    /** The link writes of an insertion, with no list invariant. */
    method Relink(id: int, n: int, prev: int)
      requires h.Length == MAX_INTERRUPTS && 0 <= id < h.Length && 0 <= n < h.Length && id != n
      requires n != activeInt ==> 0 <= prev < h.Length && prev != id && prev != n
      modifies this`activeInt, this`activeCycles, h
      ensures forall i :: 0 <= i < h.Length ==>
        h[i] == (if i == id then old(h[i]).(next := n, prev := if n == old(activeInt) then -1 else prev)
                 else if i == n then old(h[i]).(prev := id)
                 else if i == prev && n != old(activeInt) then old(h[i]).(next := id)
                 else old(h[i]))
      ensures activeInt == if n == old(activeInt) then id else old(activeInt)
      ensures activeCycles == if n == old(activeInt) then h[id].cycles else old(activeCycles)
    {
      h[id] := h[id].(next := n);
      h[n] := h[n].(prev := id);
      if n == activeInt {
        activeInt := id;
        activeCycles := h[activeInt].cycles;
        h[activeInt] := h[activeInt].(prev := -1);
      } else {
        h[id] := h[id].(prev := prev);
        h[prev] := h[prev].(next := id);
      }
    }

    /** Search for the handler to insert before; the assertion in the loop cannot fail. */
    method FindPosition(id: int) returns (n: int, prev: int, ghost k: nat)
      requires Linked() && 0 < id < MAX_INTERRUPTS
      ensures k < |order| && n == order[k] && prev == if k == 0 then -1 else order[k - 1]
      ensures 0 <= n < MAX_INTERRUPTS && (k > 0 ==> 0 <= prev < MAX_INTERRUPTS && prev != n && n != activeInt)
      ensures k == 0 ==> n == activeInt
      ensures forall j :: 0 <= j < k ==> 0 <= order[j] < MAX_INTERRUPTS && h[order[j]].cycles < h[id].cycles
      ensures h[id].cycles <= h[n].cycles
    {
      hide Chained, InOrder;
      ghost var t := h[..];
      k := 0;
      Neighbours(t, order, 0);
      CyclesBound(t, order, id);
      n := activeInt;
      prev := h[n].prev;
      while h[id].cycles > h[n].cycles
        invariant 0 <= k < |order| && n == order[k]
        invariant prev == if k == 0 then -1 else order[k - 1]
        invariant forall j :: 0 <= j < k ==> t[order[j]].cycles < t[id].cycles
        decreases |order| - k
      {
        Neighbours(t, order, k);
        n := h[n].next;
        assert n >= 0;
        Neighbours(t, order, k + 1);
        prev := h[n].prev;
        k := k + 1;
      }
      Neighbours(t, order, k);
    }

    /** Link handler `id` into the list; its due time is already in the table. */
    method InsertInt(id: int)
      requires Linked() && 0 < id < MAX_INTERRUPTS && id !in order
      modifies this`activeInt, this`activeCycles, this`order, h
      ensures Linked() && SameData(old(h[..]), h[..])
      ensures Queue() == Insert(old(Queue()), Entry(id, old(h[id].cycles)))
      ensures forall i :: i in order <==> i == id || i in old(order)
    {
      hide Chained, InOrder, Ids;
      ghost var t, was := h[..], order;
      var n, prev;
      ghost var k;
      n, prev, k := FindPosition(id);
      assert n in order && (k > 0 ==> prev in order);
      Relink(id, n, prev);
      order := was[..k] + [id] + was[k..];
      LinkInKeepsList(t, h[..], order, was, k, id);
    }

    /** Unlink the first handler, which is not the sentinel. */
    method UnlinkFirst()
      requires Linked() && activeInt != 0
      modifies this`activeInt, this`activeCycles, this`order, h
      ensures Linked() && SameData(old(h[..]), h[..])
      ensures Queue() == Remove(old(Queue()), old(activeInt)) == old(Queue())[1..]
      ensures forall i :: i in order <==> i in old(order) && i != old(activeInt)
    {
      hide Chained, InOrder;
      ghost var t, was := h[..], order;
      Neighbours(t, was, 0);
      activeInt := h[activeInt].next;
      activeCycles := h[activeInt].cycles;
      h[activeInt] := h[activeInt].(prev := -1);
      order := was[1..];
      LinkOutKeepsList(t, h[..], order, was, 0);
    }

    /** Set the flag and due time of one handler; the list may only be told of them by linking. */
    method SetHandler(id: int, active: bool, cycles: int)
      requires Linked() && 0 < id < MAX_INTERRUPTS && 0 <= cycles <= UINT64_MAX
      requires id !in order || cycles == h[id].cycles
      modifies h
      ensures Linked() && Queue() == old(Queue())
      ensures forall i :: 0 <= i < h.Length ==>
        h[i].active == (if i == id then active else old(h[i].active))
        && h[i].cycles == (if i == id then cycles else old(h[i].cycles))
    {
      hide Chained, InOrder;
      ghost var t := h[..];
      Neighbours(t, order, 0);
      h[id] := h[id].(active := active, cycles := cycles);
      OutsideTheList(t, h[..], order, id);
    }

    /** The first interrupt has occurred: take it off the list. */
    method Acknowledge()
      requires Valid() && activeInt != 0
      modifies this`activeInt, this`activeCycles, this`order, h
      ensures Valid() && Queue() == old(Queue())[1..]
      ensures forall i :: 0 <= i < h.Length ==> h[i].cycles == old(h[i].cycles)
    {
      hide Chained, InOrder;
      Neighbours(h[..], order, 0);
      CyclesBound(h[..], order, activeInt);
      SetHandler(activeInt, false, h[activeInt].cycles);
      UnlinkFirst();
    }

    method Bypass(p: int, n: int)
      requires h.Length == MAX_INTERRUPTS && 0 <= p < h.Length && 0 <= n < h.Length && p != n
      modifies h
      ensures forall i :: 0 <= i < h.Length ==>
        h[i] == (if i == p then old(h[i]).(next := n) else if i == n then old(h[i]).(prev := p) else old(h[i]))
    {
      h[p] := h[p].(next := n);
      h[n] := h[n].(prev := p);
    }

    /** Unlink handler `id` from the middle of the list. */
    method UnlinkMiddle(id: int)
      requires Linked() && id in order && id != 0 && id != activeInt
      modifies this`order, h
      ensures Linked() && SameData(old(h[..]), h[..])
      ensures Queue() == Remove(old(Queue()), id)
      ensures forall i :: i in order <==> i in old(order) && i != id
    {
      hide Chained, InOrder, Ids, Remove;
      ghost var t, was := h[..], order;
      ghost var k :| 0 <= k < |order| && order[k] == id;
      Neighbours(t, was, k);
      Bypass(h[id].prev, h[id].next);
      order := was[..k] + was[k + 1..];
      assert LinkedOut(t, h[..], was, k);
      LinkOutKeepsList(t, h[..], order, was, k);
    }

    /** Remove a pending interrupt; nothing happens if it is not pending. */
    method RemovePending(id: int)
      requires Valid() && 0 < id < MAX_INTERRUPTS
      modifies this`activeInt, this`activeCycles, this`order, h
      ensures Valid() && !h[id].active && id !in order
      ensures Queue() == Remove(old(Queue()), id)
      ensures forall i :: 0 <= i < h.Length ==> h[i].cycles == old(h[i].cycles)
      ensures forall i :: 0 <= i < h.Length && i != id ==> h[i].active == old(h[i].active)
    {
      hide Chained, InOrder;
      if !h[id].active {
        AbsentFromQueue(h[..], order, id);
        return;
      }
      CyclesBound(h[..], order, id);
      SetHandler(id, false, h[id].cycles);
      if id == activeInt {
        UnlinkFirst();
      } else {
        UnlinkMiddle(id);
      }
    }

    /** Give handler `id` a new due time, whether or not it was pending. */
    method Schedule(id: int, due: int)
      requires Valid() && 0 < id < MAX_INTERRUPTS && id !in order && 0 <= due <= UINT64_MAX
      modifies this`activeInt, this`activeCycles, this`order, h
      ensures Valid() && Queue() == Insert(old(Queue()), Entry(id, due)) && h[id].cycles == due
      ensures forall i :: 0 <= i < h.Length && i != id ==> h[i].cycles == old(h[i].cycles)
    {
      hide Chained, InOrder;
      SetHandler(id, true, due);
      InsertInt(id);
    }

    /** Add an interrupt counted from when the last one should have occurred. */
    method AddAbsolute(cycleTime: int, kind: CycleType, id: int, clock: int)
      requires Valid() && 0 < id < MAX_INTERRUPTS
      modifies this`activeInt, this`activeCycles, this`order, h
      ensures Valid()
      ensures h[id].cycles == U64(ToInternal(cycleTime, kind) + delayedCycles + clock * INTERNAL)
      ensures Queue() == Insert(Remove(old(Queue()), id), Entry(id, h[id].cycles))
      ensures forall i :: 0 <= i < h.Length && i != id ==> h[i].cycles == old(h[i].cycles)
    {
      hide IsList, U64, ToInternal;
      RemovePending(id);
      Schedule(id, U64(ToInternal(cycleTime, kind) + delayedCycles + clock * INTERNAL));
    }

    /** Add an interrupt counted from now, plus an offset in internal cycles. */
    method AddRelativeWithOffset(cycleTime: int, kind: CycleType, id: int, offset: int, clock: int)
      requires Valid() && 0 < id < MAX_INTERRUPTS
      modifies this`activeInt, this`activeCycles, this`order, h
      ensures Valid()
      ensures h[id].cycles == U64(ToInternal(cycleTime, kind) + offset + clock * INTERNAL)
      ensures Queue() == Insert(Remove(old(Queue()), id), Entry(id, h[id].cycles))
      ensures forall i :: 0 <= i < h.Length && i != id ==> h[i].cycles == old(h[i].cycles)
    {
      hide IsList, U64, ToInternal;
      RemovePending(id);
      Schedule(id, U64(ToInternal(cycleTime, kind) + offset + clock * INTERNAL));
    }

    /** Make an interrupt happen earlier or later than planned. */
    method Modify(cycleTime: int, kind: CycleType, id: int)
      requires Valid() && 0 < id < MAX_INTERRUPTS
      modifies this`activeInt, this`activeCycles, this`order, h
      ensures Valid() && h[id].cycles == U64(old(h[id].cycles) + ToInternal(cycleTime, kind))
      ensures Queue() == Insert(Remove(old(Queue()), id), Entry(id, h[id].cycles))
      ensures forall i :: 0 <= i < h.Length && i != id ==> h[i].cycles == old(h[i].cycles)
    {
      hide Chained, InOrder, U64, ToInternal;
      RemovePending(id);
      Schedule(id, U64(h[id].cycles + ToInternal(cycleTime, kind)));
    }

    /** What is computed before the handler of the first interrupt is called at time `clock`. */
    method CallActiveHandler(clock: int)
      modifies this`pendingCount, this`delayedCycles
      ensures pendingCount == delayedCycles == Int32(activeCycles - clock * INTERNAL)
    {
      pendingCount := Int32(activeCycles - clock * INTERNAL);
      delayedCycles := pendingCount;
    }

    /** Call the first handler and let it acknowledge itself. */
    method TakeFirst(clock: int) returns (id: int)
      requires Valid() && activeInt != 0
      modifies this, h
      ensures Valid() && h == old(h) && 0 < id < MAX_INTERRUPTS
      ensures old(Queue()) == [Entry(id, old(activeCycles))] + Queue() && Remove(Queue(), id) == Queue()
      ensures pendingCount == delayedCycles == Int32(old(activeCycles) - clock * INTERNAL)
    {
      hide Chained, InOrder, Int32, U64;
      id := activeInt;
      Neighbours(h[..], order, 0);
      CallActiveHandler(clock);
      Acknowledge();
      AbsentFromQueue(h[..], order, id);
    }

    /** A periodic handler of the usual kind, called at time `clock`: acknowledge, then, at time
        `now`, add again from the due time. */
    method ServiceAbsolute(period: int, kind: CycleType, clock: int, now: int)
      requires Valid() && activeInt != 0
      modifies this, h
      ensures Valid() && h == old(h) && |old(Queue())| > 0
      ensures Queue() == Service(old(Queue()), ToInternal(period, kind), Call(clock, now))
    {
      hide IsList, Int32, U64, ToInternal, Insert, Remove, Service, Queue;
      ghost var due := activeCycles;
      var id := TakeFirst(clock);
      ServiceFirst(Entry(id, due), Queue(), ToInternal(period, kind), Call(clock, now));
      AddAbsolute(period, kind, id, now);
    }

    /** The ACIA timer's kind: add from now, with the lateness as a negative offset. */
    method ServiceAcia(period: int, clock: int, now: int)
      requires Valid() && activeInt != 0
      modifies this, h
      ensures Valid() && h == old(h) && |old(Queue())| > 0
      ensures Queue() == Service(old(Queue()), ToInternal(period, Cpu8Cycle), Call(clock, now))
    {
      hide IsList, Int32, U64, ToInternal, Insert, Remove, Service, Queue;
      ghost var due := activeCycles;
      var id := TakeFirst(clock);
      ServiceFirst(Entry(id, due), Queue(), ToInternal(period, Cpu8Cycle), Call(clock, now));
      var pendingCyclesOver := -pendingCount;
      AddRelativeWithOffset(period, Cpu8Cycle, id, -pendingCyclesOver, now);
    }

    /** How many cycles are left until a handler is due. */
    method FindCyclesRemaining(id: int, kind: CycleType, clock: int) returns (cycles: int)
      requires Valid() && 0 <= id < MAX_INTERRUPTS && cpuFreq > 0 && cpuScale > 0
      ensures cycles == FromInternal(Int64(h[id].cycles - clock * INTERNAL), kind)
    {
      var left := Int64(h[id].cycles - clock * INTERNAL);
      cycles := FromInternal(left, kind);
    }
  }

  /** Conversion to a 64-bit signed integer. */
  function Int64(x: int): int {
    var low := x % TWO64;
    if low < 0x8000_0000_0000_0000 then low else low - TWO64
  }

  lemma ExactQuotient(a: int, d: nat)
    requires d > 0
    ensures a * d / d == a
  {
    Arith.Division(a * d, d, a, 0);
  }

  /** Scaling n by f / m stays within 64 bits, and its result within 31. */
  predicate Scalable(n: nat, f: nat, m: nat)
    requires m > 0
  {
    n < TWO64 && n * f < TWO64 && n * f / m < 0x8000_0000
  }

  lemma Scaled(n: nat, f: nat, m: nat)
    requires m > 0 && Scalable(n, f, m)
    ensures Int32(U64(U64(n) * f) / m) == n * f / m && 0 <= n * f / m
  {
    SmallNumber(n);
    SmallNumber(n * f);
    Quotient(n * f, m);
  }

  lemma SmallNumber(n: nat)
    ensures n < TWO64 ==> U64(n) == n
    ensures n < 0x8000_0000 ==> Int32(n) == n
  {
  }

  lemma Quotient(n: nat, d: nat)
    requires d > 0
    ensures n / d * d <= n < n / d * d + d && (n / d * d == n <==> n % d == 0) && n / d >= 0
  {
    assert n == n / d * d + n % d;
  }

  /** The way back from the rounded quotient. */
  lemma ScaledBack(n: nat, f: nat, m: nat)
    requires 0 < m <= f && Scalable(n, f, m) && n < 0x8000_0000 && n % INTERNAL == 0
    ensures Int32(U64(U64(n * f / m) * m) / f) / INTERNAL == if n * f % m == 0 then n / INTERNAL else n / INTERNAL - 1
  {
    hide Int32, U64;
    var p := n * f / m * m;
    Quotient(n * f, m);
    SmallNumber(n * f / m);
    SmallNumber(p);
    if p == n * f {
      Arith.Division(p, f, n, 0);
      SmallNumber(n);
    } else {
      Below(n, f);
      Arith.Division(p, f, n - 1, p - (n - 1) * f);
      SmallNumber(n - 1);
    }
  }

  lemma Below(n: nat, f: nat)
    requires n * f > 0
    ensures n > 0 && (n - 1) * f == n * f - f
  {
    Arith.Distribute(n, -1, f);
  }
}
