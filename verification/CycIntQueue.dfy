/** The pending interrupts as a plain sorted sequence: what the linked list of `CycInt`
    stands for, and the timing laws proved of it. */
module CycIntQueue {

  const TWO32 := 0x1_0000_0000
  const TWO64 := 0x1_0000_0000_0000_0000

  /** Internal cycles per CPU cycle (the 8-bit precision shift). */
  const INTERNAL := 256

  function U64(x: int): (r: int)
    ensures 0 <= r < TWO64
  {
    x % TWO64
  }

  /** Conversion to a 32-bit signed integer. */
  function Int32(x: int): int {
    var low := x % TWO32;
    if low < 0x8000_0000 then low else low - TWO32
  }

  datatype Entry = Entry(id: int, cycles: int)

  predicate Sorted(q: seq<Entry>) {
    forall j, k :: 0 <= j < k < |q| ==> q[j].cycles <= q[k].cycles
  }

  predicate Distinct(q: seq<Entry>) {
    forall j, k :: 0 <= j < k < |q| ==> q[j].id != q[k].id
  }

  predicate Has(q: seq<Entry>, id: int) { exists k :: 0 <= k < |q| && q[k].id == id }

  /** Insert before the first entry that is not due earlier. */
  function Insert(q: seq<Entry>, e: Entry): (r: seq<Entry>)
    ensures |r| == |q| + 1
  {
    if q == [] || e.cycles <= q[0].cycles then [e] + q else [q[0]] + Insert(q[1..], e)
  }

  function Remove(q: seq<Entry>, id: int): seq<Entry> {
    if q == [] then [] else if q[0].id == id then q[1..] else [q[0]] + Remove(q[1..], id)
  }

  /** Insert puts the entry at the one place that keeps the order and precedes its ties. */
  lemma {:induction false} InsertAt(q: seq<Entry>, e: Entry, k: nat)
    requires k <= |q|
    requires forall j :: 0 <= j < k ==> q[j].cycles < e.cycles
    requires k < |q| ==> e.cycles <= q[k].cycles
    ensures Insert(q, e) == q[..k] + [e] + q[k..]
  {
    if k > 0 {
      var t := q[1..];
      assert forall j :: 0 <= j < |t| ==> t[j] == q[j + 1];
      InsertAt(t, e, k - 1);
      InsertLater(q, e);
      SpliceCons(q, e, k);
    }
  }

  lemma InsertLater(q: seq<Entry>, e: Entry)
    requires q != [] && e.cycles > q[0].cycles
    ensures Insert(q, e) == [q[0]] + Insert(q[1..], e)
  {
  }

  lemma SpliceCons(q: seq<Entry>, e: Entry, k: nat)
    requires 0 < k <= |q|
    ensures [q[0]] + (q[1..][..k - 1] + [e] + q[1..][k - 1..]) == q[..k] + [e] + q[k..]
  {
    assert q[..k] == [q[0]] + q[1..][..k - 1] && q[1..][k - 1..] == q[k..];
  }

  lemma {:induction false} RemoveAt(q: seq<Entry>, k: nat)
    requires k < |q| && Distinct(q)
    ensures Remove(q, q[k].id) == q[..k] + q[k + 1..]
  {
    if k > 0 {
      RemoveAt(q[1..], k - 1);
      assert q[..k] == [q[0]] + q[1..][..k - 1];
      assert q[1..][k..] == q[k + 1..];
    }
  }

  lemma {:induction false} RemoveAbsent(q: seq<Entry>, id: int)
    requires !Has(q, id)
    ensures Remove(q, id) == q
  {
    if q != [] {
      assert q[0].id != id;
      assert forall k :: 0 <= k < |q[1..]| ==> q[1..][k] == q[k + 1];
      RemoveAbsent(q[1..], id);
    }
  }

  // ----- timing -----

  /** A call of a handler: the CPU time it is called at, and the time its re-arm reads. */
  datatype Call = Call(at: int, now: int)

  /** The next due time of a periodic handler. */
  function Rearm(due: int, period: int, c: Call): int {
    U64(period + Int32(due - c.at * INTERNAL) + c.now * INTERNAL)
  }

  /** How many internal cycles after its due time a handler is called. */
  function Lateness(due: int, c: Call): int { c.at * INTERNAL - due }

  /** How many internal cycles go by between the call and the re-arm. */
  function Gap(c: Call): int { (c.now - c.at) * INTERNAL }

  /** The part of the lateness that the 32-bit pending count does not tell. */
  function Untold(due: int, c: Call): int { Lateness(due, c) + Int32(-Lateness(due, c)) }

  /** The re-arm corrects what the pending count tells of the lateness, and nothing corrects the
      gap. Up to 2^31 the pending count tells all. */
  lemma RearmIs(due: int, period: int, c: Call)
    ensures Rearm(due, period, c) == U64(due + period + Gap(c) + Untold(due, c))
    ensures 0 <= Lateness(due, c) ==> 0 <= Untold(due, c) <= Lateness(due, c) + 0x8000_0000
    ensures 0 <= Lateness(due, c) ==> (Untold(due, c) == 0 <==> Lateness(due, c) <= 0x8000_0000)
  {
    assert due - c.at * INTERNAL == -Lateness(due, c);
    assert period + Int32(-Lateness(due, c)) + c.now * INTERNAL == due + period + Gap(c) + Untold(due, c);
  }

  /** A late handler keeps its beat exactly when it is late by at most 2^31 internal cycles,
      the range of the 32-bit pending count, and no time passes before it is re-armed. */
  lemma NoDriftIff(due: int, period: int, c: Call)
    requires 0 <= Lateness(due, c) && 0 <= Gap(c) && Lateness(due, c) + Gap(c) < TWO64 - 0x8000_0000
    ensures Rearm(due, period, c) == U64(due + period) <==> Lateness(due, c) <= 0x8000_0000 && c.now == c.at
  {
    hide Rearm, Lateness, Gap, Untold;
    RearmIs(due, period, c);
    GapNone(c);
    U64Equal(due + period, Gap(c) + Untold(due, c));
  }

  lemma GapNone(c: Call)
    ensures Gap(c) == 0 <==> c.now == c.at
  {
  }

  /** Two handlers that lose their beat: one called 2^31 + 256 cycles late comes 2^32 cycles later than
      its period, and one re-armed a CPU cycle after its call 256 cycles later. */
  lemma Drifts()
    ensures var c := Call(0x80_0001, 0x80_0001);
      Lateness(0, c) == 0x8000_0100 && Rearm(0, 1000, c) == 1000 + TWO32
    ensures Rearm(0, 1000, Call(0, 1)) == 1000 + INTERNAL
  {
  }

  lemma U64Equal(x: int, over: int)
    requires -TWO64 < over < TWO64
    ensures U64(x + over) == U64(x) <==> over == 0
  {
  }

  /** One service of the first entry by a periodic handler. */
  function Service(q: seq<Entry>, period: int, c: Call): seq<Entry>
    requires q != []
  {
    Insert(q[1..], Entry(q[0].id, Rearm(q[0].cycles, period, c)))
  }

  lemma ServiceFirst(e: Entry, q: seq<Entry>, period: int, c: Call)
    ensures Service([e] + q, period, c) == Insert(q, Entry(e.id, Rearm(e.cycles, period, c)))
  {
    hide Rearm, Insert;
    assert ([e] + q)[1..] == q;
  }

  /** Insert keeps the queue sorted and adds exactly its entry. */
  lemma {:induction false} InsertKeeps(q: seq<Entry>, e: Entry)
    requires Sorted(q)
    ensures Sorted(Insert(q, e)) && multiset(Insert(q, e)) == multiset(q) + multiset{e}
  {
    hide Insert;
    InsertMultiset(q, e);
    InsertSorted(q, e);
  }

  lemma {:induction false} InsertMultiset(q: seq<Entry>, e: Entry)
    ensures multiset(Insert(q, e)) == multiset(q) + multiset{e}
  {
    if q != [] && e.cycles > q[0].cycles {
      InsertMultiset(q[1..], e);
      assert q == [q[0]] + q[1..];
    } else {
      assert multiset([e] + q) == multiset([e]) + multiset(q);
    }
  }

  lemma {:induction false} InsertSorted(q: seq<Entry>, e: Entry)
    requires Sorted(q)
    ensures Sorted(Insert(q, e))
  {
    hide Insert;
    if q != [] && e.cycles > q[0].cycles {
      SortedTail(q);
      InsertSorted(q[1..], e);
      InsertLater(q, e);
      InsertAbove(q[1..], e, q[0].cycles);
      SortedCons(q[0], Insert(q[1..], e));
    } else {
      InsertFirst(q, e);
      if q != [] { SortedAbove(q, e.cycles); }
      SortedCons(e, q);
    }
  }

  lemma InsertFirst(q: seq<Entry>, e: Entry)
    requires q == [] || e.cycles <= q[0].cycles
    ensures Insert(q, e) == [e] + q
  {
  }

  lemma SortedAbove(q: seq<Entry>, low: int)
    requires q != [] && Sorted(q) && low <= q[0].cycles
    ensures forall k :: 0 <= k < |q| ==> low <= q[k].cycles
  {
  }

  lemma {:induction false} InsertAbove(q: seq<Entry>, e: Entry, low: int)
    requires low <= e.cycles && forall k :: 0 <= k < |q| ==> low <= q[k].cycles
    ensures forall k :: 0 <= k < |Insert(q, e)| ==> low <= Insert(q, e)[k].cycles
  {
    if q != [] && e.cycles > q[0].cycles {
      InsertAbove(q[1..], e, low);
    }
  }

  lemma SortedTail(q: seq<Entry>)
    requires Sorted(q) && q != []
    ensures Sorted(q[1..]) && forall k :: 0 <= k < |q[1..]| ==> q[0].cycles <= q[1..][k].cycles
  {
  }

  lemma SortedCons(e: Entry, q: seq<Entry>)
    requires Sorted(q) && forall k :: 0 <= k < |q| ==> e.cycles <= q[k].cycles
    ensures Sorted([e] + q)
  {
  }

  function DueOf(q: seq<Entry>, id: int): int
    requires Has(q, id)
  {
    if q[0].id == id then q[0].cycles else HasTail(q, id); DueOf(q[1..], id)
  }

  lemma HasTail(q: seq<Entry>, id: int)
    requires Has(q, id) && q[0].id != id
    ensures Has(q[1..], id)
  {
    var k :| 0 <= k < |q| && q[k].id == id;
    assert q[1..][k - 1].id == id;
  }

  lemma HasCons(q: seq<Entry>, id: int)
    ensures q != [] ==> (Has(q, id) <==> q[0].id == id || Has(q[1..], id))
  {
    if q != [] && Has(q[1..], id) {
      var k :| 0 <= k < |q[1..]| && q[1..][k].id == id;
      assert q[k + 1].id == id;
    }
    if Has(q, id) && q[0].id != id { HasTail(q, id); }
  }

  lemma {:induction false} InsertDue(q: seq<Entry>, e: Entry, id: int)
    requires !Has(q, e.id)
    ensures Has(Insert(q, e), id) <==> id == e.id || Has(q, id)
    ensures Has(Insert(q, e), id) ==> DueOf(Insert(q, e), id) == if id == e.id then e.cycles else DueOf(q, id)
  {
    var r := Insert(q, e);
    HasCons(r, id);
    HasCons(q, id);
    HasCons(q, e.id);
    if q == [] || e.cycles <= q[0].cycles {
      assert r[1..] == q;
    } else {
      assert r[1..] == Insert(q[1..], e);
      InsertDue(q[1..], e, id);
    }
  }

  // ----- many periodic timers -----

  /** The queue after servicing its first entry once per call in the list. */
  function Run(q: seq<Entry>, period: int -> int, calls: seq<Call>): seq<Entry>
    decreases |calls|
  {
    if q == [] || calls == [] then q
    else Run(Service(q, period(q[0].id), calls[0]), period, calls[1..])
  }

  /** How often timer `id` is serviced in that run. */
  function Served(q: seq<Entry>, period: int -> int, calls: seq<Call>, id: int): nat
    decreases |calls|
  {
    if q == [] || calls == [] then 0
    else (if q[0].id == id then 1 else 0)
         + Served(Service(q, period(q[0].id), calls[0]), period, calls[1..], id)
  }

  /** The internal cycles that go by between the calls of timer `id` and its re-arms. */
  function Slipped(q: seq<Entry>, period: int -> int, calls: seq<Call>, id: int): int
    decreases |calls|
  {
    if q == [] || calls == [] then 0
    else (if q[0].id == id then Gap(calls[0]) else 0)
         + Slipped(Service(q, period(q[0].id), calls[0]), period, calls[1..], id)
  }

  /** Every service is late by 0 to 2^31 internal cycles, and no due time leaves 64 bits. */
  predicate InRange(q: seq<Entry>, period: int -> int, calls: seq<Call>)
    decreases |calls|
  {
    q == [] || calls == [] ||
    (&& 0 <= Lateness(q[0].cycles, calls[0]) <= 0x8000_0000
     && 0 <= q[0].cycles + period(q[0].id) + Gap(calls[0]) < TWO64
     && InRange(Service(q, period(q[0].id), calls[0]), period, calls[1..]))
  }

  /** One service moves its timer on by one period and the gap, and no other. */
  lemma ServiceStep(q: seq<Entry>, period: int, c: Call, id: int)
    requires Sorted(q) && Distinct(q) && Has(q, id)
    requires 0 <= Lateness(q[0].cycles, c) <= 0x8000_0000 && 0 <= q[0].cycles + period + Gap(c) < TWO64
    ensures var n := Service(q, period, c);
      && Sorted(n) && Distinct(n) && Has(n, id)
      && DueOf(n, id) == DueOf(q, id) + if q[0].id == id then period + Gap(c) else 0
  {
    hide Insert, Rearm, Lateness, Gap;
    var head := q[0];
    var e := Entry(head.id, Rearm(head.cycles, period, c));
    assert e.cycles == head.cycles + period + Gap(c) by { OnTime(head.cycles, period, c); }
    assert !Has(q[1..], head.id);
    InsertKeeps(q[1..], e);
    InsertDue(q[1..], e, id);
    InsertDistinct(q[1..], e);
    HasCons(q, id);
  }

  lemma OnTime(due: int, period: int, c: Call)
    requires 0 <= Lateness(due, c) <= 0x8000_0000 && 0 <= due + period + Gap(c) < TWO64
    ensures Rearm(due, period, c) == due + period + Gap(c)
  {
    hide Rearm, Lateness, Gap, Untold;
    RearmIs(due, period, c);
  }

  /** However the services interleave and however late they are (within the pending count's
      range), a timer serviced n times is due exactly n periods later, plus what slipped by
      between its calls and its re-arms. */
  lemma {:induction false} TimersKeepTheBeat(q: seq<Entry>, period: int -> int, calls: seq<Call>, id: int)
    requires Sorted(q) && Distinct(q) && Has(q, id) && InRange(q, period, calls)
    ensures Sorted(Run(q, period, calls)) && Has(Run(q, period, calls), id)
    ensures DueOf(Run(q, period, calls), id)
         == DueOf(q, id) + Served(q, period, calls, id) * period(id) + Slipped(q, period, calls, id)
    decreases |calls|
  {
    hide Sorted, Distinct, Service, DueOf, Lateness, Gap;
    if calls != [] {
      ServiceStep(q, period(q[0].id), calls[0], id);
      TimersKeepTheBeat(Service(q, period(q[0].id), calls[0]), period, calls[1..], id);
    }
  }

  /** With every re-arm at the time of its call, nothing slips by. */
  lemma {:induction false} NothingSlips(q: seq<Entry>, period: int -> int, calls: seq<Call>, id: int)
    requires forall k :: 0 <= k < |calls| ==> calls[k].now == calls[k].at
    ensures Slipped(q, period, calls, id) == 0
    decreases |calls|
  {
    hide Service;
    if q != [] && calls != [] {
      NothingSlips(Service(q, period(q[0].id), calls[0]), period, calls[1..], id);
    }
  }

  lemma {:induction false} InsertDistinct(q: seq<Entry>, e: Entry)
    requires Distinct(q) && !Has(q, e.id)
    ensures Distinct(Insert(q, e))
  {
    if q != [] && e.cycles > q[0].cycles {
      var rest := Insert(q[1..], e);
      HasCons(q, e.id);
      InsertDistinct(q[1..], e);
      InsertDue(q[1..], e, q[0].id);
      assert !Has(q[1..], q[0].id);
      assert forall k :: 0 <= k < |rest| ==> rest[k].id != q[0].id;
    }
  }
}
