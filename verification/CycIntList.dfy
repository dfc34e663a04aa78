/** The doubly linked list of `CycInt` on table values: what linking a handler in or out does
    to the list order and to the queue it stands for. */
module CycIntList {
  import opened CycIntQueue

  const MAX_INTERRUPTS := 28
  const UINT64_MAX := TWO64 - 1

  datatype Handler = Handler(active: bool, cycles: int, prev: int, next: int)

  // ----- the list on table values -----

  ghost predicate Ids(order: seq<int>) {
    && |order| > 0 && order[|order| - 1] == 0
    && (forall k :: 0 <= k < |order| ==> 0 <= order[k] < MAX_INTERRUPTS)
    && (forall j, k :: 0 <= j < k < |order| ==> order[j] != order[k])
  }

  ghost predicate Chained(t: seq<Handler>, order: seq<int>)
    requires |t| == MAX_INTERRUPTS && Ids(order)
  {
    && t[order[0]].prev == -1 && t[0].next == -1
    && (forall k :: 0 <= k < |order| - 1 ==> t[order[k]].next == order[k + 1])
    && (forall k :: 0 < k < |order| ==> t[order[k]].prev == order[k - 1])
  }

  ghost predicate InOrder(t: seq<Handler>, order: seq<int>)
    requires |t| == MAX_INTERRUPTS && Ids(order)
  {
    && t[0].cycles == UINT64_MAX
    && (forall i :: 0 <= i < |t| ==> 0 <= t[i].cycles <= UINT64_MAX)
    && (forall j, k :: 0 <= j < k < |order| ==> t[order[j]].cycles <= t[order[k]].cycles)
  }

  /** The handlers `order` are linked both ways, soonest first, the sentinel last. */
  ghost predicate IsList(t: seq<Handler>, order: seq<int>) {
    |t| == MAX_INTERRUPTS && Ids(order) && Chained(t, order) && InOrder(t, order)
  }

  ghost function Entries(t: seq<Handler>, order: seq<int>): (q: seq<Entry>)
    requires |t| == MAX_INTERRUPTS && Ids(order)
    ensures |q| == |order| - 1
    ensures forall k :: 0 <= k < |q| ==> q[k] == Entry(order[k], t[order[k]].cycles)
  {
    seq(|order| - 1, k requires 0 <= k < |order| - 1 => Entry(order[k], t[order[k]].cycles))
  }

  /** `o` is `order` with `id` put in at position `k`. */
  ghost predicate PutIn(o: seq<int>, order: seq<int>, k: nat, id: int) {
    && |o| == |order| + 1 && k < |order|
    && (forall j {:trigger o[j]} :: 0 <= j < |o| ==> o[j] == if j < k then order[j] else if j == k then id else order[j - 1])
  }

  /** `o` is `order` with position `k` taken out. */
  ghost predicate TakenOut(o: seq<int>, order: seq<int>, k: nat) {
    && |o| == |order| - 1 && k < |o|
    && (forall j {:trigger o[j]} :: 0 <= j < |o| ==> o[j] == if j < k then order[j] else order[j + 1])
  }

  /** Same table except for links. */
  ghost predicate SameData(t: seq<Handler>, t': seq<Handler>) {
    |t| == |t'| && forall i :: 0 <= i < |t| ==> t'[i].active == t[i].active && t'[i].cycles == t[i].cycles
  }

  /** `t'` is `t` with `id` linked in just before position `k`. */
  ghost predicate LinkedIn(t: seq<Handler>, t': seq<Handler>, order: seq<int>, k: nat, id: int)
    requires |t| == MAX_INTERRUPTS && Ids(order) && k < |order| && 0 < id < MAX_INTERRUPTS
  {
    && SameData(t, t')
    && (forall i :: 0 <= i < |t| && i != id && (k == 0 || i != order[k - 1]) ==> t'[i].next == t[i].next)
    && (forall i :: 0 <= i < |t| && i != id && i != order[k] ==> t'[i].prev == t[i].prev)
    && t'[id].next == order[k] && t'[id].prev == (if k == 0 then -1 else order[k - 1])
    && t'[order[k]].prev == id && (k > 0 ==> t'[order[k - 1]].next == id)
  }

  lemma WithIds(o: seq<int>, order: seq<int>, k: nat, id: int)
    requires Ids(order) && PutIn(o, order, k, id) && 0 < id < MAX_INTERRUPTS && id !in order
    ensures Ids(o) && forall i :: i in o <==> i == id || i in order
  {
    assert o[k] == id && forall j :: 0 <= j < |order| ==> order[j] == o[if j < k then j else j + 1];
  }

  lemma WithChained(t: seq<Handler>, t': seq<Handler>, o: seq<int>, order: seq<int>, k: nat, id: int)
    requires IsList(t, order) && PutIn(o, order, k, id) && 0 < id < MAX_INTERRUPTS && id !in order
    requires LinkedIn(t, t', order, k, id) && Ids(o)
    ensures Chained(t', o)
  {
    hide InOrder;
    forall j | 0 <= j < |o| - 1 ensures t'[o[j]].next == o[j + 1] {
      if j < k - 1 { assert order[j] != order[k - 1]; }
      else if j > k { assert k > 0 ==> order[j - 1] != order[k - 1]; }
    }
    forall j | 0 < j < |o| ensures t'[o[j]].prev == o[j - 1] {
      if j < k { assert order[j] != order[k]; }
      else if j > k + 1 { assert order[j - 1] != order[k]; }
    }
  }

  lemma WithInOrder(t: seq<Handler>, t': seq<Handler>, o: seq<int>, order: seq<int>, k: nat, id: int)
    requires |t| == |t'| == MAX_INTERRUPTS && Ids(order) && InOrder(t, order) && SameData(t, t')
    requires PutIn(o, order, k, id) && Ids(o) && 0 < id < MAX_INTERRUPTS
    requires forall j :: 0 <= j < k ==> t[order[j]].cycles < t[id].cycles
    requires t[id].cycles <= t[order[k]].cycles
    ensures InOrder(t', o)
  {
    forall i, j | 0 <= i < j < |o| ensures t'[o[i]].cycles <= t'[o[j]].cycles {
      if i == k { assert j - 1 == k || t[order[k]].cycles <= t[order[j - 1]].cycles; }
    }
  }

  lemma WithEntries(t: seq<Handler>, t': seq<Handler>, o: seq<int>, order: seq<int>, k: nat, id: int)
    requires |t| == |t'| == MAX_INTERRUPTS && Ids(order) && SameData(t, t')
    requires PutIn(o, order, k, id) && Ids(o) && 0 < id < MAX_INTERRUPTS
    requires forall j :: 0 <= j < k ==> t[order[j]].cycles < t[id].cycles
    requires t[id].cycles <= t[order[k]].cycles
    ensures Entries(t', o) == Insert(Entries(t, order), Entry(id, t[id].cycles))
  {
    hide Insert;
    var q, e := Entries(t, order), Entry(id, t[id].cycles);
    InsertAt(q, e, k);
    assert Entries(t', o) == q[..k] + [e] + q[k..];
  }

  lemma LinkInKeepsList(t: seq<Handler>, t': seq<Handler>, o: seq<int>, order: seq<int>, k: nat, id: int)
    requires IsList(t, order) && PutIn(o, order, k, id) && 0 < id < MAX_INTERRUPTS && id !in order
    requires LinkedIn(t, t', order, k, id)
    requires forall j :: 0 <= j < k ==> t[order[j]].cycles < t[id].cycles
    requires t[id].cycles <= t[order[k]].cycles
    ensures IsList(t', o) && forall i :: i in o <==> i == id || i in order
    ensures Entries(t', o) == Insert(Entries(t, order), Entry(id, t[id].cycles))
  {
    hide Chained, InOrder, Ids, PutIn;
    WithIds(o, order, k, id);
    WithChained(t, t', o, order, k, id);
    WithInOrder(t, t', o, order, k, id);
    WithEntries(t, t', o, order, k, id);
  }

  /** `t'` is `t` with the handler at position `k` bypassed (and nothing else relinked). */
  ghost predicate LinkedOut(t: seq<Handler>, t': seq<Handler>, order: seq<int>, k: nat)
    requires |t| == MAX_INTERRUPTS && Ids(order) && k < |order| - 1
  {
    && |t'| == |t| && (forall i :: 0 <= i < |t| ==> t'[i].cycles == t[i].cycles)
    && (forall i :: 0 <= i < |t| && (k == 0 || i != order[k - 1]) ==> t'[i].next == t[i].next)
    && (forall i :: 0 <= i < |t| && i != order[k + 1] ==> t'[i].prev == t[i].prev)
    && (k > 0 ==> t'[order[k - 1]].next == order[k + 1])
    && t'[order[k + 1]].prev == if k == 0 then -1 else order[k - 1]
  }

  lemma WithoutIds(o: seq<int>, order: seq<int>, k: nat)
    requires Ids(order) && TakenOut(o, order, k)
    ensures Ids(o) && forall i :: i in o <==> i in order && i != order[k]
  {
    assert forall j :: 0 <= j < |order| && j != k ==> order[j] == o[if j < k then j else j - 1];
  }

  lemma WithoutChained(t: seq<Handler>, t': seq<Handler>, o: seq<int>, order: seq<int>, k: nat)
    requires IsList(t, order) && TakenOut(o, order, k) && Ids(o) && LinkedOut(t, t', order, k)
    ensures Chained(t', o)
  {
    hide InOrder;
    forall j | 0 <= j < |o| - 1 ensures t'[o[j]].next == o[j + 1] {
      if j < k - 1 { assert order[j] != order[k - 1]; }
      else if j >= k { assert k > 0 ==> order[j + 1] != order[k - 1]; }
    }
    forall j | 0 < j < |o| ensures t'[o[j]].prev == o[j - 1] {
      if j < k { assert order[j] != order[k + 1]; }
      else if j > k { assert order[j + 1] != order[k + 1]; }
    }
    if k > 0 { assert order[0] != order[k + 1]; }
  }

  lemma LinkOutKeepsList(t: seq<Handler>, t': seq<Handler>, o: seq<int>, order: seq<int>, k: nat)
    requires IsList(t, order) && TakenOut(o, order, k) && LinkedOut(t, t', order, k)
    ensures IsList(t', o) && forall i :: i in o <==> i in order && i != order[k]
    ensures Entries(t', o) == Remove(Entries(t, order), order[k])
  {
    WithoutIds(o, order, k);
    WithoutChained(t, t', o, order, k);
    var q := Entries(t, order);
    RemoveAt(q, k);
    assert Entries(t', o) == q[..k] + q[k + 1..];
  }

  /** What one position of a list says about its links. */
  lemma Neighbours(t: seq<Handler>, order: seq<int>, k: nat)
    requires IsList(t, order) && k < |order|
    ensures 0 <= order[k] < MAX_INTERRUPTS && 0 <= order[0] < MAX_INTERRUPTS
    ensures t[order[k]].prev == (if k == 0 then -1 else order[k - 1])
    ensures k > 0 ==> order[k] != order[0] && 0 <= order[k - 1] < MAX_INTERRUPTS && order[k - 1] != order[k]
    ensures order[k] != 0 <==> k + 1 < |order|
    ensures k + 1 < |order| ==>
      0 <= order[k + 1] < MAX_INTERRUPTS && t[order[k]].next == order[k + 1] && order[k + 1] != order[k]
    ensures 0 < k < |order| - 1 ==> order[k - 1] != order[k + 1]
    ensures t[0].cycles == UINT64_MAX
  {
  }

  /** The list does not depend on the data of handlers outside it, nor on any active flag. */
  lemma OutsideTheList(t: seq<Handler>, t': seq<Handler>, order: seq<int>, id: int)
    requires IsList(t, order) && |t'| == |t| && 0 <= id < |t|
    requires forall i :: 0 <= i < |t| && i != id ==> t'[i] == t[i]
    requires t'[id] == t[id].(active := t'[id].active)
          || (id !in order && t'[id] == t[id].(active := t'[id].active, cycles := t'[id].cycles)
              && 0 <= t'[id].cycles <= UINT64_MAX)
    ensures IsList(t', order) && Entries(t', order) == Entries(t, order)
  {
    assert 0 in order;
    assert forall k :: 0 <= k < |order| ==> t'[order[k]] == t[order[k]].(active := t'[order[k]].active);
  }

  lemma CyclesBound(t: seq<Handler>, order: seq<int>, id: int)
    requires IsList(t, order) && 0 <= id < MAX_INTERRUPTS
    ensures 0 <= t[id].cycles <= UINT64_MAX
  {
  }

  lemma AbsentFromQueue(t: seq<Handler>, order: seq<int>, id: int)
    requires |t| == MAX_INTERRUPTS && Ids(order) && id !in order
    ensures !Has(Entries(t, order), id) && Remove(Entries(t, order), id) == Entries(t, order)
  {
    RemoveAbsent(Entries(t, order), id);
  }

  /** The queue a list stands for is sorted, has no handler twice and never the sentinel. */
  lemma QueueLaws(t: seq<Handler>, order: seq<int>)
    requires IsList(t, order)
    ensures Sorted(Entries(t, order)) && Distinct(Entries(t, order)) && !Has(Entries(t, order), 0)
    ensures forall id :: Has(Entries(t, order), id) <==> id in order && id != 0
  {
    var q := Entries(t, order);
    assert forall k :: 0 <= k < |q| ==> q[k].id == order[k] && order[k] != order[|order| - 1];
    forall id | id in order && id != 0 ensures Has(q, id) {
      var k :| 0 <= k < |order| && order[k] == id;
      assert q[k].id == id;
    }
  }
}
