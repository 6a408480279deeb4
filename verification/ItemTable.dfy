/**
 What the memoizing store promises, told on one relation instead of four maps:
 which tracker refers to which item id, and which item each live id stands for.
 */
module ItemTable {
  import opened IdMultimap

  /**
   A reference counted item. `rank` is the position of its pointee in the order
   T::LessThan, so two items are equivalent exactly when their ranks are equal.
   */
  datatype Item = Item(address: nat, rank: int)

  /** `refs` relates trackers to item ids; `issued` counts the ids handed out so far. */
  datatype Table = Table(refs: set<Pair>, live: map<int, Item>, issued: nat)

  const EMPTY: Table := Table({}, map[], 0)

  // ---------- Item ids: a 32-bit counter that starts at 1 and skips 0 ----------

  const MAX_INT := 0x7fff_ffff
  const MIN_INT := -0x8000_0000
  /** The number of different ids. */
  const CYCLE := 0xffff_ffff

  /** `next_item_id_++` followed by the reset of 0 to 1. */
  function Successor(id: int): int {
    var n := if id == MAX_INT then MIN_INT else id + 1;
    if n == 0 then 1 else n
  }

  /** The k-th id handed out. */
  function IdAt(k: nat): (id: int)
    ensures MIN_INT <= id <= MAX_INT && id != 0
    ensures k < CYCLE ==> IndexOf(id) == k
  {
    var m := k % CYCLE;
    if m < MAX_INT then m + 1 else m - CYCLE
  }

  /** The first position at which an id is handed out. */
  function IndexOf(id: int): int {
    if id > 0 then id - 1 else id + CYCLE
  }

  lemma SuccessorOfIdAt(k: nat)
    ensures Successor(IdAt(k)) == IdAt(k + 1)
  {
    var q, m := k / CYCLE, k % CYCLE;
    if m + 1 < CYCLE {
      assert k + 1 == q * CYCLE + (m + 1);
      ModUnique(k + 1, q, m + 1);
    } else {
      assert k + 1 == (q + 1) * CYCLE + 0;
      ModUnique(k + 1, q + 1, 0);
    }
  }

  lemma ModUnique(n: nat, q: nat, r: nat)
    requires n == q * CYCLE + r && r < CYCLE
    ensures n % CYCLE == r
  {
  }

  // ---------- Operations on the table ----------

  ghost predicate Referenced(refs: set<Pair>, id: int) {
    exists p :: p in refs && p.value == id
  }

  ghost predicate Known(a: Table, rank: int) {
    exists id :: id in a.live && a.live[id].rank == rank
  }

  /** The id `Store` answers with for an item of this rank. */
  ghost function IdFor(a: Table, rank: int): (id: int)
    ensures Known(a, rank) ==> id in a.live && a.live[id].rank == rank
    ensures !Known(a, rank) ==> id == IdAt(a.issued)
  {
    if Known(a, rank) then
      var id :| id in a.live && a.live[id].rank == rank;
      id
    else
      IdAt(a.issued)
  }

  ghost function Stored(a: Table, item: Item, tracker: int): Table {
    var id := IdFor(a, item.rank);
    var refs := a.refs + {Pair(tracker, id)};
    if Known(a, item.rank) then Table(refs, a.live, a.issued)
    else Table(refs, a.live[id := item], a.issued + 1)
  }

  ghost function Removed(a: Table, tracker: int): Table {
    var refs := set p | p in a.refs && p.key != tracker;
    Table(refs, map id | id in a.live && Referenced(refs, id) :: a.live[id], a.issued)
  }

  /** The next id is not in use: always so during the first CYCLE allocations. */
  ghost predicate CanStore(a: Table, rank: int) {
    Known(a, rank) || IdAt(a.issued) !in a.live
  }

  /** An id is live exactly while some tracker refers to it; equivalent items share one id. */
  ghost predicate Consistent(a: Table) {
    && (forall id :: id in a.live <==> Referenced(a.refs, id))
    && (forall i, j :: i in a.live && j in a.live && a.live[i].rank == a.live[j].rank ==> i == j)
  }

  lemma StoredConsistent(a: Table, item: Item, tracker: int)
    requires Consistent(a) && CanStore(a, item.rank)
    ensures Consistent(Stored(a, item, tracker))
  {
    var b := Stored(a, item, tracker);
    var id := IdFor(a, item.rank);
    assert Pair(tracker, id) in b.refs;
    forall i ensures i in b.live <==> Referenced(b.refs, i) {
      if Referenced(a.refs, i) {
        var p :| p in a.refs && p.value == i;
        assert p in b.refs;
      }
    }
  }

  lemma RemovedConsistent(a: Table, tracker: int)
    requires Consistent(a)
    ensures Consistent(Removed(a, tracker))
  {
    var b := Removed(a, tracker);
    forall i | Referenced(b.refs, i) ensures i in b.live {
      var p :| p in b.refs && p.value == i;
      assert p in a.refs;
    }
  }

  /**
   Removal deletes exactly the items whose only tracker was the removed one, and keeps
   every other item under the same id.
   */
  lemma RemovalDeletesSoleReferences(a: Table, tracker: int, id: int)
    requires Consistent(a) && id in a.live
    ensures id !in Removed(a, tracker).live
      <==> forall p :: p in a.refs && p.value == id ==> p == Pair(tracker, id)
    ensures id in Removed(a, tracker).live ==> Removed(a, tracker).live[id] == a.live[id]
  {
    var b := Removed(a, tracker);
    if id in b.live {
      var p :| p in b.refs && p.value == id;
      assert p in a.refs && p != Pair(tracker, id);
    } else {
      forall p | p in a.refs && p.value == id ensures p == Pair(tracker, id) {
        assert p !in b.refs;
      }
    }
  }

  // ---------- Runs ----------

  datatype Op = Store(item: Item, tracker: int) | Remove(tracker: int)

  ghost function Apply(a: Table, op: Op): Table {
    match op
    case Store(item, tracker) => Stored(a, item, tracker)
    case Remove(tracker) => Removed(a, tracker)
  }

  ghost function RunFrom(a: Table, ops: seq<Op>): Table {
    if ops == [] then a else Apply(RunFrom(a, ops[..|ops| - 1]), ops[|ops| - 1])
  }

  ghost function Run(ops: seq<Op>): Table {
    RunFrom(EMPTY, ops)
  }

  /** A table that some run with at most CYCLE allocations can reach. */
  ghost predicate Sound(a: Table) {
    && Consistent(a)
    && a.issued <= CYCLE
    && forall id :: id in a.live ==> MIN_INT <= id <= MAX_INT && id != 0 && IndexOf(id) < a.issued
  }

  lemma ApplySound(a: Table, op: Op)
    requires Sound(a) && Apply(a, op).issued <= CYCLE
    ensures Sound(Apply(a, op))
    ensures op.Store? ==> CanStore(a, op.item.rank)
  {
    match op
    case Store(item, tracker) =>
      StoredConsistent(a, item, tracker);
    case Remove(tracker) =>
      RemovedConsistent(a, tracker);
  }

  lemma {:induction false} RunFromSound(a: Table, ops: seq<Op>)
    requires Sound(a) && RunFrom(a, ops).issued <= CYCLE
    ensures Sound(RunFrom(a, ops)) && a.issued <= RunFrom(a, ops).issued
    ensures RunFrom(a, ops).issued < CYCLE ==> IdAt(RunFrom(a, ops).issued) !in RunFrom(a, ops).live
  {
    if ops != [] {
      var before := ops[..|ops| - 1];
      assert RunFrom(a, before).issued <= RunFrom(a, ops).issued;
      RunFromSound(a, before);
      ApplySound(RunFrom(a, before), ops[|ops| - 1]);
    }
  }

  lemma {:induction false} RunAppend(a: Table, ops: seq<Op>, more: seq<Op>)
    ensures RunFrom(a, ops + more) == RunFrom(RunFrom(a, ops), more)
  {
    if more == [] {
      assert ops + more == ops;
    } else {
      RunAppend(a, ops, more[..|more| - 1]);
      assert (ops + more)[..|ops + more| - 1] == ops + more[..|more| - 1];
    }
  }

  /**
   Ids are stable and never reused: whatever happens after a table has been reached,
   an id issued before is live later only if it was live all along, for the same item.
   */
  lemma {:induction false} IssuedIdsAreStable(a: Table, more: seq<Op>, id: int)
    requires Sound(a) && RunFrom(a, more).issued <= CYCLE
    requires MIN_INT <= id <= MAX_INT && id != 0 && IndexOf(id) < a.issued
    requires id in RunFrom(a, more).live
    ensures id in a.live && a.live[id] == RunFrom(a, more).live[id]
  {
    if more != [] {
      var before := more[..|more| - 1];
      RunFromSound(a, more);
      assert RunFrom(a, before).issued <= RunFrom(a, more).issued;
      RunFromSound(a, before);
      IssuedIdsAreStable(a, before, id);
    }
  }

  /** A dead id is never answered again; the id answered for a re-stored item is a later one. */
  lemma DeadIdNeverReturned(ops: seq<Op>, more: seq<Op>, id: int, item: Item, tracker: int)
    requires Run(ops + more + [Store(item, tracker)]).issued <= CYCLE
    requires MIN_INT <= id <= MAX_INT && id != 0 && IndexOf(id) < Run(ops).issued
    requires id !in Run(ops).live
    ensures id !in Run(ops + more).live
    ensures IdFor(Run(ops + more), item.rank) != id
    ensures !Known(Run(ops + more), item.rank) ==>
      IndexOf(id) < IndexOf(IdFor(Run(ops + more), item.rank))
    ensures !Known(Run(ops + more), item.rank) && Run(ops + more).issued < MAX_INT ==>
      id < IdFor(Run(ops + more), item.rank)
  {
    var a, b := Run(ops), Run(ops + more);
    RunAppend(EMPTY, ops, more);
    RunAppend(EMPTY, ops + more, [Store(item, tracker)]);
    var all := [Store(item, tracker)];
    assert RunFrom(b, all) == Apply(RunFrom(b, all[..0]), all[0]);
    assert RunFrom(b, []) == b;
    assert b.issued <= CYCLE;
    RunSoundFrom(ops, more);
    if id in b.live {
      IssuedIdsAreStable(a, more, id);
    }
  }

  lemma RunSoundFrom(ops: seq<Op>, more: seq<Op>)
    requires Run(ops + more).issued <= CYCLE
    ensures Sound(Run(ops)) && Sound(Run(ops + more))
    ensures Run(ops + more) == RunFrom(Run(ops), more) && Run(ops).issued <= Run(ops + more).issued
  {
    RunAppend(EMPTY, ops, more);
    IssuedGrows(Run(ops), more);
    RunFromSound(EMPTY, ops);
    RunFromSound(Run(ops), more);
  }

  lemma {:induction false} IssuedGrows(a: Table, ops: seq<Op>)
    ensures a.issued <= RunFrom(a, ops).issued
  {
    if ops != [] {
      IssuedGrows(a, ops[..|ops| - 1]);
    }
  }

  /** While an item stays live, every `Store` of an equivalent item answers the same id. */
  lemma LiveItemKeepsItsId(ops: seq<Op>, more: seq<Op>, id: int)
    requires Run(ops + more).issued <= CYCLE
    requires id in Run(ops).live && id in Run(ops + more).live
    ensures Run(ops + more).live[id] == Run(ops).live[id]
    ensures IdFor(Run(ops + more), Run(ops).live[id].rank) == id
  {
    RunSoundFrom(ops, more);
    IssuedIdsAreStable(Run(ops), more, id);
    assert Known(Run(ops + more), Run(ops).live[id].rank);
  }

  // ---------- Refinement of a plain relation between trackers and items ----------

  /** Who has stored what, and has not been removed since. */
  ghost predicate Holds(ops: seq<Op>, tracker: int, rank: int) {
    exists i :: 0 <= i < |ops| && StoresFor(ops[i], tracker, rank)
      && Remove(tracker) !in ops[i + 1..]
  }

  predicate StoresFor(op: Op, tracker: int, rank: int) {
    op.Store? && op.tracker == tracker && op.item.rank == rank
  }

  /** The table relates the tracker to the live item of that rank. */
  ghost predicate Linked(a: Table, tracker: int, rank: int) {
    exists id :: id in a.live && Pair(tracker, id) in a.refs && a.live[id].rank == rank
  }

  lemma HoldsStep(ops: seq<Op>, op: Op, tracker: int, rank: int)
    ensures Holds(ops + [op], tracker, rank)
      <==> StoresFor(op, tracker, rank) || (Holds(ops, tracker, rank) && op != Remove(tracker))
  {
    var all := ops + [op];
    if Holds(all, tracker, rank) {
      var i :| 0 <= i < |all| && StoresFor(all[i], tracker, rank) && Remove(tracker) !in all[i + 1..];
      if i < |ops| {
        assert all[i + 1..] == ops[i + 1..] + [op];
      }
    }
    if StoresFor(op, tracker, rank) {
      assert all[|ops|] == op && all[|ops| + 1..] == [];
    } else if Holds(ops, tracker, rank) && op != Remove(tracker) {
      var i :| 0 <= i < |ops| && StoresFor(ops[i], tracker, rank) && Remove(tracker) !in ops[i + 1..];
      assert all[i] == ops[i] && all[i + 1..] == ops[i + 1..] + [op];
    }
  }

  lemma LinkedStep(a: Table, op: Op, tracker: int, rank: int)
    requires Consistent(a) && (op.Store? ==> CanStore(a, op.item.rank))
    ensures Linked(Apply(a, op), tracker, rank)
      <==> StoresFor(op, tracker, rank) || (Linked(a, tracker, rank) && op != Remove(tracker))
  {
    var b := Apply(a, op);
    if Linked(a, tracker, rank) && op != Remove(tracker) {
      var id :| id in a.live && Pair(tracker, id) in a.refs && a.live[id].rank == rank;
      assert Pair(tracker, id) in b.refs && Referenced(b.refs, id);
      assert id in b.live && b.live[id].rank == rank;
    }
    if StoresFor(op, tracker, rank) {
      var id := IdFor(a, rank);
      assert id in b.live && Pair(tracker, id) in b.refs && b.live[id].rank == rank;
    }
    if Linked(b, tracker, rank) {
      var id :| id in b.live && Pair(tracker, id) in b.refs && b.live[id].rank == rank;
      if Pair(tracker, id) in a.refs {
        assert Referenced(a.refs, id);
        assert id in a.live && a.live[id].rank == rank;
      }
    }
  }

  /** Over any run the table relates a tracker to an item exactly as the plain relation does. */
  lemma {:induction false} RunRefinesRelation(ops: seq<Op>, tracker: int, rank: int)
    requires Run(ops).issued <= CYCLE
    ensures Linked(Run(ops), tracker, rank) <==> Holds(ops, tracker, rank)
  {
    if ops != [] {
      var before, op := ops[..|ops| - 1], ops[|ops| - 1];
      assert ops == before + [op];
      RunSoundFrom(before, [op]);
      RunRefinesRelation(before, tracker, rank);
      assert RunFrom(EMPTY, ops) == Apply(Run(before), op);
      ApplySound(Run(before), op);
      HoldsStep(before, op, tracker, rank);
      LinkedStep(Run(before), op, tracker, rank);
    }
  }

  /** An item can be retrieved exactly while some tracker that stored it has not been removed. */
  lemma RetrievableIffHeld(ops: seq<Op>, rank: int)
    requires Run(ops).issued <= CYCLE
    ensures Known(Run(ops), rank) <==> exists tracker :: Holds(ops, tracker, rank)
  {
    var a := Run(ops);
    RunFromSound(EMPTY, ops);
    if Known(a, rank) {
      var id :| id in a.live && a.live[id].rank == rank;
      var p :| p in a.refs && p.value == id;
      assert p == Pair(p.key, id);
      RunRefinesRelation(ops, p.key, rank);
      assert Holds(ops, p.key, rank);
    }
    if tracker :| Holds(ops, tracker, rank) {
      RunRefinesRelation(ops, tracker, rank);
    }
  }

  /**
   The destructor's check holds after a run exactly when every tracker that stored
   something has been removed afterwards.
   */
  lemma EmptyIffEveryTrackerRemoved(ops: seq<Op>)
    requires Run(ops).issued <= CYCLE
    ensures Run(ops).live == map[]
      <==> forall i :: 0 <= i < |ops| && ops[i].Store? ==> Remove(ops[i].tracker) in ops[i + 1..]
    ensures Run(ops).live == map[] ==> Run(ops).refs == {}
  {
    var a := Run(ops);
    RunFromSound(EMPTY, ops);
    if a.live == map[] {
      forall i | 0 <= i < |ops| && ops[i].Store? ensures Remove(ops[i].tracker) in ops[i + 1..] {
        var tracker, rank := ops[i].tracker, ops[i].item.rank;
        RunRefinesRelation(ops, tracker, rank);
        assert StoresFor(ops[i], tracker, rank);
      }
      if p :| p in a.refs {
        assert Referenced(a.refs, p.value);
      }
    } else {
      var id :| id in a.live;
      RetrievableIffHeld(ops, a.live[id].rank);
      assert Known(a, a.live[id].rank);
    }
  }

  // ---------- Which items are kept, and under which ids ----------

  /** Store `i` has been the first of an item that was not live at the time. */
  ghost predicate Issues(ops: seq<Op>, i: nat) {
    i < |ops| && ops[i].Store? && !Known(Run(ops[..i]), ops[i].item.rank)
  }

  /** How many stores have been of items that were not live. */
  ghost function Issued(ops: seq<Op>): nat {
    if ops == [] then 0 else Issued(ops[..|ops| - 1]) + if Issues(ops, |ops| - 1) then 1 else 0
  }

  /** The k-th of them is given the id k, as long as ids are positive; later ones go on from below. */
  lemma {:induction false} IdsAreGivenInOrder(ops: seq<Op>)
    ensures Run(ops).issued == Issued(ops)
    ensures Issued(ops) < MAX_INT ==> IdAt(Run(ops).issued) == Issued(ops) + 1
    ensures MAX_INT <= Issued(ops) < CYCLE ==> IdAt(Run(ops).issued) == MIN_INT + (Issued(ops) - MAX_INT)
  {
    if ops != [] {
      IdsAreGivenInOrder(ops[..|ops| - 1]);
      assert Run(ops) == Apply(Run(ops[..|ops| - 1]), ops[|ops| - 1]);
    }
  }

  /** The id stands for the very item that was stored when it was issued. */
  ghost predicate IsStoredBy(ops: seq<Op>, id: int, item: Item, i: nat) {
    Issues(ops, i) && ops[i].item == item && id == IdAt(Run(ops[..i]).issued)
  }

  lemma {:induction false} LiveItemsWereStored(ops: seq<Op>, id: int)
    requires Run(ops).issued <= CYCLE && id in Run(ops).live
    ensures exists i: nat :: IsStoredBy(ops, id, Run(ops).live[id], i)
  {
    if ops != [] {
      var n := |ops| - 1;
      var before, op := ops[..n], ops[n];
      var a := Run(before);
      assert ops == before + [op] && Run(ops) == Apply(a, op);
      IssuedGrows(a, [op]);
      RunOneMore(before, op);
      if id in a.live && a.live[id] == Run(ops).live[id] {
        LiveItemsWereStored(before, id);
        var i: nat :| IsStoredBy(before, id, a.live[id], i);
        assert before[..i] == ops[..i];
        assert IsStoredBy(ops, id, Run(ops).live[id], i);
      } else {
        assert IsStoredBy(ops, id, Run(ops).live[id], n);
      }
    }
  }

  // ---------- When the counter comes round ----------

  /** One item is kept, and another one stored and removed again and again. */
  function Churn(kept: Item, other: Item, n: nat): seq<Op> {
    if n == 0 then [Store(kept, 1)] else Churn(kept, other, n - 1) + [Store(other, 2)] + [Remove(2)]
  }

  lemma RunOneMore(ops: seq<Op>, op: Op)
    ensures Run(ops + [op]) == Apply(Run(ops), op)
  {
    assert (ops + [op])[..|ops|] == ops;
  }

  lemma RunOfOne(op: Op)
    ensures Run([op]) == Apply(EMPTY, op)
  {
    RunOneMore([], op);
    assert [] + [op] == [op] && Run([]) == EMPTY;
  }

  lemma {:induction false} ChurnKeepsFirst(kept: Item, other: Item, n: nat)
    requires kept.rank != other.rank && n < CYCLE
    ensures Run(Churn(kept, other, n)) == Table({Pair(1, 1)}, map[1 := kept], n + 1)
  {
    if n == 0 {
      RunOfOne(Store(kept, 1));
      assert IdFor(EMPTY, kept.rank) == 1;
    } else {
      ChurnKeepsFirst(kept, other, n - 1);
      RunOneRound(Churn(kept, other, n - 1), other);
      ChurnRound(kept, other, n);
    }
  }

  lemma RunOneRound(ops: seq<Op>, other: Item)
    ensures Run(ops + [Store(other, 2)] + [Remove(2)]) == Removed(Stored(Run(ops), other, 2), 2)
  {
    RunOneMore(ops, Store(other, 2));
    RunOneMore(ops + [Store(other, 2)], Remove(2));
  }

  lemma ChurnRound(kept: Item, other: Item, n: nat)
    requires kept.rank != other.rank && 0 < n < CYCLE
    ensures var a := Table({Pair(1, 1)}, map[1 := kept], n);
      Removed(Stored(a, other, 2), 2) == Table({Pair(1, 1)}, map[1 := kept], n + 1)
  {
    var a := Table({Pair(1, 1)}, map[1 := kept], n);
    var b, id := Stored(a, other, 2), IdAt(n);
    assert !Known(a, other.rank) && IndexOf(id) == n && IndexOf(1) == 0;
    assert b == Table({Pair(1, 1), Pair(2, id)}, map[1 := kept, id := other], n + 1);
    var c := Removed(b, 2);
    assert c.refs == {Pair(1, 1)};
    assert Referenced(c.refs, 1) by {
      assert Pair(1, 1) in c.refs;
    }
    assert !Referenced(c.refs, id);
    assert c.live == map[1 := kept];
  }

  /** Only then can the next id be in use; and a run shows that it can be. */
  lemma WrappedIdCanBeInUse(kept: Item, other: Item)
    requires kept.rank != other.rank
    ensures var a := Run(Churn(kept, other, CYCLE - 1));
      a.issued == CYCLE && a.live == map[1 := kept] && !CanStore(a, other.rank)
  {
    ChurnKeepsFirst(kept, other, CYCLE - 1);
    assert IdAt(CYCLE) == 1;
  }
}
