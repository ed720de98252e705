/**
 The timing wheel as it is stored: one intrusive doubly linked list of entries per
 slot, a vector of entries indexed by id and a stack of recycled ids. The class is
 proved to behave as the map of module TimerSpec.
 */
module TimingWheel {
  import opened Wrappers
  import opened Bits
  import opened TimerSpec

  class Entry {
    var id: nat
    var deadline: nat
    var cancelled: bool
    var next: Entry?
    var prev: Entry?
    ghost var slot: nat  // the slot whose list holds this entry
    ghost var rank: int  // grows along that list

    constructor (id: nat, deadline: nat)
      ensures this.id == id && this.deadline == deadline && !cancelled && next == null && prev == null
    {
      this.id, this.deadline, cancelled, next, prev := id, deadline, false, null, null;
    }
  }

  class SlotLists {
    var heads: seq<Entry?>
    ghost var linked: set<Entry>

    /** Neighbours point at each other, stay in their slot and are ordered by rank. */
    ghost predicate Chained(e: Entry)
      reads this, linked
      requires e in linked
    {
      && e.slot < |heads|
      && (e.next != null ==>
            e.next in linked && e.next.prev == e && e.next.slot == e.slot && e.rank < e.next.rank)
      && (e.prev != null ==> e.prev in linked && e.prev.next == e)
      && (e.prev == null ==> heads[e.slot] == e)
      && heads[e.slot] != null && heads[e.slot] in linked && heads[e.slot].rank <= e.rank
    }

    /** Rank identifies an entry within its slot, and `next` skips nobody. */
    ghost predicate Ordered(e: Entry, f: Entry)
      reads this, linked
      requires e in linked && f in linked
    {
      e.slot == f.slot ==>
        && (e.rank == f.rank ==> e == f)
        && (e.rank < f.rank ==> e.next != null && e.next in linked && e.next.rank <= f.rank)
    }

    ghost predicate Valid()
      reads this, linked
    {
      && (forall e {:trigger Chained(e)} | e in linked :: Chained(e))
      && (forall e, f {:trigger Ordered(e, f)} | e in linked && f in linked :: Ordered(e, f))
      && (forall k | 0 <= k < |heads| && heads[k] != null ::
            heads[k] in linked && heads[k].slot == k && heads[k].prev == null)
    }

    constructor (slots: nat)
      ensures Valid() && linked == {} && |heads| == slots
    {
      heads := seq(slots, _ => null);
      linked := {};
    }

    /** `insert_entry`: push at the head of the slot's list. */
    method Insert(entry: Entry, k: nat)
      requires Valid() && entry !in linked && k < |heads|
      modifies this, entry`next, entry`prev, entry`slot, entry`rank, linked`prev
      ensures Valid() && linked == old(linked) + {entry} && |heads| == old(|heads|)
      ensures entry.slot == k
    {
      entry.prev := null;
      entry.next := heads[k];
      entry.slot := k;
      entry.rank := 0;
      if heads[k] != null {
        entry.rank := heads[k].rank - 1;
        heads[k].prev := entry;
      }
      heads := heads[k := entry];
      linked := linked + {entry};
      InsertedValid(entry, k);
    }

    twostate predicate Inserted(entry: Entry, k: nat)
      reads this, linked, entry
    {
      && old(Valid()) && entry !in old(linked) && k < old(|heads|)
      && linked == old(linked) + {entry} && heads == old(heads)[k := entry]
      && entry.prev == null && entry.next == old(heads[k]) && entry.slot == k
      && (entry.next != null ==> entry.rank < entry.next.rank)
      && (forall e | e in old(linked) :: e.slot == old(e.slot) && e.rank == old(e.rank) && e.next == old(e.next)
            && e.prev == if e == entry.next then entry else old(e.prev))
    }

    twostate lemma InsertedValid(entry: Entry, new k: nat)
      requires Inserted(entry, k)
      ensures Valid()
    {
      InsertedChained(entry, k);
      InsertedOrdered(entry, k);
    }

    twostate lemma InsertedChained(entry: Entry, new k: nat)
      requires Inserted(entry, k)
      ensures forall e | e in linked :: Chained(e)
    {
      forall e | e in linked ensures Chained(e) {
        if e != entry {
          assert old(Chained(e));
        }
      }
    }

    twostate lemma InsertedOrdered(entry: Entry, new k: nat)
      requires Inserted(entry, k)
      ensures forall e, f | e in linked && f in linked :: Ordered(e, f)
    {
      forall e, f | e in linked && f in linked ensures Ordered(e, f) {
        if e != entry && f != entry {
          assert old(Ordered(e, f)) && old(Chained(e));
        } else if e != entry {
          assert old(Chained(e));
        } else if f != entry {
          assert old(Chained(f));
        }
      }
    }

    /** `remove_entry`: unlink from the slot's list. */
    method Remove(entry: Entry, k: nat)
      requires Valid() && entry in linked && k == entry.slot
      modifies this, linked`next, linked`prev
      ensures Valid() && linked == old(linked) - {entry} && |heads| == old(|heads|)
      ensures entry.next == null && entry.prev == null
    {
      assert Chained(entry);
      if entry.prev != null {
        entry.prev.next := entry.next;
      } else {
        heads := heads[k := entry.next];
      }
      if entry.next != null {
        entry.next.prev := entry.prev;
      }
      entry.prev := null;
      entry.next := null;
      linked := linked - {entry};
      RemovedValid(entry, k);
    }

    twostate predicate Removed(entry: Entry, k: nat)
      reads this, linked
    {
      && old(Valid()) && entry in old(linked) && k == old(entry.slot) && k < old(|heads|)
      && linked == old(linked) - {entry}
      && heads == (if old(entry.prev) == null then old(heads)[k := old(entry.next)] else old(heads))
      && (forall e | e in linked ::
            && e.slot == old(e.slot) && e.rank == old(e.rank)
            && e.next == (if e == old(entry.prev) then old(entry.next) else old(e.next))
            && e.prev == (if e == old(entry.next) then old(entry.prev) else old(e.prev)))
    }

    twostate lemma RemovedValid(entry: Entry, new k: nat)
      requires Removed(entry, k)
      ensures Valid()
    {
      assert old(Chained(entry));
      RemovedOrdered(entry, k);
      RemovedChained(entry, k);
      forall j | 0 <= j < |heads| && heads[j] != null
        ensures heads[j] in linked && heads[j].slot == j && heads[j].prev == null
      {
      }
    }

    twostate lemma RemovedChained(entry: Entry, new k: nat)
      requires Removed(entry, k)
      ensures forall e | e in linked :: Chained(e)
    {
      assert old(Chained(entry));
      forall e | e in linked ensures Chained(e) {
        assert old(Chained(e)) && old(Ordered(entry, e)) && old(Ordered(e, entry));
      }
    }

    twostate lemma RemovedOrdered(entry: Entry, new k: nat)
      requires Removed(entry, k)
      ensures forall e, f | e in linked && f in linked :: Ordered(e, f)
    {
      assert old(Chained(entry));
      forall e, f | e in linked && f in linked ensures Ordered(e, f) {
        assert old(Ordered(e, f)) && old(Ordered(entry, f)) && old(Chained(e));
      }
    }

    /** Phase 2 of a tick: unlink every collected entry. */
    method RemoveAll(buf: seq<Entry>, k: nat)
      requires Valid() && forall i | 0 <= i < |buf| :: buf[i] in linked && buf[i].slot == k
      requires forall i, j | 0 <= i < j < |buf| :: buf[i] != buf[j]
      modifies this, linked`next, linked`prev
      ensures Valid() && linked == old(linked) - Elements(buf) && |heads| == old(|heads|)
    {
      for j := 0 to |buf|
        invariant Valid() && linked == old(linked) - Elements(buf[..j]) && |heads| == old(|heads|)
      {
        Remove(buf[j], k);
        assert Elements(buf[..j + 1]) == Elements(buf[..j]) + {buf[j]};
      }
      assert buf[..|buf|] == buf;
    }

    /** Phase 1 of a tick: walk the slot's list and collect the entries whose deadline is `now`. */
    method CollectDue(k: nat, now: nat) returns (buf: seq<Entry>)
      requires Valid() && k < |heads|
      ensures forall e :: e in buf <==> e in linked && e.slot == k && !e.cancelled && e.deadline == now
      ensures forall i, j | 0 <= i < j < |buf| :: buf[i] != buf[j]
    {
      buf := [];
      var cur := heads[k];
      ghost var rest := set e | e in linked && e.slot == k;
      assert forall e | e in linked :: Chained(e);
      while cur != null
        invariant cur != null ==> cur in linked && cur.slot == k
        invariant rest == set e | e in linked && e.slot == k && cur != null && cur.rank <= e.rank
        invariant forall e :: e in buf <==> e in linked && e.slot == k && !e.cancelled && e.deadline == now && e !in rest
        invariant forall i, j | 0 <= i < j < |buf| :: buf[i] != buf[j]
        decreases rest
      {
        assert Chained(cur);
        assert forall f | f in linked :: Ordered(cur, f);
        var next := cur.next;
        if !cur.cancelled && cur.deadline == now {
          buf := buf + [cur];
        }
        rest := rest - {cur};
        cur := next;
      }
    }
  }

  lemma IsCancelled(w: Wheel, id: nat, v: Wheel)
    requires id in w.deadline && v.slots == w.slots && v.now == w.now && v.nextId == w.nextId
    requires v.deadline == w.deadline - {id} && v.free == w.free + [id]
    ensures v == Cancelled(w, id)
  {
  }

  lemma IsScheduled(w: Wheel, ticks: nat, v: Wheel)
    requires ticks < w.slots && v.slots == w.slots && v.now == w.now
    requires v.deadline == w.deadline[FreshId(w) := w.now + ticks]
    requires if w.free != [] then v.free == w.free[..|w.free| - 1] && v.nextId == w.nextId
             else v.free == [] && v.nextId == w.nextId + 1
    ensures v == Scheduled(w, ticks)
  {
  }

  ghost function Elements(s: seq<Entry>): set<Entry> {
    set e | e in s
  }

  lemma FiredIsDue(due: set<nat>, fired: seq<nat>)
    requires (forall id | id in fired :: id in due) && (forall id | id in due :: id in fired)
    ensures ToSet(fired) == due
  {
  }

  ghost function Cleared(es: seq<Entry?>, ids: seq<nat>): (r: seq<Entry?>)
    ensures |r| == |es|
  {
    if ids == [] then es
    else
      var r := Cleared(es, ids[..|ids| - 1]);
      if ids[|ids| - 1] < |r| then r[ids[|ids| - 1] := null] else r
  }

  lemma {:induction false} ClearedAt(es: seq<Entry?>, ids: seq<nat>)
    ensures forall i: nat | i < |es| :: Cleared(es, ids)[i] == if i in ids then null else es[i]
  {
    if ids == [] {
    } else {
      ClearedAt(es, ids[..|ids| - 1]);
      assert ids == ids[..|ids| - 1] + [ids[|ids| - 1]];
    }
  }

  lemma OneFewer(m: map<nat, nat>, fired: seq<nat>, id: nat)
    requires id in m && id !in fired
    ensures |m - ToSet(fired + [id])| == |m - ToSet(fired)| - 1
  {
    var before := m - ToSet(fired);
    assert m - ToSet(fired + [id]) == before - {id};
    assert id in before;
    assert (before - {id}).Keys == before.Keys - {id};
  }

  ghost predicate Forgettable(ids: seq<nat>, m: map<nat, nat>, n: nat, j: nat)
    requires j < |ids|
  {
    ids[j] in m && ids[j] !in ids[..j] && ids[j] < n
  }

  /** Clearing one more id. */
  lemma ForgetOne(es: seq<Entry?>, m: map<nat, nat>, ids: seq<nat>, j: nat)
    requires j < |ids| && Forgettable(ids, m, |es|, j)
    ensures ids[..j + 1] == ids[..j] + [ids[j]]
    ensures Cleared(es, ids[..j + 1]) == Cleared(es, ids[..j])[ids[j] := null]
    ensures |m - ToSet(ids[..j + 1])| == |m - ToSet(ids[..j])| - 1
  {
    assert ids[..j + 1] == ids[..j] + [ids[j]];
    assert ids[..j + 1][..j] == ids[..j];
    OneFewer(m, ids[..j], ids[j]);
  }

  lemma WithoutOne(m: map<nat, nat>, id: nat)
    requires id in m
    ensures |m - {id}| == |m| - 1
  {
    OneFewer(m, [], id);
    assert m - ToSet([]) == m && m - ToSet([] + [id]) == m - {id};
  }

  // ---- The stages of a tick ----

  /** The wheel between two callbacks, and the ids whose callbacks are still to come. */
  datatype Stage = Stage(wheel: Wheel, pending: set<nat>)

  function Recycled(w: Wheel, id: nat): Wheel {
    w.(free := w.free + [id])
  }

  ghost predicate StageFollows(stages: seq<Stage>, fired: seq<nat>, callback: nat -> seq<Op>, k: nat)
    requires k < |fired| && |stages| == |fired| + 1
  {
    && stages[k + 1].wheel == Recycled(PerformAll(stages[k].wheel, callback(k)), fired[k])
    && IdsOk(stages[k + 1].wheel, stages[k + 1].pending)
  }

  lemma StagesOf(before: Wheel, fired: seq<nat>, callback: nat -> seq<Op>) returns (stages: seq<Stage>)
    requires IdsOk(before, {}) && FiresExactlyDue(before, fired)
    ensures |stages| == |fired| + 1 && forall k: nat | k < |fired| :: StageFollows(stages, fired, callback, k)
    ensures stages[0].wheel == before.(deadline := before.deadline - Due(before))
    ensures IdsOk(stages[0].wheel, stages[0].pending) && stages[|fired|].pending == {}
    ensures var last := stages[|fired|].wheel;
            last.(now := last.now + 1) == Ticked(before, fired, Replies(callback, |fired|))
  {
    var scripts := Replies(callback, |fired|);
    stages := seq(|fired| + 1, k requires 0 <= k <= |fired| =>
      Stage(AfterCallbacks(before, fired, scripts, k), From(fired, k)));
    forall k: nat | k < |fired| ensures StageFollows(stages, fired, callback, k) {
      PendingIdsStayReserved(before, fired, scripts, k + 1);
    }
    PendingIdsStayReserved(before, fired, scripts, 0);
    assert From(fired, |fired|) == {};
  }

  class IntrusiveWheel {
    const bits: nat  // 2^bits slots
    const lists: SlotLists
    var entries: seq<Entry?>
    var freeIds: seq<nat>
    var nextId: nat
    var currentTick: nat
    var activeCount: nat

    ghost function Live(): set<Entry>
      reads `entries
    {
      set i | 0 <= i < |entries| && entries[i] != null :: entries[i]
    }

    ghost function Deadlines(): map<nat, nat>
      reads `entries, Live()`deadline
    {
      map i: nat | i < |entries| && entries[i] != null :: entries[i].deadline
    }

    ghost function View(): Wheel
      reads this, Live()
    {
      Wheel(Pow2(bits), currentTick, Deadlines(), freeIds, nextId)
    }

    /** The id vector and the slot lists hold the same entries, each in the slot of its deadline. */
    ghost predicate Linked()
      reads `entries, lists, lists.linked
    {
      && lists.Valid() && |lists.heads| == Pow2(bits)
      && (forall i: nat {:trigger Held(i)} | i < |entries| && entries[i] != null :: Held(i))
      && (forall e {:trigger Filed(e)} | e in lists.linked :: Filed(e))
    }

    ghost predicate Held(i: nat)
      reads `entries, lists, lists.linked
      requires i < |entries|
    {
      entries[i] in lists.linked && entries[i].id == i
    }

    ghost predicate Filed(e: Entry)
      reads `entries, lists, lists.linked
      requires e in lists.linked
    {
      e.id < |entries| && entries[e.id] == e && !e.cancelled && e.slot == MaskIndex(e.deadline, bits)
    }

    /** The vectors agree in size; a recyclable id has no entry. */
    ghost predicate Sized()
      reads this, Live()
    {
      && 1 <= nextId && |entries| <= nextId && (nextId > 1 ==> |entries| == nextId)
      && activeCount == |Deadlines()|
    }

    ghost predicate Valid(pending: set<nat>)
      reads this, lists, lists.linked, Live()
    {
      Linked() && Sized() && IdsOk(View(), pending)
    }

    constructor (bits: nat)
      ensures Valid({}) && fresh(lists) && lists.linked == {}
      ensures View() == Wheel(Pow2(bits), 0, map[], [], 1)
    {
      this.bits := bits;
      lists := new SlotLists(Pow2(bits));
      entries, freeIds, nextId, currentTick, activeCount := [], [], 1, 0, 0;
      new;
      assert Deadlines() == map[];
    }

    /** Pop a recycled id, or extend the id vector by a fresh one. */
    method TakeId() returns (id: nat)
      requires Linked() && 1 <= nextId && |entries| <= nextId && (nextId > 1 ==> |entries| == nextId)
      requires forall i | i in freeIds :: i < |entries|
      modifies this`freeIds, this`nextId, this`entries
      ensures id == old(FreshId(View()))
      ensures if old(freeIds) != [] then freeIds == old(freeIds)[..|old(freeIds)| - 1] && nextId == old(nextId)
              else freeIds == [] && nextId == old(nextId) + 1
      ensures Linked() && Deadlines() == old(Deadlines())
      ensures id < |entries| == nextId && (old(freeIds) == [] ==> entries[id] == null)
      ensures old(freeIds) != [] ==> entries == old(entries)
    {
      if freeIds != [] {
        id := freeIds[|freeIds| - 1];
        assert id in freeIds;
        freeIds := freeIds[..|freeIds| - 1];
      } else {
        id := nextId;
        nextId := nextId + 1;
        if id >= |entries| {
          entries := entries + seq(id + 1 - |entries|, _ => null);
          ExtendedLinked();
        }
      }
    }

    /** Extending the id vector by empty places changes no entry. */
    twostate lemma ExtendedLinked()
      requires old(Linked()) && unchanged(lists) && unchanged(lists.linked)
      requires old(entries) <= entries && forall i | |old(entries)| <= i < |entries| :: entries[i] == null
      ensures Linked() && Deadlines() == old(Deadlines())
    {
      forall e | e in lists.linked ensures Filed(e) {
        assert old(Filed(e));
      }
      forall i: nat | i < |entries| && entries[i] != null ensures Held(i) {
        assert old(Held(i));
      }
    }

    /** Create the entry, link it into the slot of its deadline and record it under its id. */
    method Place(id: nat, deadline: nat)
      requires Linked() && id < |entries| && entries[id] == null
      modifies this`entries, lists, lists.linked
      ensures Linked() && fresh(lists.linked - old(lists.linked)) && |entries| == old(|entries|)
      ensures Deadlines() == old(Deadlines())[id := deadline]
    {
      var entry := new Entry(id, deadline);
      lists.Insert(entry, MaskIndex(deadline, bits));
      entries := entries[id := entry];
      PlacedLinked(entry, id);
      PlacedDeadlines(entry, id);
    }

    twostate predicate SameEntry(e: Entry)
      reads e
    {
      e.id == old(e.id) && e.deadline == old(e.deadline) && e.cancelled == old(e.cancelled) && e.slot == old(e.slot)
    }

    twostate predicate Placed(new entry: Entry, id: nat)
      reads this, lists, lists.linked, entry
    {
      && old(Linked()) && id < old(|entries|) && old(entries)[id] == null
      && entry !in old(lists.linked) && lists.linked == old(lists.linked) + {entry}
      && (forall e | e in old(lists.linked) :: SameEntry(e))
      && entries == old(entries)[id := entry]
      && entry.id == id && !entry.cancelled && entry.slot == MaskIndex(entry.deadline, bits)
    }

    twostate lemma PlacedLinked(new entry: Entry, id: nat)
      requires Placed(entry, id) && lists.Valid() && |lists.heads| == Pow2(bits)
      ensures Linked()
    {
      forall e | e in lists.linked ensures Filed(e) {
        if e != entry {
          assert SameEntry(e) && old(Filed(e));
        }
      }
      forall i: nat | i < |entries| && entries[i] != null ensures Held(i) {
        if i != id {
          assert old(Held(i));
          assert SameEntry(entries[i]);
        }
      }
    }

    twostate lemma PlacedDeadlines(new entry: Entry, id: nat)
      requires Placed(entry, id)
      ensures Deadlines() == old(Deadlines())[id := entry.deadline]
    {
      forall i: nat | i < |entries| && entries[i] != null && i != id
        ensures entries[i].deadline == old(entries[i].deadline)
      {
        assert old(Held(i));
        assert SameEntry(entries[i]);
      }
    }

    /** Unlink the entry under this id and forget it. */
    method Unplace(id: nat)
      requires Linked() && id < |entries| && entries[id] != null
      modifies this`entries, lists, lists.linked
      ensures Linked() && lists.linked <= old(lists.linked) && |entries| == old(|entries|)
      ensures Deadlines() == old(Deadlines()) - {id} && |Deadlines()| == |old(Deadlines())| - 1
    {
      var entry := entries[id];
      assert Held(id) && Filed(entry);
      lists.Remove(entry, MaskIndex(entry.deadline, bits));
      entry.cancelled := true;
      entries := entries[id := null];
      UnplacedLinked(entry, id);
      UnplacedDeadlines(entry, id);
      WithoutOne(old(Deadlines()), id);
    }

    twostate predicate Unplaced(entry: Entry, id: nat)
      reads this, lists, lists.linked
    {
      && old(Linked()) && id < old(|entries|) && old(entries)[id] == entry
      && lists.linked == old(lists.linked) - {entry}
      && (forall e | e in lists.linked :: SameEntry(e))
      && entries == old(entries)[id := null]
    }

    twostate lemma UnplacedLinked(entry: Entry, new id: nat)
      requires Unplaced(entry, id) && lists.Valid() && |lists.heads| == Pow2(bits)
      ensures Linked()
    {
      forall e | e in lists.linked ensures Filed(e) {
        assert SameEntry(e) && old(Filed(e));
      }
      forall i: nat | i < |entries| && entries[i] != null ensures Held(i) {
        assert old(Held(i)) && old(Held(id));
        assert SameEntry(entries[i]);
      }
    }

    twostate lemma UnplacedDeadlines(entry: Entry, new id: nat)
      requires Unplaced(entry, id)
      ensures Deadlines() == old(Deadlines()) - {id}
    {
      forall i: nat | i < |entries| && entries[i] != null
        ensures entries[i].deadline == old(entries[i].deadline)
      {
        assert old(Held(i)) && old(id < |entries| && entries[id] != null ==> Held(id));
        assert SameEntry(entries[i]);
      }
    }

    /** Move the entry under this id to the slot of a new deadline, reusing the object. */
    method Relink(id: nat, deadline: nat)
      requires Linked() && id < |entries| && entries[id] != null
      modifies lists, lists.linked
      ensures Linked() && lists.linked == old(lists.linked)
      ensures Deadlines() == old(Deadlines())[id := deadline]
    {
      var entry := entries[id];
      assert Held(id) && Filed(entry);
      lists.Remove(entry, MaskIndex(entry.deadline, bits));
      entry.deadline := deadline;
      lists.Insert(entry, MaskIndex(deadline, bits));
      RelinkedLinked(entry, id);
    }

    twostate lemma RelinkedLinked(entry: Entry, new id: nat)
      requires old(Linked()) && id < |entries| && entries == old(entries) && entry == entries[id]
      requires lists.Valid() && |lists.heads| == Pow2(bits) && lists.linked == old(lists.linked)
      requires forall e | e in lists.linked && e != entry :: SameEntry(e)
      requires entry.id == old(entry.id) && entry.cancelled == old(entry.cancelled)
      requires entry.slot == MaskIndex(entry.deadline, bits)
      ensures Linked() && Deadlines() == old(Deadlines())[id := entry.deadline]
    {
      forall e | e in lists.linked ensures Filed(e) {
        assert old(Filed(e));
      }
      forall i: nat | i < |entries| && entries[i] != null ensures Held(i) {
        assert old(Held(i)) && old(Held(id));
        if i != id {
          assert SameEntry(entries[i]);
        }
      }
      forall i: nat | i < |entries| && entries[i] != null && i != id
        ensures entries[i].deadline == old(entries[i].deadline)
      {
        assert old(Held(i)) && old(Held(id));
        assert SameEntry(entries[i]);
      }
    }

    method AddEntry(ticks: nat) returns (id: nat)
      requires Linked() && Sized() && ticks < Pow2(bits)
      requires forall i | i in freeIds :: i < |entries| && entries[i] == null
      modifies this, lists, lists.linked
      ensures Linked() && Sized() && fresh(lists.linked - old(lists.linked))
      ensures View() == Scheduled(old(View()), ticks) && id == FreshId(old(View()))
    {
      ghost var before := View();
      assert freeIds != [] ==> freeIds[|freeIds| - 1] in freeIds;
      id := TakeId();
      ghost var mid := Deadlines();
      assert mid == before.deadline;
      Place(id, currentTick + ticks);
      ghost var after := Deadlines();
      activeCount := activeCount + 1;
      assert Deadlines() == after;
      IsScheduled(before, ticks, View());
    }

    method DropEntry(id: nat)
      requires Linked() && Sized() && id < |entries| && entries[id] != null
      modifies this, lists, lists.linked
      ensures Linked() && Sized() && lists.linked <= old(lists.linked)
      ensures View() == Cancelled(old(View()), id)
    {
      ghost var before := View();
      Unplace(id);
      ghost var after := Deadlines();
      freeIds, activeCount := freeIds + [id], activeCount - 1;
      assert Deadlines() == after;
      IsCancelled(before, id, View());
    }

    /** `schedule`: `ok` is false when the request was out of range. */
    method Schedule(ticks: nat, ghost pending: set<nat>) returns (id: nat, ok: bool)
      requires Valid(pending)
      modifies this, lists, lists.linked
      ensures Valid(pending) && fresh(lists.linked - old(lists.linked))
      ensures ok <==> ticks < Pow2(bits)
      ensures View() == Scheduled(old(View()), ticks)
      ensures ok ==> id == FreshId(old(View()))
    {
      id, ok := 0, ticks < Pow2(bits);
      if ok {
        PerformKeepsIds(View(), pending, TimerSpec.Schedule(ticks));
        id := AddEntry(ticks);
      }
    }

    /** `cancel`: unknown, expired and cancelled ids are ignored. */
    method Cancel(id: nat, ghost pending: set<nat>)
      requires Valid(pending)
      modifies this, lists, lists.linked
      ensures Valid(pending) && lists.linked <= old(lists.linked)
      ensures View() == Cancelled(old(View()), id)
    {
      if id >= |entries| || entries[id] == null {
        return;
      }
      PerformKeepsIds(View(), pending, TimerSpec.Cancel(id));
      DropEntry(id);
    }

    /** `reschedule`: `ok` is false when the request was out of range. */
    method Reschedule(id: nat, ticks: nat, ghost pending: set<nat>) returns (ok: bool)
      requires Valid(pending)
      modifies this, lists, lists.linked
      ensures Valid(pending) && lists.linked == old(lists.linked)
      ensures ok <==> ticks < Pow2(bits)
      ensures View() == Rescheduled(old(View()), id, ticks)
    {
      ok := ticks < Pow2(bits);
      if !ok || id >= |entries| || entries[id] == null {
        return;
      }
      ghost var before := View();
      PerformKeepsIds(before, pending, TimerSpec.Reschedule(id, ticks));
      Relink(id, currentTick + ticks);
      assert View() == Rescheduled(before, id, ticks);
    }

    /** What one expiry callback does to the wheel. */
    method RunCallback(ops: seq<Op>, ghost pending: set<nat>)
      requires Valid(pending)
      modifies this, lists, lists.linked
      ensures Valid(pending) && fresh(lists.linked - old(lists.linked))
      ensures View() == PerformAll(old(View()), ops)
    {
      for j := 0 to |ops|
        invariant Valid(pending) && fresh(lists.linked - old(lists.linked))
        invariant View() == PerformAll(old(View()), ops[..j])
      {
        assert ops[..j + 1][..j] == ops[..j];
        match ops[j] {
          case Schedule(n) =>
            var id, ok := Schedule(n, pending);
          case Cancel(id) =>
            Cancel(id, pending);
          case Reschedule(id, n) =>
            var ok := Reschedule(id, n, pending);
        }
      }
      assert ops[..|ops|] == ops;
    }

    /** The collected entries are exactly the due ones, with distinct ids. */
    lemma DueIsCollected(buf: seq<Entry>) returns (ids: seq<nat>)
      requires Linked()
      requires forall e :: e in buf <==>
                 e in lists.linked && e.slot == MaskIndex(currentTick, bits) && !e.cancelled && e.deadline == currentTick
      requires forall i, j | 0 <= i < j < |buf| :: buf[i] != buf[j]
      ensures forall i | 0 <= i < |buf| :: buf[i] in lists.linked && buf[i].slot == MaskIndex(currentTick, bits)
      ensures Names(buf, ids) && FiresExactlyDue(View(), ids)
    {
      ids := ListIds(buf);
      forall i | 0 <= i < |buf|
        ensures && buf[i] in lists.linked && buf[i].slot == MaskIndex(currentTick, bits)
                && buf[i].id in Due(View()) && buf[i].id < |entries| && entries[buf[i].id] == buf[i]
      {
        assert buf[i] in buf;
        assert Filed(buf[i]);
      }
      forall id | id in Due(View()) ensures id in ids {
        assert Held(id) && Filed(entries[id]);
        var i :| 0 <= i < |buf| && buf[i] == entries[id];
        assert ids[i] == id;
      }
    }

    static lemma {:induction false} ListIds(buf: seq<Entry>) returns (ids: seq<nat>)
      ensures |ids| == |buf| && forall i | 0 <= i < |buf| :: ids[i] == buf[i].id
    {
      ids := [];
      if buf == [] {
      } else {
        var rest := ListIds(buf[..|buf| - 1]);
        ids := rest + [buf[|buf| - 1].id];
      }
    }

    /** `ids` are the distinct ids of the entries in `buf`, as recorded in the id vector. */
    ghost predicate Names(buf: seq<Entry>, ids: seq<nat>)
      reads `entries, buf
    {
      && |ids| == |buf|
      && forall i {:trigger NameAt(buf, ids, i)} | 0 <= i < |buf| :: NameAt(buf, ids, i)
    }

    ghost predicate NameAt(buf: seq<Entry>, ids: seq<nat>, i: nat)
      reads `entries, buf
      requires i < |buf| == |ids|
    {
      && ids[i] !in ids[..i]
      && ids[i] == buf[i].id && ids[i] < |entries| && entries[ids[i]] == buf[i]
    }

    twostate lemma TakenLinked(buf: seq<Entry>, new fired: seq<nat>)
      requires old(Linked()) && lists.Valid() && |lists.heads| == Pow2(bits)
      requires lists.linked == old(lists.linked) - Elements(buf)
      requires forall e | e in old(lists.linked) :: SameEntry(e)
      requires |entries| == old(|entries|) && Elements(buf) <= old(lists.linked) && old(Names(buf, fired))
      requires forall i: nat | i < |entries| :: entries[i] == if i in fired then null else old(entries)[i]
      ensures Linked() && Deadlines() == old(Deadlines()) - ToSet(fired)
    {
      forall e | e in lists.linked ensures Filed(e) {
        assert SameEntry(e) && old(Filed(e));
        forall i | 0 <= i < |fired| ensures fired[i] != e.id {
          assert old(NameAt(buf, fired, i));
          assert buf[i] in Elements(buf);
        }
      }
      forall i: nat | i < |entries| && entries[i] != null
        ensures Held(i) && entries[i].deadline == old(entries[i].deadline)
      {
        assert old(Held(i));
        assert SameEntry(entries[i]);
        forall j | 0 <= j < |buf| ensures buf[j] != entries[i] {
          assert old(NameAt(buf, fired, j));
        }
      }
    }

    /** Phase 3a of a tick: clear the places of the expired entries in the id vector. */
    method ForgetAll(buf: seq<Entry>, ghost ids: seq<nat>, ghost m: map<nat, nat>) returns (fired: seq<nat>)
      requires activeCount == |m| && |ids| == |buf| && forall j | 0 <= j < |buf| :: buf[j].id == ids[j]
      requires forall j: nat | j < |ids| :: Forgettable(ids, m, |entries|, j)
      modifies `entries, `activeCount
      ensures fired == ids && entries == Cleared(old(entries), ids) && activeCount == |m - ToSet(ids)|
    {
      fired := [];
      assert m - ToSet(ids[..0]) == m;
      for j := 0 to |buf|
        invariant fired == ids[..j] && entries == Cleared(old(entries), ids[..j])
        invariant activeCount == |m - ToSet(ids[..j])|
      {
        assert Forgettable(ids, m, |old(entries)|, j);
        ForgetOne(old(entries), m, ids, j);
        entries := entries[buf[j].id := null];
        activeCount := activeCount - 1;
        fired := fired + [buf[j].id];
      }
      assert ids[..|buf|] == ids;
    }

    /** Phases 1 and 2 of a tick: find the due entries and unlink them. */
    method DetachDue(ghost before: Wheel) returns (buf: seq<Entry>, ghost ids: seq<nat>)
      requires Linked() && before == View()
      modifies lists, lists.linked
      ensures lists.Valid() && |lists.heads| == Pow2(bits) && lists.linked == old(lists.linked) - Elements(buf)
      ensures forall e | e in old(lists.linked) :: SameEntry(e)
      ensures Names(buf, ids) && Elements(buf) <= old(lists.linked) && FiresExactlyDue(before, ids)
      ensures old(allocated(buf)) && old(Names(buf, ids))
      ensures Deadlines() == before.deadline
    {
      var k := MaskIndex(currentTick, bits);
      buf := lists.CollectDue(k, currentTick);
      ids := DueIsCollected(buf);
      lists.RemoveAll(buf, k);
      forall i: nat | i < |buf| ensures NameAt(buf, ids, i) {
        assert old(NameAt(buf, ids, i));
      }
    }

    /** Phases 1 to 3a of a tick: take the entries due now out of the lists and the id vector. */
    method TakeDue(ghost before: Wheel) returns (fired: seq<nat>)
      requires Linked() && Sized() && before == View()
      modifies `entries, `activeCount, lists, lists.linked
      ensures Linked() && Sized() && lists.linked <= old(lists.linked)
      ensures FiresExactlyDue(before, fired)
      ensures Deadlines() == before.deadline - Due(before)
    {
      var buf;
      ghost var ids;
      buf, ids := DetachDue(before);
      forall j: nat | j < |ids| ensures Forgettable(ids, before.deadline, |entries|, j) {
        assert NameAt(buf, ids, j);
      }
      forall j | 0 <= j < |buf| ensures buf[j].id == ids[j] {
        assert NameAt(buf, ids, j);
      }
      fired := ForgetAll(buf, ids, before.deadline);
      ClearedAt(old(entries), fired);
      FiredIsDue(Due(before), fired);
      TakenLinked(buf, fired);
    }

    /** Phase 3b: the id becomes recyclable once its callback has run. */
    method Recycle(id: nat, ghost pending: set<nat>, ghost rest: set<nat>)
      requires Valid(pending) && IdsOk(View().(free := freeIds + [id]), rest)
      modifies `freeIds
      ensures Valid(rest) && View() == old(View()).(free := old(freeIds) + [id])
    {
      ghost var v := View();
      freeIds := freeIds + [id];
      assert View() == v.(free := freeIds);
    }

    /** Phase 3b for one expired entry: run its callback, then recycle its id. */
    method Fire(id: nat, ops: seq<Op>, ghost pending: set<nat>, ghost rest: set<nat>, ghost after: Wheel)
      requires Valid(pending) && after == Recycled(PerformAll(View(), ops), id) && IdsOk(after, rest)
      modifies this, lists, lists.linked
      ensures Valid(rest) && View() == after && fresh(lists.linked - old(lists.linked))
    {
      RunCallback(ops, pending);
      Recycle(id, pending, rest);
    }

    /** Phase 3b: callbacks in the order the entries were collected, through the given stages. */
    method FireAll(fired: seq<nat>, callback: nat -> seq<Op>, ghost stages: seq<Stage>)
      requires |stages| == |fired| + 1 && forall k: nat | k < |fired| :: StageFollows(stages, fired, callback, k)
      requires Valid(stages[0].pending) && View() == stages[0].wheel
      modifies this, lists, lists.linked
      ensures Valid(stages[|fired|].pending) && View() == stages[|fired|].wheel
      ensures fresh(lists.linked - old(lists.linked))
    {
      for k := 0 to |fired|
        invariant Valid(stages[k].pending) && View() == stages[k].wheel
        invariant fresh(lists.linked - old(lists.linked))
      {
        assert StageFollows(stages, fired, callback, k);
        Fire(fired[k], callback(k), stages[k].pending, stages[k + 1].pending, stages[k + 1].wheel);
      }
    }

    /** One tick; `callback(k)` is what the callback for the k-th expired entry does to the wheel. */
    method Tick(callback: nat -> seq<Op>) returns (fired: seq<nat>)
      requires Valid({})
      modifies this, lists, lists.linked
      ensures Valid({}) && fresh(lists.linked - old(lists.linked))
      ensures FiresExactlyDue(old(View()), fired)
      ensures View() == Ticked(old(View()), fired, Replies(callback, |fired|))
    {
      ghost var before := View();
      fired := TakeDue(before);
      ghost var stages := StagesOf(before, fired, callback);
      FireAll(fired, callback, stages);
      Advance();
    }

    method Advance()
      requires Valid({})
      modifies `currentTick
      ensures Valid({}) && View() == old(View()).(now := old(currentTick) + 1)
    {
      ghost var v := View();
      currentTick := currentTick + 1;
      assert View() == v.(now := v.now + 1);
    }

    /** Changes elsewhere leave the wheel as it is. */
    twostate lemma Untouched(pending: set<nat>)
      requires old(Valid(pending)) && unchanged(this) && unchanged(lists) && unchanged(lists.linked)
      ensures Valid(pending) && View() == old(View())
    {
      forall e | e in Live() ensures e in lists.linked {
        var i :| 0 <= i < |entries| && entries[i] == e;
        assert old(Held(i));
      }
      assert unchanged(Live());
    }
  }
}
