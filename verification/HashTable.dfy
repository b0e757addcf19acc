/**
 The open-addressing hash table: linear probing over a circular array, with a shared tombstone for
 deleted entries. It is a multiset of entries as long as one cell is still NULL.
 */
module HashTable {

  const SIZE: nat := 20

  datatype Item = Item(key: int, data: int)

  // A cell is a null pointer or points to an item; all deleted cells point to the same dummy.
  datatype Cell = Null | Ptr(item: Item)

  const DUMMY: Item := Item(-1, -1)

  datatype Found = Nothing | Just(item: Item)

  function HashCode(key: nat): (h: nat)
    ensures h < SIZE
  {
    key % SIZE
  }

  // The k-th cell probed for a key.
  function Probe(key: nat, k: nat): (i: nat)
    ensures i < SIZE
  {
    (HashCode(key) + k) % SIZE
  }

  // How many cells are probed before cell i.
  function Distance(key: nat, i: nat): (k: nat)
    requires i < SIZE
    ensures k < SIZE && Probe(key, k) == i
  {
    (i + SIZE - HashCode(key)) % SIZE
  }

  /** Probing begins at the remainder of the key and goes on cell by cell, from the last one back to the first. */
  lemma ProbingOrder(key: nat, k: nat)
    ensures exists q: nat :: key == q * SIZE + Probe(key, 0)
    ensures Probe(key, k + 1) == if Probe(key, k) == SIZE - 1 then 0 else Probe(key, k) + 1
  {
    assert key == (key / SIZE) * SIZE + Probe(key, 0);
  }

  lemma DistanceUnique(key: nat, k: nat)
    requires k < SIZE
    ensures Distance(key, Probe(key, k)) == k
  {
  }

  predicate IsEntry(cell: Cell) { cell.Ptr? && cell.item.key >= 0 }

  predicate HasKey(cell: Cell, key: int) { cell.Ptr? && cell.item.key == key }

  predicate Vacant(cell: Cell) { cell == Null || cell.item.key == -1 }

  // No NULL lies between the home slot of an entry and the entry.
  ghost predicate Reachable(cells: seq<Cell>, i: nat)
    requires |cells| == SIZE && i < SIZE
  {
    IsEntry(cells[i]) ==>
      forall k: nat | k < Distance(cells[i].item.key, i) :: cells[Probe(cells[i].item.key, k)] != Null
  }

  ghost predicate Sound(cells: seq<Cell>) {
    && |cells| == SIZE
    && (forall i: nat | i < SIZE :: cells[i].Ptr? ==> IsEntry(cells[i]) || cells[i].item == DUMMY)
    && (forall i: nat | i < SIZE :: Reachable(cells, i))
  }

  ghost predicate HasNull(cells: seq<Cell>) { exists i: nat :: i < |cells| && cells[i] == Null }

  // ---------- The entries, as a multiset ----------

  function EntryOf(cell: Cell): multiset<Item> { if IsEntry(cell) then multiset{cell.item} else multiset{} }

  function Entries(cells: seq<Cell>): multiset<Item> {
    if cells == [] then multiset{} else EntryOf(cells[0]) + Entries(cells[1..])
  }

  lemma AddInFront(front: multiset<Item>, a: multiset<Item>, b: multiset<Item>, c: multiset<Item>, d: multiset<Item>)
    requires a + b == c + d
    ensures (front + a) + b == (front + c) + d
  {
    assert (front + a) + b == front + (a + b) && (front + c) + d == front + (c + d);
  }

  lemma {:induction false} EntriesUpdate(cells: seq<Cell>, i: nat, cell: Cell)
    requires i < |cells|
    ensures Entries(cells[i := cell]) + EntryOf(cells[i]) == Entries(cells) + EntryOf(cell)
    decreases |cells|
  {
    hide EntryOf;
    var after := cells[i := cell];
    assert Entries(after) == EntryOf(after[0]) + Entries(after[1..]);
    if i == 0 {
      assert after[1..] == cells[1..];
    } else {
      EntriesUpdate(cells[1..], i - 1, cell);
      assert after[1..] == cells[1..][i - 1 := cell] && cells[1..][i - 1] == cells[i];
      AddInFront(EntryOf(cells[0]), Entries(after[1..]), EntryOf(cells[i]), Entries(cells[1..]), EntryOf(cell));
    }
  }

  lemma {:induction false} EntryIn(cells: seq<Cell>, item: Item)
    requires item.key >= 0
    ensures item in Entries(cells) <==> exists i: nat :: i < |cells| && cells[i] == Ptr(item)
    decreases |cells|
  {
    if cells != [] {
      EntryIn(cells[1..], item);
      if item in EntryOf(cells[0]) { assert cells[0] == Ptr(item); }
      if i: nat :| i < |cells| && cells[i] == Ptr(item) {
        if i > 0 { assert cells[1..][i - 1] == Ptr(item); }
      }
      if item in Entries(cells[1..]) {
        var i: nat :| i < |cells[1..]| && cells[1..][i] == Ptr(item);
        assert cells[i + 1] == Ptr(item);
      }
    }
  }

  // ---------- Probing ----------

  // The first k cells probed hold neither NULL nor the key.
  ghost predicate PassedOver(cells: seq<Cell>, key: nat, k: nat)
    requires |cells| == SIZE
  {
    forall j: nat | j < k :: cells[Probe(key, j)] != Null && !HasKey(cells[Probe(key, j)], key)
  }

  /** What probing up to a NULL says: the key is nowhere in the table. */
  lemma NullMeansAbsent(cells: seq<Cell>, key: nat, k: nat)
    requires Sound(cells) && k < SIZE && PassedOver(cells, key, k) && cells[Probe(key, k)] == Null
    ensures forall i: nat | i < SIZE :: !HasKey(cells[i], key)
  {
    hide Probe, Distance;
    forall i: nat | i < SIZE
      ensures !HasKey(cells[i], key)
    {
      assert Reachable(cells, i) && Probe(key, Distance(key, i)) == i;
    }
  }

  lemma NoEntryFor(cells: seq<Cell>, key: nat, k: nat)
    requires Sound(cells) && k < SIZE && PassedOver(cells, key, k) && cells[Probe(key, k)] == Null
    ensures forall item | item in Entries(cells) :: item.key != key
  {
    NullMeansAbsent(cells, key, k);
    forall item | item in Entries(cells) ensures item.key != key { if item.key == key { EntryIn(cells, item); } }
  }

  lemma NullStays(cells: seq<Cell>, at: nat, cell: Cell)
    requires HasNull(cells) && at < |cells| && cells[at] != Null
    ensures HasNull(cells[at := cell])
  {
    var z: nat :| z < |cells| && cells[z] == Null;
    assert cells[at := cell][z] == Null;
  }

  // A whole round meets every cell.
  lemma RoundMeets(cells: seq<Cell>, key: nat)
    requires |cells| == SIZE && PassedOver(cells, key, SIZE)
    ensures !HasNull(cells)
  {
    forall i: nat | i < SIZE ensures cells[i] != Null { assert Probe(key, Distance(key, i)) == i; }
  }

  // The entry a search for key returns: the first one in probing order.
  ghost predicate Finds(cells: seq<Cell>, key: nat, k: nat)
    requires |cells| == SIZE
  {
    k < SIZE && PassedOver(cells, key, k) && HasKey(cells[Probe(key, k)], key)
  }

  // The cell an insertion takes.
  ghost predicate FirstVacant(cells: seq<Cell>, key: nat, k: nat)
    requires |cells| == SIZE
  {
    k < SIZE && Vacant(cells[Probe(key, k)]) && Taken(cells, key, k)
  }

  // The first k cells probed are neither NULL nor deleted.
  ghost predicate Taken(cells: seq<Cell>, key: nat, k: nat)
    requires |cells| == SIZE
  {
    forall j: nat | j < k :: !Vacant(cells[Probe(key, j)])
  }

  lemma RoundFull(cells: seq<Cell>, key: nat, i: nat)
    requires |cells| == SIZE && i < SIZE && Taken(cells, key, SIZE)
    ensures !Vacant(cells[i])
  {
    assert Probe(key, Distance(key, i)) == i;
  }

  // ---------- Updates ----------

  lemma InsertKeeps(cells: seq<Cell>, key: nat, data: int, k: nat)
    requires Sound(cells) && k < SIZE && Vacant(cells[Probe(key, k)])
    requires Taken(cells, key, k)
    ensures Sound(cells[Probe(key, k) := Ptr(Item(key, data))])
    ensures Entries(cells[Probe(key, k) := Ptr(Item(key, data))]) == Entries(cells) + multiset{Item(key, data)}
  {
    hide Probe, Distance, Entries;
    var at := Probe(key, k);
    EntriesUpdate(cells, at, Ptr(Item(key, data)));
    DistanceUnique(key, k);
    var after := cells[at := Ptr(Item(key, data))];
    forall i: nat | i < SIZE ensures Reachable(after, i) {
      FilledReachable(cells, at, Item(key, data), i);
    }
  }

  // Filling a cell cuts no entry off.
  lemma FilledReachable(cells: seq<Cell>, at: nat, item: Item, i: nat)
    requires |cells| == SIZE && at < SIZE && i < SIZE && Reachable(cells, i)
    requires i == at && item.key >= 0 ==>
               forall j: nat | j < Distance(item.key, at) :: cells[Probe(item.key, j)] != Null
    ensures Reachable(cells[at := Ptr(item)], i)
  {
    hide Probe, Distance;
  }

  lemma DeleteKeeps(cells: seq<Cell>, key: nat, k: nat)
    requires Sound(cells) && Finds(cells, key, k)
    ensures Sound(cells[Probe(key, k) := Ptr(DUMMY)])
    ensures Entries(cells) == Entries(cells[Probe(key, k) := Ptr(DUMMY)]) + multiset{cells[Probe(key, k)].item}
  {
    hide Probe, Distance, Entries;
    var at := Probe(key, k);
    EntriesUpdate(cells, at, Ptr(DUMMY));
    var after := cells[at := Ptr(DUMMY)];
    forall i: nat | i < SIZE ensures Reachable(after, i) { FilledReachable(cells, at, DUMMY, i); }
  }

  /** Deleting touches no other key: whatever was found for it is still what is found. */
  lemma OthersStayFindable(cells: seq<Cell>, key: nat, k: nat, other: nat, j: nat)
    requires Sound(cells) && Finds(cells, key, k) && other != key && Finds(cells, other, j)
    ensures Finds(cells[Probe(key, k) := Ptr(DUMMY)], other, j)
    ensures cells[Probe(key, k) := Ptr(DUMMY)][Probe(other, j)] == cells[Probe(other, j)]
  {
  }

  class Table {
    const hashArray: array<Cell>

    ghost predicate Valid()
      reads this, hashArray
    {
      hashArray.Length == SIZE && Sound(hashArray[..])
    }

    ghost function Contents(): multiset<Item>
      reads this, hashArray
    {
      Entries(hashArray[..])
    }

    constructor ()
      ensures Valid() && Contents() == multiset{} && fresh(hashArray)
      ensures forall i | 0 <= i < SIZE :: hashArray[i] == Null
    {
      hashArray := new Cell[SIZE](_ => Null);
      new;
      NoEntries(hashArray[..]);
    }

    /** search: an item with the key, the first in probing order, if there is one. */
    method Search(key: nat) returns (r: Found)
      requires Valid() && HasNull(hashArray[..])
      ensures r.Nothing? <==> forall item | item in Contents() :: item.key != key
      ensures r.Just? ==>
                && r.item in Contents()
                && exists k: nat :: Finds(hashArray[..], key, k) && hashArray[Probe(key, k)] == Ptr(r.item)
    {
      assert Probe(key, 0) == HashCode(key);
      var hashIndex := HashCode(key);
      hide Distance, Entries, Sound, HasNull, Probe, HashCode;
      ghost var k: nat := 0;
      while hashArray[hashIndex] != Null
        invariant k < SIZE && hashIndex == Probe(key, k) && PassedOver(hashArray[..], key, k)
        decreases SIZE - k
      {
        if hashArray[hashIndex].item.key == key {
          r := Just(hashArray[hashIndex].item);
          assert Finds(hashArray[..], key, k);
          EntryIn(hashArray[..], r.item);
          return;
        }
        if k + 1 == SIZE { RoundMeets(hashArray[..], key); }
        ProbingOrder(key, k);
        hashIndex := hashIndex + 1;
        hashIndex := hashIndex % SIZE;
        k := k + 1;
      }
      NoEntryFor(hashArray[..], key, k);
      r := Nothing;
    }

    /** insert: one more entry, in the first cell probed that is NULL or deleted. */
    method Insert(key: nat, data: int)
      requires Valid() && exists i: nat :: i < SIZE && Vacant(hashArray[i])
      modifies hashArray
      ensures Valid() && Contents() == old(Contents()) + multiset{Item(key, data)}
      ensures exists k: nat :: (FirstVacant(old(hashArray[..]), key, k)
                                && hashArray[..] == old(hashArray[..])[Probe(key, k) := Ptr(Item(key, data))])
    {
      assert Probe(key, 0) == HashCode(key);
      var hashIndex := HashCode(key);
      hide Distance, Entries, Sound, HasNull, Probe, HashCode;
      ghost var k: nat := 0;
      assert Taken(hashArray[..], key, 0);
      while hashArray[hashIndex] != Null && hashArray[hashIndex].item.key != -1
        invariant k < SIZE && hashIndex == Probe(key, k) && Taken(hashArray[..], key, k)
        invariant hashArray[..] == old(hashArray[..])
        decreases SIZE - k
      {
        assert Taken(hashArray[..], key, k + 1);
        if k + 1 == SIZE {
          var i: nat :| i < SIZE && Vacant(hashArray[i]);
          RoundFull(hashArray[..], key, i);
        }
        ProbingOrder(key, k);
        hashIndex := hashIndex + 1;
        hashIndex := hashIndex % SIZE;
        k := k + 1;
      }
      InsertKeeps(hashArray[..], key, data, k);
      assert FirstVacant(hashArray[..], key, k);
      hashArray[hashIndex] := Ptr(Item(key, data));
      assert hashArray[..] == old(hashArray[..])[hashIndex := Ptr(Item(key, data))];
    }

    /** delete: the entry search would return is replaced by the tombstone and returned. */
    method Delete(key: nat) returns (r: Found)
      requires Valid() && HasNull(hashArray[..])
      modifies hashArray
      ensures Valid() && HasNull(hashArray[..])
      ensures r.Nothing? <==> forall item | item in old(Contents()) :: item.key != key
      ensures r.Nothing? ==> hashArray[..] == old(hashArray[..])
      ensures r.Just? ==>
                exists k: nat :: (Finds(old(hashArray[..]), key, k) && old(hashArray[..])[Probe(key, k)] == Ptr(r.item)
                                            && hashArray[..] == old(hashArray[..])[Probe(key, k) := Ptr(DUMMY)])
      ensures r.Just? ==> old(Contents()) == Contents() + multiset{r.item}
    {
      assert Probe(key, 0) == HashCode(key);
      var hashIndex := HashCode(key);
      hide Distance, Entries, Sound, HasNull, Probe, HashCode;
      ghost var k: nat := 0;
      while hashArray[hashIndex] != Null
        invariant k < SIZE && hashIndex == Probe(key, k) && PassedOver(hashArray[..], key, k)
        invariant hashArray[..] == old(hashArray[..])
        decreases SIZE - k
      {
        if hashArray[hashIndex].item.key == key {
          r := Just(hashArray[hashIndex].item);
          assert Finds(hashArray[..], key, k);
          EntryIn(hashArray[..], r.item);
          DeleteKeeps(hashArray[..], key, k);
          hashArray[hashIndex] := Ptr(DUMMY);
          assert hashArray[..] == old(hashArray[..])[Probe(key, k) := Ptr(DUMMY)];
          NullStays(old(hashArray[..]), Probe(key, k), Ptr(DUMMY));
          return;
        }
        if k + 1 == SIZE { RoundMeets(hashArray[..], key); }
        ProbingOrder(key, k);
        hashIndex := hashIndex + 1;
        hashIndex := hashIndex % SIZE;
        k := k + 1;
      }
      NoEntryFor(hashArray[..], key, k);
      r := Nothing;
    }
  }

  lemma {:induction false} NoEntries(cells: seq<Cell>)
    requires forall i | 0 <= i < |cells| :: cells[i] == Null
    ensures Entries(cells) == multiset{}
  {
    if cells != [] { NoEntries(cells[1..]); }
  }
}
