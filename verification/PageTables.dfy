/** The four-level page tables (kernel/arch/paging.hh and the map and unmap functions of
    kernel/mem/address_space.cc).

    A table is an object with 512 entries and a count of the used ones. Where a table or a leaf
    entry sits is named by its path of indices from the PML4. The address space knows, as ghost
    data, which paths hold tables and which hold leaves; every entry in the heap is determined by
    these two maps. */
module PageTables {
  import opened Sums

  const ENTRIES: nat := 512

  datatype Path = Top | At(table: Path, index: nat)

  function Depth(p: Path): nat {
    match p
    case Top => 0
    case At(t, _) => 1 + Depth(t)
  }

  /** What a leaf entry says: a physical address and the access flags. */
  datatype Mapping = Mapping(phys: nat, flags: Flags)

  datatype Flags = Flags(writable: bool, user: bool, cacheDisable: bool, isGlobal: bool, noExecute: bool)

  datatype Entry = Empty | Table(next: PageLevel) | Leaf(mapping: Mapping)

  function Used(): Entry -> int {
    (e: Entry) => if e.Empty? then 0 else 1
  }

  class PageLevel {
    var entries: seq<Entry>
    var entryCount: int

    ghost predicate Valid()
      reads this
    {
      |entries| == ENTRIES && entryCount == Sum(Used(), entries)
    }

    constructor ()
      ensures Valid() && forall i :: 0 <= i < ENTRIES ==> entries[i] == Empty
    {
      entries := seq(ENTRIES, _ => Empty);
      entryCount := 0;
      new;
      SumZero(Used(), entries);
    }

    /** The assertions of the destructor. */
    ghost predicate Deletable()
      reads this
    {
      entryCount == 0 && forall i :: 0 <= i < |entries| ==> entries[i] == Empty
    }

    method Set(index: nat, entry: Entry)
      requires Valid() && index < ENTRIES && !entry.Empty?
      requires entries[index] == Empty
      modifies this
      ensures Valid() && entries == old(entries)[index := entry] && entryCount == old(entryCount) + 1
    {
      SumUpdate(Used(), entries, index, entry);
      RoomLeft(entries, index);
      entries := entries[index := entry];
      assert entryCount < ENTRIES;
      entryCount := entryCount + 1;
    }

    method Unset(index: nat)
      requires Valid() && index < ENTRIES && entries[index] != Empty
      requires entries[index].Table? ==> entries[index].next.Deletable()
      modifies this
      ensures Valid() && entries == old(entries)[index := Empty] && entryCount == old(entryCount) - 1
    {
      SumUpdate(Used(), entries, index, Empty);
      SumAtLeast(Used(), entries, index);
      entries := entries[index := Empty];
      assert entryCount > 0;
      entryCount := entryCount - 1;
    }

    method Ensure(index: nat) returns (next: PageLevel)
      requires Valid() && index < ENTRIES && !entries[index].Leaf?
      modifies this
      ensures Valid()
      ensures old(entries[index]).Table? ==>
        entries == old(entries) && entryCount == old(entryCount) && next == entries[index].next
      ensures old(entries[index]).Empty? ==>
        fresh(next) && next.Valid() && (forall i :: 0 <= i < ENTRIES ==> next.entries[i] == Empty)
        && entries == old(entries)[index := Table(next)] && entryCount == old(entryCount) + 1
    {
      if entries[index].Empty? {
        var t := new PageLevel();
        Set(index, Table(t));
      }
      next := entries[index].next;
    }

    method Expect(index: nat) returns (next: PageLevel)
      requires |entries| == ENTRIES && index < ENTRIES && entries[index].Table?
      ensures next == entries[index].next
    {
      next := entries[index].next;
    }
  }

  /** A table with an empty entry is not full, so the count never passes 512. */
  lemma RoomLeft(entries: seq<Entry>, i: nat)
    requires i < |entries| && entries[i] == Empty
    ensures Sum(Used(), entries) < |entries|
  {
    SumBelow(Used(), entries, i);
  }

  /** The count is zero exactly when nothing is left. */
  lemma CountZero(entries: seq<Entry>)
    ensures Sum(Used(), entries) == 0 <==> forall i :: 0 <= i < |entries| ==> entries[i] == Empty
  {
    if Sum(Used(), entries) == 0 {
      forall i | 0 <= i < |entries| ensures entries[i] == Empty {
        SumAtLeast(Used(), entries, i);
      }
    } else if forall i :: 0 <= i < |entries| ==> entries[i] == Empty {
      SumZero(Used(), entries);
    }
  }

  // ----- tables and leaves by path -----

  type Tables = map<Path, PageLevel>
  type Leaves = map<Path, Mapping>

  /** The entry that the two maps call for in slot i of the table at p. */
  ghost function EntryOf(tables: Tables, leaves: Leaves, p: Path, i: nat): Entry {
    var slot := At(p, i);
    if slot in leaves then Leaf(leaves[slot]) else if slot in tables then Table(tables[slot]) else Empty
  }

  // Every table but the PML4 and every leaf hangs in a table, at a depth that its kind allows.
  ghost predicate Formed(tables: Tables, leaves: Leaves) {
    && Top in tables
    && (forall s :: s in tables && s.At? ==> s.table in tables && s.index < ENTRIES && Depth(s) <= 3)
    && (forall s :: s in leaves ==> s.At? && s.table in tables && s.index < ENTRIES && s !in tables && Depth(s) >= 2)
  }

  ghost predicate Injective(tables: Tables) {
    forall s, t :: s in tables && t in tables && tables[s] == tables[t] ==> s == t
  }

  ghost predicate Occupied(tables: Tables, leaves: Leaves, p: Path) {
    exists i :: 0 <= i < ENTRIES && (At(p, i) in leaves || At(p, i) in tables)
  }

  // No linked table is empty, except perhaps the one at `except`.
  ghost predicate NoneEmptyBut(tables: Tables, leaves: Leaves, except: Path) {
    forall s :: s in tables && s != Top && s != except ==> Occupied(tables, leaves, s)
  }

  ghost predicate Prefix(p: Path, q: Path) {
    p == q || (q.At? && Prefix(p, q.table))
  }

  /** No leaf covers the path or lies below it. */
  ghost predicate Free(leaves: Leaves, path: Path) {
    forall s :: s in leaves ==> !Prefix(s, path) && !Prefix(path, s)
  }

  // ----- virtual addresses -----

  // The number of bytes below one slot at a depth: 512 GiB, 1 GiB, 2 MiB and 4 KiB.
  function Span(depth: nat): nat
    requires 1 <= depth <= 4
  {
    if depth == 1 then 0x80_0000_0000 else if depth == 2 then 0x4000_0000 else if depth == 3 then 0x20_0000 else 0x1000
  }

  function Index(virt: nat, depth: nat): (i: nat)
    requires 1 <= depth <= 4
    ensures i < ENTRIES
  {
    virt / Span(depth) % ENTRIES
  }

  function PathOf(virt: nat, depth: nat): Path
    requires depth <= 4
  {
    if depth == 0 then Top else At(PathOf(virt, depth - 1), Index(virt, depth))
  }

  lemma {:induction false} PathPrefix(virt: nat, d: nat, e: nat)
    requires d <= e <= 4
    ensures Prefix(PathOf(virt, d), PathOf(virt, e)) && Depth(PathOf(virt, d)) == d
  {
    if d < e {
      PathPrefix(virt, d, e - 1);
    } else if d > 0 {
      PathPrefix(virt, d - 1, d - 1);
    }
  }

  lemma {:induction false} PrefixTrans(p: Path, q: Path, r: Path)
    requires Prefix(p, q) && Prefix(q, r)
    ensures Prefix(p, r)
  {
    if q != r {
      PrefixTrans(p, q, r.table);
    }
  }

  /** Below every linked table there is a leaf, because empty tables are freed at once. */
  lemma {:induction false} LeafBelow(tables: Tables, leaves: Leaves, s: Path) returns (leaf: Path)
    requires Formed(tables, leaves) && NoneEmptyBut(tables, leaves, Top) && s in tables && s != Top
    ensures leaf in leaves && Prefix(s, leaf)
    decreases 4 - Depth(s)
  {
    assert Occupied(tables, leaves, s);
    var i :| 0 <= i < ENTRIES && (At(s, i) in leaves || At(s, i) in tables);
    leaf := At(s, i);
    if leaf !in leaves {
      leaf := LeafBelow(tables, leaves, At(s, i));
      PrefixTrans(s, At(s, i), leaf);
    }
  }

  /** Where no leaf is in the way, no table is in the way either. */
  lemma FreeMeansNoTable(tables: Tables, leaves: Leaves, path: Path)
    requires Formed(tables, leaves) && NoneEmptyBut(tables, leaves, Top) && path != Top
    requires Free(leaves, path)
    ensures path !in tables
  {
    if path in tables {
      var leaf := LeafBelow(tables, leaves, path);
    }
  }

  // The table object holds the entries that the maps call for at p, and counts them right.
  ghost predicate Shows(t: PageLevel, tables: Tables, leaves: Leaves, p: Path)
    reads t
  {
    t.Valid() && forall i :: 0 <= i < ENTRIES ==> t.entries[i] == EntryOf(tables, leaves, p, i)
  }

  lemma NothingBelow(tables: Tables, leaves: Leaves, p: Path)
    requires Formed(tables, leaves) && p !in tables
    ensures forall i :: At(p, i) !in tables && At(p, i) !in leaves
  {
  }

  lemma LeafOrTable(tables: Tables, leaves: Leaves, s: Path)
    requires Formed(tables, leaves)
    ensures s in leaves ==> s !in tables
  {
  }

  lemma EmptyMeansNothingBelow(entries: seq<Entry>, tables: Tables, leaves: Leaves, p: Path)
    requires |entries| == ENTRIES && forall i :: 0 <= i < ENTRIES ==> entries[i] == EntryOf(tables, leaves, p, i)
    requires forall i :: 0 <= i < ENTRIES ==> entries[i] == Empty
    ensures forall i :: 0 <= i < ENTRIES ==> At(p, i) !in tables && At(p, i) !in leaves
  {
    forall i | 0 <= i < ENTRIES ensures At(p, i) !in tables && At(p, i) !in leaves {
      assert EntryOf(tables, leaves, p, i) == Empty;
    }
  }

  lemma AddTableFormed(tables: Tables, leaves: Leaves, p: Path, i: nat, t: PageLevel)
    requires Formed(tables, leaves) && Injective(tables) && p in tables && i < ENTRIES && Depth(p) <= 2
    requires At(p, i) !in tables && At(p, i) !in leaves && forall s :: s in tables ==> tables[s] != t
    ensures Formed(tables[At(p, i) := t], leaves) && Injective(tables[At(p, i) := t])
  {
  }

  lemma AddLeafFormed(tables: Tables, leaves: Leaves, p: Path, i: nat, m: Mapping)
    requires Formed(tables, leaves) && p in tables && i < ENTRIES && Depth(p) >= 1 && At(p, i) !in tables
    ensures Formed(tables, leaves[At(p, i) := m])
  {
  }

  lemma RemoveLeafFormed(tables: Tables, leaves: Leaves, s: Path)
    requires Formed(tables, leaves)
    ensures Formed(tables, leaves - {s})
  {
  }

  lemma RemoveTableFormed(tables: Tables, leaves: Leaves, s: Path)
    requires Formed(tables, leaves) && Injective(tables) && s.At?
    requires forall i :: 0 <= i < ENTRIES ==> At(s, i) !in tables && At(s, i) !in leaves
    ensures Formed(tables - {s}, leaves) && Injective(tables - {s})
  {
  }

  class PageMap {
    const pml4: PageLevel
    ghost var tables: Tables
    ghost var leaves: Leaves
    ghost var made: set<PageLevel>  // every table ever linked

    ghost predicate Matches()
      reads this`tables, this`leaves, this`made, made
    {
      forall p {:trigger Shows(tables[p], tables, leaves, p)} :: p in tables ==>
        tables[p] in made && Shows(tables[p], tables, leaves, p)
    }

    ghost predicate Sound()
      reads this`tables, this`leaves, this`made, made
    {
      Formed(tables, leaves) && Injective(tables) && Top in tables && tables[Top] == pml4 && pml4 in made && Matches()
    }

    /** Every entry is what the maps call for, every count is right and no linked table is empty. */
    ghost predicate Valid()
      reads this`tables, this`leaves, this`made, made
    {
      Sound() && NoneEmptyBut(tables, leaves, Top)
    }

    constructor ()
      ensures Valid() && leaves == map[] && fresh(made)
    {
      pml4 := new PageLevel();
      new;
      tables, leaves, made := map[Top := pml4], map[], {pml4};
      assert Shows(tables[Top], tables, leaves, Top);
    }

    // ensure() on the table at p.
    method EnsureAt(table: PageLevel, index: nat, ghost p: Path) returns (next: PageLevel)
      requires Sound() && p in tables && tables[p] == table && index < ENTRIES && Depth(p) <= 2
      requires At(p, index) !in leaves
      modifies this`tables, this`made, table
      ensures Sound() && At(p, index) in tables && next == tables[At(p, index)]
      ensures tables == if At(p, index) in old(tables) then old(tables) else old(tables)[At(p, index) := next]
      ensures fresh(made - old(made)) && old(made) <= made && next in made
    {
      hide Formed;
      ghost var slot := At(p, index);
      assert Shows(table, tables, leaves, p);
      next := table.Ensure(index);
      if slot !in tables {
        NothingBelow(tables, leaves, slot);
        AddTableFormed(tables, leaves, p, index, next);
        tables, made := tables[slot := next], made + {next};
      }
      forall q | q in tables ensures tables[q] in made && Shows(tables[q], tables, leaves, q) {
        assert q in old(tables) ==> old(Shows(tables[q], tables, leaves, q));
      }
    }

    // set() of a leaf entry in the table at p.
    method SetLeaf(table: PageLevel, index: nat, mapping: Mapping, ghost p: Path)
      requires Sound() && p in tables && tables[p] == table && index < ENTRIES && Depth(p) >= 1
      requires At(p, index) !in leaves && At(p, index) !in tables
      modifies this`leaves, table
      ensures Sound() && leaves == old(leaves)[At(p, index) := mapping]
    {
      hide Formed;
      assert Shows(table, tables, leaves, p);
      table.Set(index, Leaf(mapping));
      AddLeafFormed(tables, leaves, p, index, mapping);
      leaves := leaves[At(p, index) := mapping];
      forall q | q in tables ensures tables[q] in made && Shows(tables[q], tables, leaves, q) {
        assert old(Shows(tables[q], tables, leaves, q));
      }
    }

    // unset() of a leaf entry in the table at p.
    method UnsetLeaf(table: PageLevel, index: nat, ghost p: Path)
      requires Sound() && p in tables && tables[p] == table && index < ENTRIES && At(p, index) in leaves
      modifies this`leaves, table
      ensures Sound() && leaves == old(leaves) - {At(p, index)}
    {
      hide Formed;
      LeafOrTable(tables, leaves, At(p, index));
      assert Shows(table, tables, leaves, p);
      table.Unset(index);
      RemoveLeafFormed(tables, leaves, At(p, index));
      leaves := leaves - {At(p, index)};
      forall q | q in tables ensures tables[q] in made && Shows(tables[q], tables, leaves, q) {
        assert old(Shows(tables[q], tables, leaves, q));
      }
    }

    // unset() of the link to an empty table.
    method UnsetTable(table: PageLevel, index: nat, child: PageLevel, ghost p: Path)
      requires Sound() && p in tables && tables[p] == table && index < ENTRIES
      requires At(p, index) in tables && tables[At(p, index)] == child && child.entryCount == 0
      modifies this`tables, table
      ensures Sound() && tables == old(tables) - {At(p, index)}
      ensures forall i :: 0 <= i < ENTRIES ==> At(At(p, index), i) !in old(tables) && At(At(p, index), i) !in leaves
    {
      hide Formed;
      ghost var slot := At(p, index);
      LeafOrTable(tables, leaves, slot);
      assert Shows(table, tables, leaves, p) && Shows(child, tables, leaves, slot);
      CountZero(child.entries);
      EmptyMeansNothingBelow(child.entries, tables, leaves, slot);
      table.Unset(index);
      RemoveTableFormed(tables, leaves, slot);
      tables := tables - {slot};
      forall q | q in tables ensures tables[q] in made && Shows(tables[q], tables, leaves, q) {
        hide EntryOf;
        assert old(Shows(tables[q], tables, leaves, q));
        UnlinkedEntries(old(tables), leaves, p, index, q);
      }
    }

    // One of the three tests at the end of unmap: unlink a table that has become empty.
    method FreeIfEmpty(table: PageLevel, index: nat, child: PageLevel, ghost p: Path)
      requires Sound() && p in tables && tables[p] == table && index < ENTRIES
      requires At(p, index) in tables && tables[At(p, index)] == child
      requires NoneEmptyBut(tables, leaves, At(p, index))
      modifies this`tables, table
      ensures Sound() && NoneEmptyBut(tables, leaves, p)
      ensures tables == old(tables) || tables == old(tables) - {At(p, index)}
    {
      hide Formed;
      if child.entryCount == 0 {
        UnsetTable(table, index, child, p);
        UnlinkKeepsOthers(old(tables), leaves, p, index);
      } else {
        assert Shows(child, tables, leaves, At(p, index));
        CountedIsOccupied(child.entries, tables, leaves, At(p, index));
      }
    }

    // ensure() on the way to an address: the table at depth d - 1 gets its successor at depth d.
    method EnsureNext(table: PageLevel, virt: nat, d: nat) returns (next: PageLevel)
      requires Sound() && 1 <= d <= 3 && PathOf(virt, d - 1) in tables && tables[PathOf(virt, d - 1)] == table
      requires PathOf(virt, d) !in leaves && NoneEmptyBut(tables, leaves, PathOf(virt, d - 1))
      modifies this`tables, this`made, table
      ensures Sound() && NoneEmptyBut(tables, leaves, PathOf(virt, d))
      ensures PathOf(virt, d) in tables && next == tables[PathOf(virt, d)]
      ensures tables.Keys == old(tables.Keys) + {PathOf(virt, d)}
      ensures fresh(made - old(made)) && old(made) <= made && next in made
    {
      hide Formed, Matches, Injective, Span;
      PathPrefix(virt, d - 1, d - 1);
      next := EnsureAt(table, Index(virt, d), PathOf(virt, d - 1));
      LinkKeepsOthers(old(tables), tables, leaves, PathOf(virt, d - 1), Index(virt, d));
    }

    // set() at the end of the way to an address.
    method SetLast(table: PageLevel, virt: nat, d: nat, mapping: Mapping)
      requires Sound() && 2 <= d <= 4 && PathOf(virt, d - 1) in tables && tables[PathOf(virt, d - 1)] == table
      requires PathOf(virt, d) !in leaves && PathOf(virt, d) !in tables
      requires NoneEmptyBut(tables, leaves, PathOf(virt, d - 1))
      modifies this`leaves, table
      ensures Valid() && leaves == old(leaves)[PathOf(virt, d) := mapping]
    {
      hide Formed, Matches, Injective, Index;
      PathPrefix(virt, d - 1, d - 1);
      SetLeaf(table, Index(virt, d), mapping, PathOf(virt, d - 1));
      LeafFillsTable(tables, old(leaves), PathOf(virt, d - 1), Index(virt, d), mapping);
    }

    method Map4KiB(virt: nat, phys: nat, flags: Flags)
      requires Valid() && virt % Span(4) == 0 && phys % Span(4) == 0
      requires Free(leaves, PathOf(virt, 4))
      modifies this`tables, this`leaves, this`made, made
      ensures Valid() && leaves == old(leaves)[PathOf(virt, 4) := Mapping(phys, flags)]
      ensures fresh(made - old(made))
    {
      hide Formed, Free, Matches, Injective, NoneEmptyBut, Span, Index, PathOf;
      FreeToMap(tables, leaves, virt, 4);
      var pdpt := EnsureNext(pml4, virt, 1);
      var pd := EnsureNext(pdpt, virt, 2);
      var pt := EnsureNext(pd, virt, 3);
      SetLast(pt, virt, 4, Mapping(phys, flags));
    }

    method Map2MiB(virt: nat, phys: nat, flags: Flags)
      requires Valid() && virt % Span(3) == 0 && phys % Span(3) == 0
      requires Free(leaves, PathOf(virt, 3))
      modifies this`tables, this`leaves, this`made, made
      ensures Valid() && leaves == old(leaves)[PathOf(virt, 3) := Mapping(phys, flags)]
      ensures fresh(made - old(made))
    {
      hide Formed, Free, Matches, Injective, NoneEmptyBut, Span, Index, PathOf;
      FreeToMap(tables, leaves, virt, 3);
      var pdpt := EnsureNext(pml4, virt, 1);
      var pd := EnsureNext(pdpt, virt, 2);
      SetLast(pd, virt, 3, Mapping(phys, flags));
    }

    method Map1GiB(virt: nat, phys: nat, flags: Flags)
      requires Valid() && virt % Span(2) == 0 && phys % Span(2) == 0
      requires Free(leaves, PathOf(virt, 2))
      modifies this`tables, this`leaves, this`made, made
      ensures Valid() && leaves == old(leaves)[PathOf(virt, 2) := Mapping(phys, flags)]
      ensures fresh(made - old(made))
    {
      hide Formed, Free, Matches, Injective, NoneEmptyBut, Span, Index, PathOf;
      FreeToMap(tables, leaves, virt, 2);
      var pdpt := EnsureNext(pml4, virt, 1);
      SetLast(pdpt, virt, 2, Mapping(phys, flags));
    }

    // expect() on the way to a mapped address.
    method ExpectNext(table: PageLevel, virt: nat, d: nat) returns (next: PageLevel)
      requires Sound() && 1 <= d <= 3 && PathOf(virt, d - 1) in tables && tables[PathOf(virt, d - 1)] == table
      requires PathOf(virt, d) in tables
      ensures next == tables[PathOf(virt, d)] && next in made
    {
      hide Formed, Injective;
      LeafOrTable(tables, leaves, PathOf(virt, d));
      assert Shows(table, tables, leaves, PathOf(virt, d - 1));
      assert Shows(tables[PathOf(virt, d)], tables, leaves, PathOf(virt, d));
      next := table.Expect(Index(virt, d));
    }

    // unset() of the leaf at an address.
    method UnsetLast(table: PageLevel, virt: nat, d: nat)
      requires Valid() && 2 <= d <= 4 && PathOf(virt, d - 1) in tables && tables[PathOf(virt, d - 1)] == table
      requires PathOf(virt, d) in leaves
      modifies this`leaves, table
      ensures Sound() && NoneEmptyBut(tables, leaves, PathOf(virt, d - 1))
      ensures leaves == old(leaves) - {PathOf(virt, d)}
    {
      hide Formed, Matches, Injective, Index;
      UnsetLeaf(table, Index(virt, d), PathOf(virt, d - 1));
      LeafLeavesTable(tables, old(leaves), PathOf(virt, d - 1), Index(virt, d));
    }

    // One of the tests at the end of unmap, for the table at depth d.
    method FreeNext(table: PageLevel, virt: nat, d: nat, child: PageLevel)
      requires Sound() && 1 <= d <= 3 && PathOf(virt, d - 1) in tables && tables[PathOf(virt, d - 1)] == table
      requires PathOf(virt, d) in tables && tables[PathOf(virt, d)] == child
      requires NoneEmptyBut(tables, leaves, PathOf(virt, d))
      modifies this`tables, table
      ensures Sound() && NoneEmptyBut(tables, leaves, PathOf(virt, d - 1))
      ensures tables == old(tables) || tables == old(tables) - {PathOf(virt, d)}
    {
      hide Formed, Matches, Injective, Index, NoneEmptyBut;
      FreeIfEmpty(table, Index(virt, d), child, PathOf(virt, d - 1));
    }

    method Unmap4KiB(virt: nat)
      requires Valid() && virt % Span(4) == 0 && PathOf(virt, 4) in leaves
      modifies this`tables, this`leaves, made
      ensures Valid() && leaves == old(leaves) - {PathOf(virt, 4)}
    {
      hide Formed, Matches, Injective, NoneEmptyBut, Span, Index, PathOf;
      WayToLeaf(tables, leaves, virt, 4);
      var pdpt := ExpectNext(pml4, virt, 1);
      var pd := ExpectNext(pdpt, virt, 2);
      var pt := ExpectNext(pd, virt, 3);
      UnsetLast(pt, virt, 4);
      FreeNext(pd, virt, 3, pt);
      FreeNext(pdpt, virt, 2, pd);
      FreeNext(pml4, virt, 1, pdpt);
    }

    method Unmap2MiB(virt: nat)
      requires Valid() && virt % Span(3) == 0 && PathOf(virt, 3) in leaves
      modifies this`tables, this`leaves, made
      ensures Valid() && leaves == old(leaves) - {PathOf(virt, 3)}
    {
      hide Formed, Matches, Injective, NoneEmptyBut, Span, Index, PathOf;
      WayToLeaf(tables, leaves, virt, 3);
      var pdpt := ExpectNext(pml4, virt, 1);
      var pd := ExpectNext(pdpt, virt, 2);
      UnsetLast(pd, virt, 3);
      FreeNext(pdpt, virt, 2, pd);
      FreeNext(pml4, virt, 1, pdpt);
    }

    method Unmap1GiB(virt: nat)
      requires Valid() && virt % Span(2) == 0 && PathOf(virt, 2) in leaves
      modifies this`tables, this`leaves, made
      ensures Valid() && leaves == old(leaves) - {PathOf(virt, 2)}
    {
      hide Formed, Matches, Injective, NoneEmptyBut, Span, Index, PathOf;
      WayToLeaf(tables, leaves, virt, 2);
      var pdpt := ExpectNext(pml4, virt, 1);
      UnsetLast(pdpt, virt, 2);
      FreeNext(pml4, virt, 1, pdpt);
    }
  }

  /** On the way to a leaf there are only tables, all different. */
  lemma WayToLeaf(tables: Tables, leaves: Leaves, virt: nat, d: nat)
    requires Formed(tables, leaves) && 2 <= d <= 4 && PathOf(virt, d) in leaves
    ensures PathOf(virt, 0) == Top && PathOf(virt, 1) in tables && PathOf(virt, 1) != Top
    ensures d >= 3 ==> PathOf(virt, 2) in tables && PathOf(virt, 2) != PathOf(virt, 1)
    ensures d >= 4 ==>
      PathOf(virt, 3) in tables && PathOf(virt, 3) != PathOf(virt, 1) && PathOf(virt, 3) != PathOf(virt, 2)
  {
    PathPrefix(virt, 1, 1);
    PathPrefix(virt, 2, 2);
    PathPrefix(virt, 3, 3);
    assert PathOf(virt, d).table == PathOf(virt, d - 1);
  }

  lemma LeafLeavesTable(tables: Tables, leaves: Leaves, p: Path, i: nat)
    requires NoneEmptyBut(tables, leaves, Top)
    ensures NoneEmptyBut(tables, leaves - {At(p, i)}, p)
  {
    forall s | s in tables && s != Top && s != p ensures Occupied(tables, leaves - {At(p, i)}, s) {
      assert Occupied(tables, leaves, s);
      var j :| 0 <= j < ENTRIES && (At(s, j) in leaves || At(s, j) in tables);
      assert At(s, j) in leaves - {At(p, i)} || At(s, j) in tables;
    }
  }

  lemma LinkKeepsOthers(tables: Tables, tables': Tables, leaves: Leaves, p: Path, i: nat)
    requires NoneEmptyBut(tables, leaves, p) && i < ENTRIES && tables'.Keys == tables.Keys + {At(p, i)}
    ensures NoneEmptyBut(tables', leaves, At(p, i))
  {
    forall s | s in tables' && s != Top && s != At(p, i) ensures Occupied(tables', leaves, s) {
      if s == p {
        assert At(p, i) in tables';
      } else {
        assert Occupied(tables, leaves, s);
        var j :| 0 <= j < ENTRIES && (At(s, j) in leaves || At(s, j) in tables);
        assert At(s, j) in leaves || At(s, j) in tables';
      }
    }
  }

  lemma LeafFillsTable(tables: Tables, leaves: Leaves, p: Path, i: nat, m: Mapping)
    requires NoneEmptyBut(tables, leaves, p) && i < ENTRIES
    ensures NoneEmptyBut(tables, leaves[At(p, i) := m], Top)
  {
    var leaves' := leaves[At(p, i) := m];
    forall s | s in tables && s != Top ensures Occupied(tables, leaves', s) {
      if s == p {
        assert At(p, i) in leaves';
      } else {
        assert Occupied(tables, leaves, s);
        var j :| 0 <= j < ENTRIES && (At(s, j) in leaves || At(s, j) in tables);
        assert At(s, j) in leaves' || At(s, j) in tables;
      }
    }
  }

  /** A free path meets no leaf on its way down and no table at its end. */
  lemma FreeToMap(tables: Tables, leaves: Leaves, virt: nat, d: nat)
    requires Formed(tables, leaves) && NoneEmptyBut(tables, leaves, Top) && 1 <= d <= 4
    requires Free(leaves, PathOf(virt, d))
    ensures PathOf(virt, d) !in tables && PathOf(virt, d) !in leaves
    ensures PathOf(virt, 0) == Top && PathOf(virt, 1) !in leaves
    ensures d >= 2 ==> PathOf(virt, 2) !in leaves && PathOf(virt, 1) != PathOf(virt, d)
    ensures d >= 3 ==> PathOf(virt, 3) !in leaves && PathOf(virt, 2) != PathOf(virt, d)
    ensures d >= 4 ==> PathOf(virt, 3) != PathOf(virt, d)
  {
    FreeMeansNoTable(tables, leaves, PathOf(virt, d));
    PathPrefix(virt, d, d);
    PathPrefix(virt, 1, d);
    if d >= 2 {
      PathPrefix(virt, 2, d);
    }
    if d >= 3 {
      PathPrefix(virt, 3, d);
    }
  }

  lemma UnlinkedEntries(tables: Tables, leaves: Leaves, p: Path, index: nat, q: Path)
    requires At(p, index) !in leaves
    ensures forall i :: EntryOf(tables - {At(p, index)}, leaves, q, i)
              == if q == p && i == index then Empty else EntryOf(tables, leaves, q, i)
  {
  }

  lemma UnlinkKeepsOthers(tables: Tables, leaves: Leaves, p: Path, i: nat)
    requires NoneEmptyBut(tables, leaves, At(p, i))
    ensures NoneEmptyBut(tables - {At(p, i)}, leaves, p)
  {
    forall s | s in tables && s != At(p, i) && s != Top && s != p ensures Occupied(tables - {At(p, i)}, leaves, s) {
      assert Occupied(tables, leaves, s);
      var j :| 0 <= j < ENTRIES && (At(s, j) in leaves || At(s, j) in tables);
      assert At(s, j) in leaves || At(s, j) in tables - {At(p, i)};
    }
  }

  lemma CountedIsOccupied(entries: seq<Entry>, tables: Tables, leaves: Leaves, p: Path)
    requires |entries| == ENTRIES && Sum(Used(), entries) != 0
    requires forall i :: 0 <= i < ENTRIES ==> entries[i] == EntryOf(tables, leaves, p, i)
    ensures Occupied(tables, leaves, p)
  {
    CountZero(entries);
  }

  // ----- what the processor sees -----

  /** The walk of section 5.3 of the AMD64 Architecture Programmer's Manual, volume 2, from a table at
      depth d - 1: the leaf entry that ends it and its depth. */
  ghost function WalkFrom(t: PageLevel, virt: nat, d: nat): Option<(Mapping, nat)>
    requires 1 <= d <= 4
    reads *
    decreases 4 - d
  {
    if |t.entries| != ENTRIES then None
    else match t.entries[Index(virt, d)]
         case Empty => None
         case Leaf(m) => Some((m, d))
         case Table(next) => if d < 4 then WalkFrom(next, virt, d + 1) else None
  }

  /** The leaf that covers an address, looked up in the abstract map. */
  ghost function Lookup(leaves: Leaves, virt: nat, d: nat): Option<(Mapping, nat)>
    requires 1 <= d <= 4
    decreases 4 - d
  {
    if PathOf(virt, d) in leaves then Some((leaves[PathOf(virt, d)], d))
    else if d < 4 then Lookup(leaves, virt, d + 1) else None
  }

  lemma {:induction false} NothingBelowPath(tables: Tables, leaves: Leaves, virt: nat, d: nat)
    requires Formed(tables, leaves) && 1 <= d <= 4
    requires PathOf(virt, d) !in tables && PathOf(virt, d) !in leaves
    ensures Lookup(leaves, virt, d) == None
    decreases 4 - d
  {
    if d < 4 {
      NothingBelow(tables, leaves, PathOf(virt, d));
      NothingBelowPath(tables, leaves, virt, d + 1);
    }
  }

  /** The processor's walk through the linked tables finds exactly what the abstract map holds. */
  lemma {:induction false} WalkIsLookup(pm: PageMap, virt: nat, d: nat)
    requires pm.Sound() && 1 <= d <= 4 && PathOf(virt, d - 1) in pm.tables
    ensures WalkFrom(pm.tables[PathOf(virt, d - 1)], virt, d) == Lookup(pm.leaves, virt, d)
    decreases 4 - d
  {
    var t := pm.tables[PathOf(virt, d - 1)];
    assert Shows(t, pm.tables, pm.leaves, PathOf(virt, d - 1));
    assert t.entries[Index(virt, d)] == EntryOf(pm.tables, pm.leaves, PathOf(virt, d - 1), Index(virt, d));
    match t.entries[Index(virt, d)]
    case Empty => NothingBelowPath(pm.tables, pm.leaves, virt, d);
    case Leaf(_) =>
    case Table(_) =>
      PathPrefix(virt, d, d);
      WalkIsLookup(pm, virt, d + 1);
  }

  /** Once nothing is mapped, only the PML4 is left and its destructor's assertions hold. */
  lemma NothingMappedNothingLeft(pm: PageMap)
    requires pm.Valid() && pm.leaves == map[]
    ensures pm.tables.Keys == {Top} && pm.pml4.Deletable()
  {
    forall s | s in pm.tables ensures s == Top {
      if s != Top {
        var leaf := LeafBelow(pm.tables, pm.leaves, s);
      }
    }
    assert Shows(pm.pml4, pm.tables, pm.leaves, Top);
    CountZero(pm.pml4.entries);
  }

  // ----- paths and address ranges -----

  const LIMIT: nat := 0x1_0000_0000_0000  // 2^48

  lemma {:induction false} DepthOfPath(virt: nat, d: nat)
    requires d <= 4
    ensures Depth(PathOf(virt, d)) == d
  {
    PathPrefix(virt, d, d);
  }

  // The number of the slot at a depth that an address lies in.
  function SlotNumber(a: nat, d: nat): nat
    requires 1 <= d <= 4
  {
    a / Span(d)
  }

  // A slot number is the slot number one level up with one more digit.
  lemma SlotDigits(a: nat, d: nat)
    requires 1 < d <= 4
    ensures SlotNumber(a, d) == SlotNumber(a, d - 1) * ENTRIES + Index(a, d)
  {
    if d == 2 {
      assert a / 0x4000_0000 / ENTRIES == a / 0x80_0000_0000;
    } else if d == 3 {
      assert a / 0x20_0000 / ENTRIES == a / 0x4000_0000;
    } else {
      assert a / 0x1000 / ENTRIES == a / 0x20_0000;
    }
  }

  lemma FirstDigit(a: nat)
    requires a < LIMIT
    ensures SlotNumber(a, 1) == Index(a, 1)
  {
  }

  /** Addresses in the same slot have the same path. */
  lemma {:induction false} SameSlotSamePath(a: nat, b: nat, d: nat)
    requires 1 <= d <= 4 && SlotNumber(a, d) == SlotNumber(b, d)
    ensures PathOf(a, d) == PathOf(b, d)
  {
    assert Index(a, d) == Index(b, d);
    if d > 1 {
      hide Index, SlotNumber;
      SlotDigits(a, d);
      SlotDigits(b, d);
      SameSlotSamePath(a, b, d - 1);
    }
  }

  /** A leaf on the way to an address is what the lookup finds. */
  lemma LookupFindsLeaf(tables: Tables, leaves: Leaves, virt: nat, d: nat)
    requires Formed(tables, leaves) && 2 <= d <= 4 && PathOf(virt, d) in leaves
    ensures Lookup(leaves, virt, 1) == Some((leaves[PathOf(virt, d)], d))
  {
    WayToLeaf(tables, leaves, virt, d);
    LeafOrTable(tables, leaves, PathOf(virt, 1));
    LeafOrTable(tables, leaves, PathOf(virt, 2));
    LeafOrTable(tables, leaves, PathOf(virt, 3));
    hide PathOf;
    if d == 2 {
      assert Lookup(leaves, virt, 1) == Lookup(leaves, virt, 2);
    } else if d == 3 {
      assert Lookup(leaves, virt, 1) == Lookup(leaves, virt, 2) == Lookup(leaves, virt, 3);
    } else {
      assert Lookup(leaves, virt, 1) == Lookup(leaves, virt, 2) == Lookup(leaves, virt, 3) == Lookup(leaves, virt, 4);
    }
  }
}
