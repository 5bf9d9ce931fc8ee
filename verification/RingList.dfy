/** FreeTDS's intrusive ring list (freetds-1.00.21/include/freetds/dlist.h and dlist.tmpl.h):
    items carry a `next`/`prev` pair, and a list is one more such pair that closes the ring.
    A World is any number of lists that share one item type. */
module RingList {
  import opened Sequences

  /** `dlist_ring`: the pair inside an item, or inside a list. An item is identified with its
      pair, so `DLIST_ITEM` is the identity. */
  class Ring {
    var next: Ring?
    var prev: Ring?
    constructor Detached()
      ensures next == null && prev == null
    {
      next, prev := null, null;
    }
  }

  /** A list header; `items` is the sequence the ring stands for. */
  class DList {
    const ring: Ring
    ghost var items: seq<Ring>

    /** The ring in order: the header, the items, the header again. */
    ghost function Cells(): seq<Ring>
      reads this
    {
      [ring] + items + [ring]
    }

    ghost predicate Valid()
      reads this, ring, items
    {
      && ring !in items
      && (forall i, j :: 0 <= i < j < |items| ==> items[i] != items[j])
      && (forall i :: 0 <= i <= |items| ==>
            Cells()[i].next == Cells()[i + 1] && Cells()[i + 1].prev == Cells()[i])
    }

    /** `init` */
    constructor Init(ring: Ring)
      modifies ring
      ensures this.ring == ring && items == [] && Valid()
    {
      this.ring := ring;
      items := [];
      new;
      ring.next, ring.prev := ring, ring;
    }

    /** `first` */
    function First(): (item: Ring?)
      requires Valid()
      reads this, ring, items
      ensures item == if items == [] then null else items[0]
    {
      assert Cells()[0].next == Cells()[1];
      if ring.next == ring then null else ring.next
    }

    /** `last` */
    function Last(): (item: Ring?)
      requires Valid()
      reads this, ring, items
      ensures item == if items == [] then null else items[|items| - 1]
    {
      assert Cells()[|items| + 1].prev == Cells()[|items|];
      if ring.prev == ring then null else ring.prev
    }

    /** `next` */
    function Next(item: Ring, ghost k: nat): (after: Ring?)
      requires Valid() && k < |items| && items[k] == item
      reads this, ring, items
      ensures after == if k + 1 == |items| then null else items[k + 1]
    {
      assert Cells()[k + 1].next == Cells()[k + 2];
      if item.next == ring then null else item.next
    }

    /** `prev` */
    function Prev(item: Ring, ghost k: nat): (before: Ring?)
      requires Valid() && k < |items| && items[k] == item
      reads this, ring, items
      ensures before == if k == 0 then null else items[k - 1]
    {
      assert Cells()[k + 1].prev == Cells()[k];
      if item.prev == ring then null else item.prev
    }

    /** `prepend` */
    method Prepend(item: Ring)
      requires Valid() && item.next == null && item.prev == null
      modifies this, ring, items, item
      ensures Valid() && items == [item] + old(items)
    {
      ghost var was := Cells();
      NotLinked(item);
      assert was[0].next == was[1];
      ring.next.prev := item;
      item.next := ring.next;
      item.prev := ring;
      ring.next := item;
      items := [item] + items;
      forall i | 0 <= i <= |items|
        ensures Cells()[i].next == Cells()[i + 1] && Cells()[i + 1].prev == Cells()[i]
      {
        if i >= 2 {
          assert Cells()[i] == was[i - 1] && Cells()[i + 1] == was[i];
        }
      }
    }

    /** `append` */
    method Append(item: Ring)
      requires Valid() && item.next == null && item.prev == null
      modifies this, ring, items, item
      ensures Valid() && items == old(items) + [item]
    {
      ghost var was := Cells();
      NotLinked(item);
      assert was[|items|].next == was[|items| + 1];
      ring.prev.next := item;
      item.prev := ring.prev;
      item.next := ring;
      ring.prev := item;
      items := items + [item];
      forall i | 0 <= i <= |items|
        ensures Cells()[i].next == Cells()[i + 1] && Cells()[i + 1].prev == Cells()[i]
      {
        if i + 1 < |items| {
          assert Cells()[i] == was[i] && Cells()[i + 1] == was[i + 1];
        }
      }
    }

    /** The header and the items are linked on both sides; nothing else is in the ring. */
    lemma NotLinked(item: Ring)
      requires Valid() && (item.next == null || item.prev == null)
      ensures item != ring && item !in items
    {
      assert Cells()[0].next == Cells()[1] && Cells()[|items| + 1].prev == Cells()[|items|];
      forall k | 0 <= k < |items| ensures items[k] != item {
        assert Cells()[k + 1].next == Cells()[k + 2] && Cells()[k + 1].prev == Cells()[k];
      }
    }

    /** `DLIST_FOREACH` with `first` and `next` */
    method Visit() returns (visited: seq<Ring>)
      requires Valid()
      ensures visited == items
    {
      visited := [];
      var p := First();
      while p != null
        invariant |visited| <= |items| && visited == items[..|visited|]
        invariant p == if |visited| == |items| then null else items[|visited|]
        decreases |items| - |visited|
      {
        var after := Next(p, |visited|);
        visited := visited + [p];
        p := after;
      }
    }

    /** The same walk with `last` and `prev` */
    method VisitBack() returns (visited: seq<Ring>)
      requires Valid()
      ensures visited == Reversed(items)
    {
      visited := [];
      var p := Last();
      ghost var k := |items|;
      while p != null
        invariant 0 <= k <= |items| && |visited| == |items| - k
        invariant p == if k == 0 then null else items[k - 1]
        invariant forall i :: 0 <= i < |visited| ==> visited[i] == items[|items| - 1 - i]
        decreases k
      {
        k := k - 1;
        var before := Prev(p, k);
        visited := visited + [p];
        p := before;
      }
      assert k == 0;
    }
  }

  function Drop<T>(s: seq<T>, k: nat): seq<T>
    requires k < |s|
  {
    s[..k] + s[k + 1..]
  }

  function OrElse(cell: Ring?, other: Ring): Ring {
    if cell == null then other else cell
  }

  /** `remove`: the code never asks which list the item is in. */
  method Detach(item: Ring)
    requires item.prev != item && item.next != item
    modifies item, OrElse(item.prev, item)`next, OrElse(item.next, item)`prev
    ensures item.next == null && item.prev == null
    ensures old(item.prev) != null ==> old(item.prev).next == old(item.next)
    ensures old(item.next) != null ==> old(item.next).prev == old(item.prev)
  {
    var prev, next := item.prev, item.next;
    if prev != null {
      prev.next := next;
    }
    if next != null {
      next.prev := prev;
    }
    item.prev := null;
    item.next := null;
  }

  /** `remove` of the item number `k` of a list, or of an item in no list. */
  method Unlink(item: Ring, ghost owner: DList?, ghost k: nat)
    requires owner == null ==> item.next == null && item.prev == null
    requires owner != null ==> owner.Valid() && k < |owner.items| && owner.items[k] == item
    modifies item, if owner == null then {} else {owner, owner.ring} + set c | c in owner.items
    ensures item.next == null && item.prev == null
    ensures owner != null ==> owner.Valid() && owner.items == Drop(old(owner.items), k)
  {
    ghost var items := if owner == null then [] else owner.items;
    if owner != null {
      Neighbours(owner, k);
    }
    Detach(item);
    if owner != null {
      owner.items := Drop(items, k);
      Closed(owner, items, k);
    }
  }

  /** An item, the cell before it and the cell after it stand nowhere else in the ring. */
  lemma Neighbours(l: DList, k: nat)
    requires l.Valid() && k < |l.items|
    ensures l.Cells()[k].next == l.Cells()[k + 1] == l.items[k] && l.Cells()[k + 1].prev == l.Cells()[k]
    ensures l.Cells()[k + 1].next == l.Cells()[k + 2] && l.Cells()[k + 2].prev == l.Cells()[k + 1]
    ensures forall i :: 0 <= i < |l.Cells()| && i != k + 1 ==> l.Cells()[i] != l.Cells()[k + 1]
    ensures forall i :: 0 <= i <= |l.items| && i != k ==> l.Cells()[i] != l.Cells()[k]
    ensures forall i :: 1 <= i < |l.Cells()| && i != k + 2 ==> l.Cells()[i] != l.Cells()[k + 2]
  {
  }

  /** The cells but one, each linked to the next, close the ring again. */
  lemma Closed(l: DList, items: seq<Ring>, k: nat)
    requires k < |items| && l.items == Drop(items, k)
    requires l.ring !in items && forall i, j :: 0 <= i < j < |items| ==> items[i] != items[j]
    requires var was := [l.ring] + items + [l.ring];
      && was[k].next == was[k + 2] && was[k + 2].prev == was[k]
      && forall i :: 0 <= i < |was| - 1 && i != k && i != k + 1 ==>
           was[i].next == was[i + 1] && was[i + 1].prev == was[i]
    ensures l.Valid()
  {
    var was, now := [l.ring] + items + [l.ring], l.Cells();
    forall i | 0 <= i <= |l.items| ensures now[i].next == now[i + 1] && now[i + 1].prev == now[i] {
      assert now[i] == if i <= k then was[i] else was[i + 1];
      assert now[i + 1] == if i < k then was[i + 1] else was[i + 2];
    }
  }

  /** A sequence without one of its elements. */
  function Without<T(==)>(s: seq<T>, x: T): (r: seq<T>)
    ensures x !in s ==> r == s
    ensures x !in r
  {
    if s == [] then []
    else if s[|s| - 1] == x then Without(s[..|s| - 1], x)
    else Without(s[..|s| - 1], x) + [s[|s| - 1]]
  }

  lemma {:induction false} WithoutDrops<T>(s: seq<T>, k: nat)
    requires k < |s| && forall i, j :: 0 <= i < j < |s| ==> s[i] != s[j]
    ensures Without(s, s[k]) == Drop(s, k)
    decreases |s|
  {
    var init := s[..|s| - 1];
    if k == |s| - 1 {
      assert s[k] !in init;
      assert Drop(s, k) == init;
    } else {
      WithoutDrops(init, k);
      assert Drop(s, k) == Drop(init, k) + [s[|s| - 1]];
    }
  }

  /** Removing what was just appended or prepended restores the list. */
  lemma {:induction false} RemoveUndoes<T>(s: seq<T>, x: T)
    requires x !in s
    ensures Without(s + [x], x) == s && Without([x] + s, x) == s
    decreases |s|
  {
    assert (s + [x])[..|s|] == s;
    if s == [] {
      assert [x] + s == [x];
    } else {
      RemoveUndoes(s[..|s| - 1], x);
      assert ([x] + s)[..|s|] == [x] + s[..|s| - 1];
    }
  }

  method EmptyList() returns (l: DList)
    ensures fresh(l) && fresh(l.ring) && l.Valid() && l.items == []
  {
    var ring := new Ring.Detached();
    l := new DList.Init(ring);
  }

  /** Every list and every item that shares one item type. */
  class World {
    ghost var lists: set<DList>
    ghost var pool: set<Ring>
    ghost var cells: set<Ring>  // the headers and the pool

    ghost predicate Valid()
      reads this, lists, cells
    {
      && pool <= cells
      && (forall l <- lists :: l.ring in cells - pool && (forall c <- l.items :: c in pool))
      && (forall l <- lists :: l.Valid())
      && (forall l <- lists, m <- lists :: l != m ==> l.ring != m.ring && Apart(l.items, m.items))
      && (forall c <- pool :: (c.next == null && c.prev == null) || Member(c))
    }

    static ghost predicate Apart(a: seq<Ring>, b: seq<Ring>) {
      forall c <- a :: c !in b
    }

    /** The item is in some list. */
    ghost predicate Member(item: Ring)
      reads this, lists
    {
      exists l <- lists :: item in l.items
    }

    constructor ()
      ensures Valid() && lists == {} && pool == {} && cells == {}
    {
      lists, pool, cells := {}, {}, {};
    }

    /** `in_list` is true exactly for the items in some list. */
    method InList(item: Ring) returns (r: bool)
      requires Valid() && item in pool
      ensures r <==> Member(item)
    {
      r := item.prev != null || item.next != null;
      if Member(item) {
        var l :| l in lists && item in l.items;
        if !r {
          l.NotLinked(item);
        }
      }
    }

    /** A new detached item. */
    method NewItem() returns (item: Ring)
      requires Valid()
      modifies this
      ensures Valid() && fresh(item) && lists == old(lists) && pool == old(pool) + {item} && !Member(item)
      ensures fresh(cells - old(cells))
      ensures forall l <- lists :: l.items == old(l.items)
    {
      item := new Ring.Detached();
      pool, cells := pool + {item}, cells + {item};
    }

    method NewList() returns (l: DList)
      requires Valid()
      modifies this
      ensures Valid() && fresh(l) && lists == old(lists) + {l} && pool == old(pool) && l.items == []
      ensures fresh(cells - old(cells))
      ensures forall m <- old(lists) :: m.items == old(m.items)
    {
      l := EmptyList();
      lists, cells := lists + {l}, cells + {l.ring};
    }

    static twostate predicate Same(c: Ring)
      reads c
    {
      c.next == old(c.next) && c.prev == old(c.prev)
    }

    /** Frame: only list `l`, its cells and `item` have moved, `l` is a well-formed ring of its
        old items and perhaps `item`, and what left it is detached. Then the world is valid. */
    twostate lemma Reframe(new l: DList, new item: Ring)
      requires old(Valid()) && lists == old(lists) && pool == old(pool) && cells == old(cells)
      requires l in lists && item in pool
      requires old(Member(item)) ==> item in old(l.items)
      requires forall m <- lists :: m != l ==> m.items == old(m.items)
      requires forall c <- cells :: c != l.ring && c != item && c !in old(l.items) ==> Same(c)
      requires l.Valid() && forall c <- l.items :: c == item || c in old(l.items)
      requires forall c <- old(l.items) :: c in l.items || (c.next == null && c.prev == null)
      requires item in l.items || (item.next == null && item.prev == null)
      ensures Valid()
    {
      forall m <- lists | m != l {
        Kept(l, item, m);
      }
      forall c <- pool {
        StillPlaced(l, item, c);
      }
    }

    /** Every item is still in a list or detached. */
    twostate lemma StillPlaced(new l: DList, new item: Ring, new c: Ring)
      requires old(Valid()) && lists == old(lists) && pool == old(pool) && l in lists && c in pool
      requires forall m <- lists :: m != l ==> m.items == old(m.items)
      requires c != item && c !in old(l.items) ==> Same(c)
      requires c in old(l.items) ==> c in l.items || (c.next == null && c.prev == null)
      requires item in l.items || (item.next == null && item.prev == null)
      ensures (c.next == null && c.prev == null) || Member(c)
    {
      if c != item && c !in old(l.items) && old(Member(c)) {
        var m :| m in lists && c in old(m.items);
        assert c in m.items;
      }
    }

    /** Another list shares no cell with what moved. */
    twostate lemma Kept(new l: DList, new item: Ring, new m: DList)
      requires old(Valid()) && lists == old(lists) && pool == old(pool) && cells == old(cells)
      requires l in lists && m in lists && m != l && m.items == old(m.items)
      requires item in pool && (old(Member(item)) ==> item in old(l.items))
      requires forall c <- cells :: c != l.ring && c != item && c !in old(l.items) ==> Same(c)
      requires forall c <- l.items :: c == item || c in old(l.items)
      ensures m.Valid() && Apart(m.items, l.items) && Apart(l.items, m.items)
    {
      assert old(m.Valid()) && m.ring != l.ring;
      assert Apart(m.items, old(l.items)) && Apart(old(l.items), m.items);
      assert item !in m.items;
      assert Same(m.ring) && forall c <- m.items :: Same(c);
      assert m.Cells() == old(m.Cells());
    }

    method Append(l: DList, item: Ring)
      requires Valid() && l in lists && item in pool && item.next == null && item.prev == null
      modifies lists, cells
      ensures Valid() && lists == old(lists) && pool == old(pool)
      ensures l.items == old(l.items) + [item]
      ensures forall m <- lists :: m != l ==> m.items == old(m.items)
    {
      Free(item);
      l.Append(item);
      Reframe(l, item);
    }

    method Prepend(l: DList, item: Ring)
      requires Valid() && l in lists && item in pool && item.next == null && item.prev == null
      modifies lists, cells
      ensures Valid() && lists == old(lists) && pool == old(pool)
      ensures l.items == [item] + old(l.items)
      ensures forall m <- lists :: m != l ==> m.items == old(m.items)
    {
      Free(item);
      l.Prepend(item);
      Reframe(l, item);
    }

    /** A detached item is in no list. */
    lemma Free(item: Ring)
      requires Valid() && (item.next == null || item.prev == null)
      ensures !Member(item)
    {
      forall l <- lists ensures item !in l.items {
        l.NotLinked(item);
      }
    }

    /** `remove` takes the item out of whichever list holds it, changes no other list, does
        nothing to an item in no list, and leaves the item as `append` and `prepend` want it. */
    method Remove(item: Ring)
      requires Valid() && item in pool
      modifies lists, cells
      ensures Valid() && lists == old(lists) && pool == old(pool)
      ensures forall m <- lists :: m.items == Without(old(m.items), item)
      ensures item.next == null && item.prev == null && !Member(item)
    {
      ghost var owner, k := Owner(item);
      Unlink(item, owner, k);
      if owner != null {
        DropMembers(old(owner.items), k);
        Reframe(owner, item);
      }
      Free(item);
      forall m <- lists ensures m.items == Without(old(m.items), item) {
        if m == owner {
          WithoutDrops(old(owner.items), k);
        } else if owner != null {
          assert Apart(old(owner.items), old(m.items));
        }
      }
    }

    /** Where an item is, if anywhere. */
    lemma Owner(item: Ring) returns (owner: DList?, k: nat)
      requires Valid() && item in pool
      ensures owner == null ==> item.next == null && item.prev == null && !Member(item)
      ensures owner != null ==> owner in lists && owner.Valid() && k < |owner.items| && owner.items[k] == item
      ensures owner != null ==> forall i, j :: 0 <= i < j < |owner.items| ==> owner.items[i] != owner.items[j]
    {
      owner, k := null, 0;
      if Member(item) {
        var l :| l in lists && item in l.items;
        owner := l;
        k :| 0 <= k < |l.items| && l.items[k] == item;
      }
    }
  }

  lemma DropMembers<T>(s: seq<T>, k: nat)
    requires k < |s|
    ensures forall c :: c in Drop(s, k) ==> c in s
    ensures forall c :: c in s ==> c == s[k] || c in Drop(s, k)
  {
    assert s == s[..k] + [s[k]] + s[k + 1..];
  }
}
