/** Whole histories of ring-list operations: the pointers refine plain sequences of numbers.
    Lists and items are numbered in order of creation. */
module RingHistory {
  import opened Sequences
  import opened RingList

  datatype Op = NewList | NewItem | AppendTo(l: nat, i: nat) | PrependTo(l: nat, i: nat) | RemoveItem(i: nat)

  /** What the rings stand for: the item numbers in each list. */
  datatype Book = Book(lists: seq<seq<nat>>, count: nat)

  predicate Placed(b: Book, i: nat) {
    exists l <- b.lists :: i in l
  }

  /** The source asserts that an item to be added is not linked; the client asks `in_list` first,
      and adds nothing otherwise. */
  predicate Addable(b: Book, l: nat, i: nat) {
    l < |b.lists| && i < b.count && !Placed(b, i)
  }

  function Apply(b: Book, op: Op): Book {
    match op
    case NewList => b.(lists := b.lists + [[]])
    case NewItem => b.(count := b.count + 1)
    case AppendTo(l, i) => if Addable(b, l, i) then b.(lists := b.lists[l := b.lists[l] + [i]]) else b
    case PrependTo(l, i) => if Addable(b, l, i) then b.(lists := b.lists[l := [i] + b.lists[l]]) else b
    case RemoveItem(i) => if i < b.count then b.(lists := WithoutAll(b.lists, i)) else b
  }

  function WithoutAll(lists: seq<seq<nat>>, i: nat): (r: seq<seq<nat>>)
    ensures |r| == |lists| && forall j :: 0 <= j < |r| ==> r[j] == Without(lists[j], i)
  {
    seq(|lists|, j requires 0 <= j < |lists| => Without(lists[j], i))
  }

  function Final(ops: seq<Op>): Book {
    if ops == [] then Book([], 0) else Apply(Final(ops[..|ops|-1]), ops[|ops|-1])
  }

  // ---------------------------------------------------------------- numbers for cells

  predicate Below(ids: seq<nat>, n: nat) {
    forall k :: 0 <= k < |ids| ==> ids[k] < n
  }

  /** The cells that have these numbers. */
  function Named(items: seq<Ring>, ids: seq<nat>): (r: seq<Ring>)
    requires Below(ids, |items|)
    ensures |r| == |ids| && forall k :: 0 <= k < |r| ==> r[k] == items[ids[k]]
  {
    seq(|ids|, k requires 0 <= k < |ids| => items[ids[k]])
  }

  lemma {:induction false} NamedWithout(items: seq<Ring>, ids: seq<nat>, i: nat)
    requires Below(ids, |items|) && i < |items| && Distinct(items)
    ensures Below(Without(ids, i), |items|)
    ensures Named(items, Without(ids, i)) == Without(Named(items, ids), items[i])
    decreases |ids|
  {
    if ids != [] {
      var n := |ids| - 1;
      NamedWithout(items, ids[..n], i);
      hide Distinct;
      NamedSplit(items, ids[..n], ids[n]);
      NamedSplit(items, Without(ids[..n], i), ids[n]);
      assert ids == ids[..n] + [ids[n]] && Named(items, ids)[..n] == Named(items, ids[..n]);
      SameName(items, ids[n], i);
    }
  }

  lemma SameName(items: seq<Ring>, i: nat, j: nat)
    requires Distinct(items) && i < |items| && j < |items|
    ensures items[i] == items[j] <==> i == j
  {
  }

  lemma NamedSplit(items: seq<Ring>, ids: seq<nat>, id: nat)
    requires Below(ids, |items|) && id < |items|
    ensures Below(ids + [id], |items|)
    ensures Named(items, ids + [id]) == Named(items, ids) + [items[id]]
  {
  }

  // ---------------------------------------------------------------- the client

  class Client {
    const world: World
    var lists: seq<DList>
    var items: seq<Ring>

    constructor ()
      ensures fresh(world) && world.lists == {} && world.cells == {} && Holds(Book([], 0))
    {
      world := new World();
      lists, items := [], [];
    }

    /** The rings stand for the book. */
    ghost predicate Holds(b: Book)
      reads this, world, world.lists, world.cells
    {
      && world.Valid() && Numbered()
      && |lists| == |b.lists| && |items| == b.count
      && forall j :: 0 <= j < |lists| ==> Below(b.lists[j], |items|) && lists[j].items == Named(items, b.lists[j])
    }

    ghost predicate Numbered()
      reads this, world
    {
      && Distinct(lists) && Distinct(items)
      && (forall l <- lists :: l in world.lists) && (forall l <- world.lists :: l in lists)
      && (forall c <- items :: c in world.pool)
    }

    /** `in_list` answers for the book. */
    method Linked(i: nat, ghost b: Book) returns (r: bool)
      requires Holds(b) && i < b.count
      ensures r <==> Placed(b, i)
    {
      r := world.InList(items[i]);
      PlacedIsMember(i, b);
    }

    lemma PlacedIsMember(i: nat, b: Book)
      requires Holds(b) && i < b.count
      ensures world.Member(items[i]) <==> Placed(b, i)
    {
      if world.Member(items[i]) {
        MemberIsPlaced(i, b);
      }
      if Placed(b, i) {
        PlacedIsThere(i, b);
      }
    }

    lemma MemberIsPlaced(i: nat, b: Book)
      requires Holds(b) && i < b.count && world.Member(items[i])
      ensures Placed(b, i)
    {
      var l :| l in world.lists && items[i] in l.items;
      var j :| 0 <= j < |lists| && lists[j] == l;
      assert lists[j].items == Named(items, b.lists[j]);
      assert b.lists[j] in b.lists;
    }

    lemma PlacedIsThere(i: nat, b: Book)
      requires Holds(b) && i < b.count && Placed(b, i)
      ensures world.Member(items[i])
    {
      var ids :| ids in b.lists && i in ids;
      var j :| 0 <= j < |b.lists| && b.lists[j] == ids;
      var k :| 0 <= k < |ids| && ids[k] == i;
      assert lists[j].items[k] == items[i];
    }

    /** Whether an item can be added to a list. */
    method CanAdd(l: nat, i: nat, ghost b: Book) returns (r: bool)
      requires Holds(b)
      ensures r <==> Addable(b, l, i)
    {
      if l >= |lists| || i >= |items| {
        return false;
      }
      var linked := Linked(i, b);
      r := !linked;
    }

    method AddList(ghost b: Book)
      requires Holds(b)
      modifies this, world
      ensures Holds(Apply(b, NewList))
      ensures fresh(world.lists - old(world.lists)) && fresh(world.cells - old(world.cells))
    {
      var l := world.NewList();
      lists := lists + [l];
      assert Named(items, []) == [];
    }

    method AddItem(ghost b: Book)
      requires Holds(b)
      modifies this, world
      ensures Holds(Apply(b, NewItem))
      ensures fresh(world.lists - old(world.lists)) && fresh(world.cells - old(world.cells))
    {
      ghost var was := items;
      var item := world.NewItem();
      items := items + [item];
      assert forall j :: 0 <= j < |lists| ==> Named(items, b.lists[j]) == Named(was, b.lists[j]);
    }

    method Append(l: nat, i: nat, ghost b: Book)
      requires Holds(b)
      modifies world.lists, world.cells
      ensures Holds(Apply(b, AppendTo(l, i)))
    {
      var can := CanAdd(l, i, b);
      if can {
        PlacedIsMember(i, b);
        world.Append(lists[l], items[i]);
        assert Named(items, b.lists[l] + [i]) == Named(items, b.lists[l]) + [items[i]];
      }
    }

    method Prepend(l: nat, i: nat, ghost b: Book)
      requires Holds(b)
      modifies world.lists, world.cells
      ensures Holds(Apply(b, PrependTo(l, i)))
    {
      var can := CanAdd(l, i, b);
      if can {
        PlacedIsMember(i, b);
        world.Prepend(lists[l], items[i]);
        assert Named(items, [i] + b.lists[l]) == [items[i]] + Named(items, b.lists[l]);
      }
    }

    method Remove(i: nat, ghost b: Book)
      requires Holds(b)
      modifies world.lists, world.cells
      ensures Holds(Apply(b, RemoveItem(i)))
    {
      if i < |items| {
        world.Remove(items[i]);
        forall j | 0 <= j < |lists| {
          NamedWithout(items, b.lists[j], i);
        }
      }
    }

    method Do(op: Op, ghost b: Book)
      requires Holds(b)
      modifies this, world, world.lists, world.cells
      ensures Holds(Apply(b, op))
      ensures fresh(world.lists - old(world.lists)) && fresh(world.cells - old(world.cells))
    {
      hide Holds, Apply;
      match op
      case NewList => AddList(b);
      case NewItem => AddItem(b);
      case AppendTo(l, i) => Append(l, i, b);
      case PrependTo(l, i) => Prepend(l, i, b);
      case RemoveItem(i) => Remove(i, b);
    }

    /** The numbers of the cells met on a walk. */
    method Numbers(cells: seq<Ring>, ghost ids: seq<nat>) returns (r: seq<nat>)
      requires Distinct(items) && Below(ids, |items|) && cells == Named(items, ids)
      ensures r == ids
    {
      r := [];
      for k := 0 to |cells|
        invariant r == ids[..k]
      {
        var i := 0;
        while items[i] != cells[k]
          invariant i <= ids[k]
          decreases ids[k] - i
        {
          i := i + 1;
        }
        r := r + [i];
      }
    }

    /** What `DLIST_FOREACH` and the walk from the end see in list `j`. */
    method Walk(j: nat, ghost b: Book) returns (forward: seq<nat>, backward: seq<nat>)
      requires Holds(b) && j < |b.lists|
      ensures forward == b.lists[j] && backward == Reversed(b.lists[j])
    {
      assert lists[j] in world.lists;
      var there := lists[j].Visit();
      var back := lists[j].VisitBack();
      forward := Numbers(there, b.lists[j]);
      backward := Numbers(back, Reversed(b.lists[j]));
    }

    method Observe(ghost b: Book) returns (forward: seq<seq<nat>>, backward: seq<seq<nat>>, linked: seq<bool>)
      requires Holds(b)
      ensures forward == b.lists
      ensures |backward| == |forward| && forall j :: 0 <= j < |forward| ==> backward[j] == Reversed(forward[j])
      ensures |linked| == b.count && forall i :: 0 <= i < |linked| ==> (linked[i] <==> Placed(b, i))
    {
      forward, backward, linked := [], [], [];
      for j := 0 to |lists|
        invariant forward == b.lists[..j] && |backward| == j
        invariant forall k :: 0 <= k < j ==> backward[k] == Reversed(forward[k])
      {
        var there, back := Walk(j, b);
        forward, backward := forward + [there], backward + [back];
      }
      for i := 0 to |items|
        invariant |linked| == i && forall k :: 0 <= k < i ==> (linked[k] <==> Placed(b, k))
      {
        var l := Linked(i, b);
        linked := linked + [l];
      }
    }
  }

  /** Any history on any number of lists: walking the rings afterwards, in either direction, and
      asking `in_list` of every item give exactly what the sequences say. */
  method Play(ops: seq<Op>) returns (forward: seq<seq<nat>>, backward: seq<seq<nat>>, linked: seq<bool>)
    ensures forward == Final(ops).lists
    ensures |backward| == |forward| && forall j :: 0 <= j < |forward| ==> backward[j] == Reversed(forward[j])
    ensures |linked| == Final(ops).count && forall i :: 0 <= i < |linked| ==> (linked[i] <==> Placed(Final(ops), i))
  {
    var client := new Client();
    ghost var book := Book([], 0);
    for n := 0 to |ops|
      invariant client.Holds(book) && book == Final(ops[..n])
      invariant fresh(client) && fresh(client.world) && fresh(client.world.lists) && fresh(client.world.cells)
    {
      assert ops[..n + 1][..n] == ops[..n];
      client.Do(ops[n], book);
      book := Apply(book, ops[n]);
    }
    assert ops[..|ops|] == ops;
    forward, backward, linked := client.Observe(book);
  }

  // ---------------------------------------------------------------- laws of the book

  /** No item stands twice, in one list or in two, and every number is an item's. */
  ghost predicate Tidy(b: Book) {
    && (forall l <- b.lists :: Distinct(l) && Below(l, b.count))
    && (forall j, k :: 0 <= j < k < |b.lists| ==> forall i <- b.lists[j] :: i !in b.lists[k])
  }

  lemma {:induction false} WithoutSubset<T>(s: seq<T>, x: T)
    requires Distinct(s)
    ensures Distinct(Without(s, x))
    ensures forall y :: y in Without(s, x) <==> y in s && y != x
    decreases |s|
  {
    if s != [] {
      WithoutSubset(s[..|s|-1], x);
      assert s == s[..|s|-1] + [s[|s|-1]];
      assert s[|s|-1] !in s[..|s|-1];
      var w := Without(s[..|s|-1], x);
      assert forall k :: 0 <= k < |w| ==> w[k] in w;
    }
  }

  lemma ApplyTidy(b: Book, op: Op)
    requires Tidy(b)
    ensures Tidy(Apply(b, op))
  {
    var r := Apply(b, op);
    match op
    case NewList =>
    case NewItem =>
    case AppendTo(l, i) => if Addable(b, l, i) { AddTidy(b, l, i, b.lists[l] + [i]); }
    case PrependTo(l, i) => if Addable(b, l, i) { AddTidy(b, l, i, [i] + b.lists[l]); }
    case RemoveItem(i) =>
      forall j | 0 <= j < |b.lists|
        ensures Distinct(Without(b.lists[j], i)) && Below(Without(b.lists[j], i), b.count)
        ensures forall y :: y in Without(b.lists[j], i) ==> y in b.lists[j]
      {
        WithoutSubset(b.lists[j], i);
        assert forall k :: 0 <= k < |Without(b.lists[j], i)| ==> Without(b.lists[j], i)[k] in b.lists[j];
      }
  }

  lemma AddTidy(b: Book, l: nat, i: nat, grown: seq<nat>)
    requires Tidy(b) && Addable(b, l, i)
    requires grown == b.lists[l] + [i] || grown == [i] + b.lists[l]
    ensures Tidy(b.(lists := b.lists[l := grown]))
  {
    var list := b.lists[l];
    assert forall j :: 0 <= j < |b.lists| ==> i !in b.lists[j];
    assert list in b.lists && forall k :: 0 <= k < |list| ==> list[k] in list && list[k] != i;
    if grown == [i] + list {
      assert forall k :: 1 <= k < |grown| ==> grown[k] == list[k - 1];
    }
    assert Distinct(grown) && Below(grown, b.count);
    assert forall y :: y in grown <==> y in list || y == i;
  }

  /** In every history, so in every walk of it, an item is met at most once. */
  lemma {:induction false} HistoryTidy(ops: seq<Op>)
    ensures Tidy(Final(ops))
    decreases |ops|
  {
    if ops != [] {
      HistoryTidy(ops[..|ops|-1]);
      ApplyTidy(Final(ops[..|ops|-1]), ops[|ops|-1]);
    }
  }

  /** Adding and removing again, or removing twice, leaves what one removal leaves. */
  lemma RemoveForgets(ops: seq<Op>, l: nat, i: nat)
    ensures Final(ops + [AppendTo(l, i)] + [RemoveItem(i)]) == Final(ops + [RemoveItem(i)])
    ensures Final(ops + [PrependTo(l, i)] + [RemoveItem(i)]) == Final(ops + [RemoveItem(i)])
    ensures Final(ops + [RemoveItem(i)] + [RemoveItem(i)]) == Final(ops + [RemoveItem(i)])
  {
    var b := Final(ops);
    FinalOne(ops, RemoveItem(i));
    FinalOne(ops, AppendTo(l, i));
    FinalOne(ops, PrependTo(l, i));
    FinalOne(ops + [AppendTo(l, i)], RemoveItem(i));
    FinalOne(ops + [PrependTo(l, i)], RemoveItem(i));
    FinalOne(ops + [RemoveItem(i)], RemoveItem(i));
    if Addable(b, l, i) {
      assert i !in b.lists[l];
      RemoveUndoes(b.lists[l], i);
      assert Apply(Apply(b, AppendTo(l, i)), RemoveItem(i)).lists == Apply(b, RemoveItem(i)).lists;
      assert Apply(Apply(b, PrependTo(l, i)), RemoveItem(i)).lists == Apply(b, RemoveItem(i)).lists;
    }
    assert WithoutAll(WithoutAll(b.lists, i), i) == WithoutAll(b.lists, i);
  }

  lemma FinalOne(ops: seq<Op>, op: Op)
    ensures Final(ops + [op]) == Apply(Final(ops), op)
  {
    assert (ops + [op])[..|ops|] == ops;
  }
}
