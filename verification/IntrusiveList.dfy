/** The intrusive circular list: every object carries its own links, and the list head is an
    object like any other.  The operations act on the links as the matching sequence operations
    act on `items`. */
module IntrusiveLists {

  function Without<T>(s: seq<T>, k: nat): (r: seq<T>)
    requires k < |s|
    ensures |r| == |s| - 1
  {
    s[..k] + s[k + 1..]
  }

  class Obj {
    var pre: Obj?
    var next: Obj?
    var listCount: int
    /** When this object is a list head: the objects on its list, first to last. */
    ghost var items: seq<Obj>

    ghost function Ring(): seq<Obj>
      reads this
    {
      [this] + items
    }

    /** Both link directions agree with the ring, which closes on itself, and the count is right. */
    ghost predicate IsList()
      reads this, items
    {
      Linked(Ring()) && listCount == |items|
    }

    constructor ()
      ensures IsList() && items == [] && IsAlone()
    {
      pre, next := this, this;
      listCount := 0;
      items := [];
    }

    /** Not on any list: linked to itself both ways. */
    ghost predicate IsAlone()
      reads this
    {
      pre == this && next == this
    }

    predicate ListIsEmpty()
      reads this
    {
      (next == this && pre == this) || next == null || pre == null
    }

    method ListItemsCount() returns (n: int)
      requires IsList()
      ensures n == |items|
    {
      n := listCount;
    }

    /** Splices `entry` in after the first `k` items. */
    method Insert(entry: Obj, prev: Obj, nxt: Obj, ghost k: nat)
      requires IsList() && entry !in Ring() && k <= |items|
      requires prev == Ring()[k] && nxt == (if k == |items| then this else items[k])
      modifies this, items, entry
      ensures IsList() && items == old(items)[..k] + [entry] + old(items)[k..]
    {
      ghost var was := Ring();
      assert forall j :: 0 <= j < |was| ==> was[j] != entry;
      assert prev == was[k] && nxt == was[if k + 1 == |was| then 0 else k + 1];
      nxt.pre := entry;
      entry.next := nxt;
      entry.pre := prev;
      prev.next := entry;
      listCount := listCount + 1;
      items := items[..k] + [entry] + items[k..];
      ghost var r := Ring();
      assert forall j :: 0 <= j <= k ==> r[j] == was[j];
      assert r[k + 1] == entry;
      assert forall j :: k + 1 < j < |r| ==> r[j] == was[j - 1];
      InsertedLinks(was, r, entry, k);
    }

    method ListAddHead(entry: Obj)
      requires IsList() && entry !in Ring()
      modifies this, items, entry
      ensures IsList() && items == [entry] + old(items)
    {
      assert next == if items == [] then this else items[0];
      Insert(entry, this, next, 0);
    }

    method ListAddTail(entry: Obj)
      requires IsList() && entry !in Ring()
      modifies this, items, entry
      ensures IsList() && items == old(items) + [entry]
    {
      assert pre == Ring()[|items|];
      Insert(entry, pre, this, |items|);
    }

    /** Takes the item at `k` out of the ring; its own links are left to the caller. */
    method Unlink(entry: Obj, ghost k: nat)
      requires IsList() && k < |items| && items[k] == entry
      modifies this, items
      ensures Linked(Ring()) && items == Without(old(items), k) && entry !in Ring()
      ensures listCount == old(listCount)
    {
      ghost var was := Ring();
      assert was[k + 1] == entry;
      var prev, nxt := entry.pre, entry.next;
      assert prev == was[k] && nxt == was[if k + 2 == |was| then 0 else k + 2];
      prev.next := nxt;
      nxt.pre := prev;
      items := Without(items, k);
      ghost var r := Ring();
      assert forall j :: 0 <= j <= k ==> r[j] == was[j];
      assert forall j :: k < j < |r| ==> r[j] == was[j + 1];
    }

    /** Deletes an item of this list; an object on no list is refused. */
    method ListDel(entry: Obj) returns (ok: bool)
      requires IsList() && (entry in items || (entry.IsAlone() && entry !in Ring()))
      modifies this, items, entry
      ensures IsList() && ok == (entry in old(items))
      ensures !ok ==> items == old(items)
      ensures ok ==> exists k :: 0 <= k < |old(items)| && old(items)[k] == entry && items == Without(old(items), k)
      ensures entry.IsAlone() && entry !in Ring()
    {
      if entry in items {
        IsLinked(entry);
      }
      if entry.ListIsEmpty() || listCount < 1 {
        return false;
      }
      ghost var k :| 0 <= k < |items| && items[k] == entry;
      Unlink(entry, k);
      listCount := listCount - 1;
      entry.next, entry.pre := entry, entry;
      ok := true;
    }

    /** An item of the list is linked to others, if only to the head. */
    lemma IsLinked(entry: Obj)
      requires IsList() && entry in items
      ensures !entry.ListIsEmpty()
    {
      var k :| 0 <= k < |items| && items[k] == entry;
      assert Ring()[k + 1] == entry;
    }

    /** Moves an item to the front without touching the count. */
    method ListMoveHead(entry: Obj)
      requires IsList() && (entry in items || (entry.IsAlone() && entry !in Ring()))
      modifies this, items, entry
      ensures IsList()
      ensures if entry in old(items)
              then exists k ::
                     0 <= k < |old(items)| && old(items)[k] == entry && items == [entry] + Without(old(items), k)
              else items == old(items)
    {
      if entry in items {
        IsLinked(entry);
      }
      if entry.ListIsEmpty() {
        return;
      }
      ghost var k :| 0 <= k < |items| && items[k] == entry;
      Unlink(entry, k);
      PutFirst(entry);
    }

    /** Links an object in behind the head, the count aside. */
    method PutFirst(entry: Obj)
      requires Linked(Ring()) && entry !in Ring()
      modifies this, items, entry
      ensures Linked(Ring()) && items == [entry] + old(items) && listCount == old(listCount)
    {
      var nxt := next;
      ghost var was := Ring();
      assert forall j :: 0 <= j < |was| ==> was[j] != entry;
      assert nxt == was[if 1 == |was| then 0 else 1];
      next := entry;
      entry.next := nxt;
      entry.pre := this;
      nxt.pre := entry;
      items := [entry] + items;
      ghost var r := Ring();
      assert forall j :: 1 < j < |r| ==> r[j] == was[j - 1];
      InsertedLinks(was, r, entry, 0);
    }

    /** Moves an item to the back without touching the count. */
    method ListMoveTail(entry: Obj)
      requires IsList() && (entry in items || (entry.IsAlone() && entry !in Ring()))
      modifies this, items, entry
      ensures IsList()
      ensures if entry in old(items)
              then exists k ::
                     0 <= k < |old(items)| && old(items)[k] == entry && items == Without(old(items), k) + [entry]
              else items == old(items)
    {
      if entry in items {
        IsLinked(entry);
      }
      if entry.ListIsEmpty() {
        return;
      }
      ghost var k :| 0 <= k < |items| && items[k] == entry;
      Unlink(entry, k);
      PutLast(entry);
    }

    /** Links an object in before the head, the count aside. */
    method PutLast(entry: Obj)
      requires Linked(Ring()) && entry !in Ring()
      modifies this, items, entry
      ensures Linked(Ring()) && items == old(items) + [entry] && listCount == old(listCount)
    {
      var prev := pre;
      ghost var was := Ring();
      assert forall j :: 0 <= j < |was| ==> was[j] != entry;
      assert prev == was[|was| - 1];
      pre := entry;
      entry.next := this;
      entry.pre := prev;
      prev.next := entry;
      items := items + [entry];
      InsertedLinks(was, Ring(), entry, |was| - 1);
    }

    method ListRemoveHead() returns (entry: Obj?)
      requires IsList()
      modifies this, items
      ensures IsList()
      ensures if old(items) == [] then entry == null && items == []
              else entry == old(items)[0] && items == old(items)[1..] && entry.IsAlone()
    {
      assert items != [] ==> next == Ring()[1] && pre == Ring()[|items|];
      if ListIsEmpty() || listCount < 1 {
        return null;
      }
      var first := next;
      entry := first;
      var ok := ListDel(first);
    }

    method ListRemoveTail() returns (entry: Obj?)
      requires IsList()
      modifies this, items
      ensures IsList()
      ensures if old(items) == [] then entry == null && items == []
              else entry == old(items)[|old(items)| - 1] && items == old(items)[..|old(items)| - 1] && entry.IsAlone()
    {
      assert items != [] ==> next == Ring()[1] && pre == Ring()[|items|];
      if ListIsEmpty() || listCount < 1 {
        return null;
      }
      var last := pre;
      entry := last;
      var ok := ListDel(last);
    }
  }

  ghost predicate Linked(r: seq<Obj>)
    reads r
  {
    && |r| >= 1
    && (forall i, j :: 0 <= i < j < |r| ==> r[i] != r[j])
    && (forall i {:trigger r[i].next} :: 0 <= i < |r| - 1 ==> r[i].next == r[i + 1])
    && (forall i {:trigger r[i].pre} :: 1 <= i < |r| ==> r[i].pre == r[i - 1])
    && r[|r| - 1].next == r[0] && r[0].pre == r[|r| - 1]
  }

  /** Going on and coming back: the two directions are inverse, all the way round the ring. */
  lemma LinksAgree(l: Obj, x: Obj)
    requires l.IsList() && x in l.Ring()
    ensures x.next != null && x.pre != null && x.next in l.Ring() && x.pre in l.Ring()
    ensures x.next.pre == x && x.pre.next == x
  {
    var r := l.Ring();
    var i :| 0 <= i < |r| && r[i] == x;
    assert x.next == if i + 1 < |r| then r[i + 1] else r[0];
    assert x.pre == if i == 0 then r[|r| - 1] else r[i - 1];
    assert i == 0 && |r| > 1 ==> r[|r| - 1].next == r[0];
  }

  /** `n` steps along the next links from the head. */
  ghost function Walk(l: Obj, n: nat): Obj?
    reads *
  {
    if n == 0 then l else
    var x := Walk(l, n - 1);
    if x == null then null else x.next
  }

  /** Walking from the head visits the items in order and comes back to the head after the last. */
  lemma {:induction false} WalkVisits(l: Obj, n: nat)
    requires l.IsList() && n <= |l.items| + 1
    ensures Walk(l, n) == if n == |l.items| + 1 then l else l.Ring()[n]
  {
    if n > 0 {
      WalkVisits(l, n - 1);
      assert l.Ring()[n - 1].next == if n == |l.items| + 1 then l else l.Ring()[n];
    }
  }

  /** The links an insertion must leave: those of the old ring, but for the gap at `k`. */
  lemma InsertedLinks(was: seq<Obj>, r: seq<Obj>, entry: Obj, k: nat)
    requires k < |was| && |r| == |was| + 1
    requires forall i, j :: 0 <= i < j < |was| ==> was[i] != was[j]
    requires forall j :: 0 <= j < |was| ==> was[j] != entry
    requires forall j :: 0 <= j <= k ==> r[j] == was[j]
    requires r[k + 1] == entry
    requires forall j :: k + 1 < j < |r| ==> r[j] == was[j - 1]
    requires was[k].next == entry && entry.pre == was[k]
    requires var n := if k + 1 == |was| then 0 else k + 1;
             entry.next == was[n] && was[n].pre == entry
    requires forall i {:trigger was[i].next} :: 0 <= i < |was| - 1 && i != k ==> was[i].next == was[i + 1]
    requires forall i {:trigger was[i].pre} :: 1 <= i < |was| && i != k + 1 ==> was[i].pre == was[i - 1]
    requires k + 1 < |was| ==> was[|was| - 1].next == was[0] && was[0].pre == was[|was| - 1]
    ensures Linked(r)
  {
  }
}
