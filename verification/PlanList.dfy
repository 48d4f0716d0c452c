/**
 The doubly linked list that holds jobs, gaps and limits (plan_list_operations.cpp).

 An Item is the part of a job, gap or limit record that the list works on: the
 record's own fields are the value, the two link fields are the successor and
 the predecessor. A PlanList refines the sequence of its items.
 */
module PlanLists {

  class Item<T> {
    var value: T
    var successor: Item?<T>
    var predecessor: Item?<T>

    constructor (v: T)
      ensures value == v && successor == null && predecessor == null
    {
      value, successor, predecessor := v, null, null;
    }
  }

  function Insert<X>(s: seq<X>, k: nat, x: X): seq<X>
    requires k <= |s|
  {
    s[..k] + [x] + s[k..]
  }

  function Delete<X>(s: seq<X>, k: nat): seq<X>
    requires k < |s|
  {
    s[..k] + s[k+1..]
  }

  ghost predicate Distinct<X>(s: seq<X>) {
    forall i, j :: 0 <= i < j < |s| ==> s[i] != s[j]
  }

  /** The position of an element of a sequence. */
  ghost function IndexOf<X>(s: seq<X>, x: X): (k: nat)
    requires x in s
    ensures k < |s| && s[k] == x
  {
    var k: nat :| k < |s| && s[k] == x;
    k
  }

  /** The item at position k, or null behind the last one. */
  ghost function ItemAt<T>(s: seq<Item<T>>, k: nat): Item?<T> {
    if k < |s| then s[k] else null
  }

  class PlanList<T> {
    var numItems: int
    var first: Item?<T>
    var last: Item?<T>
    var current: Item?<T>
    ghost var items: seq<Item<T>>

    /** The links spell out items, in both directions. */
    ghost predicate Valid()
      reads this, items`successor, items`predecessor
    {
      && numItems == |items|
      && (forall i, j :: 0 <= i < j < |items| ==> items[i] != items[j])
      && first == (if |items| == 0 then null else items[0])
      && last == (if |items| == 0 then null else items[|items| - 1])
      && (forall i {:trigger items[i].successor} :: 0 <= i < |items| - 1 ==> items[i].successor == items[i + 1])
      && (forall i {:trigger items[i].predecessor} :: 0 < i < |items| ==> items[i].predecessor == items[i - 1])
      && (items != [] ==> items[0].predecessor == null && items[|items| - 1].successor == null)
    }

    /** The records of the list, in list order. */
    ghost function Values(): (vs: seq<T>)
      reads this, items
      ensures |vs| == |items|
      ensures forall i :: 0 <= i < |vs| ==> vs[i] == items[i].value
    {
      seq(|items|, i requires 0 <= i < |items| reads this, items => items[i].value)
    }

    constructor ()
      ensures Valid() && items == [] && current == null
    {
      numItems, first, last, current, items := 0, null, null, null, [];
    }

    method GetFirst() returns (r: Item?<T>)
      requires Valid()
      modifies `current
      ensures r == current == if items == [] then null else items[0]
    {
      current := first;
      r := current;
    }

    method GetLast() returns (r: Item?<T>)
      requires Valid()
      modifies `current
      ensures r == current == if items == [] then null else items[|items| - 1]
    {
      current := last;
      r := current;
    }

    /** The position after that of the current item; the first one when there is no current item. */
    method GetNext() returns (r: Item?<T>)
      requires Valid() && (current == null || current in items)
      modifies `current
      ensures r == current
      ensures r == ItemAt(items, if old(current) == null then 0 else IndexOf(items, old(current)) + 1)
    {
      if current == null {
        current := first;
      } else {
        current := current.successor;
      }
      r := current;
    }

    method GetPrevious() returns (r: Item?<T>)
      requires Valid() && (current == null || current in items)
      modifies `current
      ensures r == current
      ensures r == var k := if old(current) == null then |items| else IndexOf(items, old(current));
                   if k > 0 then items[k - 1] else null
    {
      if current == null {
        current := last;
      } else {
        current := current.predecessor;
      }
      r := current;
    }

    method AddInFrontOf(next: Item?<T>, it: Item<T>)
      requires Valid() && it !in items
      requires next != null ==> next in items
      requires items == [] ==> it.successor == null && it.predecessor == null
      modifies this, items`successor, items`predecessor, it`successor, it`predecessor
      ensures Valid() && current == it
      ensures items == if next == null then [it] + old(items)
                       else Insert(old(items), IndexOf(old(items), next), it)
      decreases if next == null then 2 else 0
    {
      if next == null {
        AddBegin(it);
        return;
      }
      ghost var k := IndexOf(items, next);
      var p := next.predecessor;
      assert p == if k > 0 then items[k - 1] else null;
      if p != null {
        p.successor := it;
      } else {
        first := it;
      }
      it.successor := next;
      it.predecessor := p;
      next.predecessor := it;
      numItems := numItems + 1;
      current := it;
      assert p != null ==> p.successor == it;
      items := Insert(items, k, it);
    }

    method AddInBackOf(previous: Item?<T>, it: Item<T>)
      requires Valid() && it !in items
      requires previous != null ==> previous in items
      requires items == [] ==> it.successor == null && it.predecessor == null
      modifies this, items`successor, items`predecessor, it`successor, it`predecessor
      ensures Valid() && current == it
      ensures items == if previous == null then old(items) + [it]
                       else Insert(old(items), IndexOf(old(items), previous) + 1, it)
      decreases if previous == null then 2 else 0
    {
      if previous == null {
        AddEnd(it);
        return;
      }
      ghost var k := IndexOf(items, previous);
      var s := previous.successor;
      assert s == if k + 1 < |items| then items[k + 1] else null;
      if s != null {
        s.predecessor := it;
      } else {
        last := it;
      }
      it.successor := s;
      it.predecessor := previous;
      previous.successor := it;
      numItems := numItems + 1;
      current := it;
      assert s != null ==> s.predecessor == it;
      items := Insert(items, k + 1, it);
    }

    method AddBegin(it: Item<T>)
      requires Valid() && it !in items
      requires items == [] ==> it.successor == null && it.predecessor == null
      modifies this, items`successor, items`predecessor, it`successor, it`predecessor
      ensures Valid() && current == it
      ensures items == [it] + old(items)
      decreases 1
    {
      if numItems == 0 {
        numItems := numItems + 1;
        first := it;
        last := it;
        current := it;
        items := [it];
        return;
      }
      AddInFrontOf(first, it);
    }

    method AddEnd(it: Item<T>)
      requires Valid() && it !in items
      requires items == [] ==> it.successor == null && it.predecessor == null
      modifies this, items`successor, items`predecessor, it`successor, it`predecessor
      ensures Valid() && current == it
      ensures items == old(items) + [it]
      decreases 1
    {
      if numItems == 0 {
        numItems := numItems + 1;
        first := it;
        last := it;
        current := it;
        items := [it];
        return;
      }
      AddInBackOf(last, it);
    }

    /** The item at a position, reached from the nearer end. */
    method GetItem(position: int) returns (r: Item?<T>)
      requires Valid()
      modifies `current
      ensures Valid() && Values() == old(Values())
      ensures r == if 0 <= position < |items| then items[position] else null
      ensures 0 <= position < |items| ==> current == r
    {
      if numItems <= position || position < 0 {
        return null;
      }
      if numItems / 2 < position {
        current := last;
        for i := 0 to numItems - position - 1
          invariant numItems == |items|
          invariant current == items[|items| - 1 - i]
        {
          current := current.predecessor;
        }
      } else {
        current := first;
        for i := 0 to position
          invariant current == items[i]
        {
          current := current.successor;
        }
      }
      r := current;
    }

    /** A removed record that is not freed leaves with null links, ready for the next add. */
    method RemoveItem(it: Item<T>, setFree: bool)
      requires Valid() && it in items
      modifies this, items`successor, items`predecessor
      ensures Valid() && current == null
      ensures items == Delete(old(items), IndexOf(old(items), it)) && it !in items
      ensures !setFree ==> it.successor == null && it.predecessor == null
    {
      Unlink(it);
      current := null;
      if !setFree {
        it.successor := null;
        it.predecessor := null;
      }
    }

    /** Links the neighbours of an item with each other; its own links stay. */
    method Unlink(it: Item<T>)
      requires Valid() && it in items
      modifies this, items`successor, items`predecessor
      ensures Valid() && items == Delete(old(items), IndexOf(old(items), it)) && it !in items
    {
      ghost var k := IndexOf(items, it);
      var p := it.predecessor;
      var s := it.successor;
      assert p == if k > 0 then items[k - 1] else null;
      assert s == if k + 1 < |items| then items[k + 1] else null;
      if p != null {
        p.successor := s;
      } else {
        if s != null {
          s.predecessor := null;
        }
        first := s;
      }
      if s != null {
        s.predecessor := p;
      } else {
        if p != null {
          p.successor := null;
        }
        last := p;
      }
      assert p != null ==> p.successor == s;
      assert s != null ==> s.predecessor == p;
      items := Delete(items, k);
      numItems := numItems - 1;
    }

    /** Moves an item behind another one, or to the front. */
    method MoveItem(it: Item<T>, pred: Item?<T>)
      requires Valid() && it in items
      requires pred != null ==> pred in items && pred != it
      modifies this, items`successor, items`predecessor
      ensures Valid() && current == it
      ensures var rest := Delete(old(items), IndexOf(old(items), it));
              if pred == null then items == [it] + rest
              else pred in rest && items == Insert(rest, IndexOf(rest, pred) + 1, it)
    {
      RemoveItem(it, false);
      if pred != null {
        AddInBackOf(pred, it);
      }
      if pred == null {
        var f := GetFirst();
        AddInFrontOf(f, it);
      }
    }

    /** Takes over all items of the other list; the other list object is freed by the source. */
    method Append(other: PlanList<T>)
      requires Valid() && other.Valid() && other != this
      requires forall i, j :: 0 <= i < |items| && 0 <= j < |other.items| ==> items[i] != other.items[j]
      modifies this, items`successor, other.items`predecessor
      ensures Valid() && items == old(items) + old(other.items)
    {
      if numItems > 0 && other.numItems > 0 {
        last.successor := other.first;
        other.first.predecessor := last;
        last := other.last;
        numItems := numItems + other.numItems;
        items := items + other.items;
      } else if numItems == 0 {
        first := other.first;
        last := other.last;
        numItems := numItems + other.numItems;
        items := items + other.items;
      }
    }

    /** Puts an unlinked item in the place of another one; refuses a linked one, which every other item of the list is. */
    method ReplaceItem(itOld: Item?<T>, itNew: Item?<T>, setFree: bool) returns (r: int)
      requires Valid() && (itOld != null ==> itOld in items)
      modifies this, items`successor, items`predecessor, (if itNew == null then [] else [itNew])`successor, (if itNew == null then [] else [itNew])`predecessor
      ensures Valid()
      ensures r == 0 <==> itOld != null && itNew != null && itOld != itNew && old(itNew.successor) == null && old(itNew.predecessor) == null
      ensures itNew != null && itNew in old(items) ==> r == 1
      ensures r == 0 ==> items == old(items)[IndexOf(old(items), itOld) := itNew]
      ensures r == 0 && !setFree ==> itOld.successor == null && itOld.predecessor == null
      ensures r != 0 ==> r == 1 && items == old(items)
    {
      if itOld == itNew || itOld == null || itNew == null {
        return 1;
      }
      if itNew in items {
        ghost var n := IndexOf(items, itNew);
        assert if n + 1 < |items| then itNew.successor == items[n + 1] else n > 0 && itNew.predecessor == items[n - 1];
      }
      if itNew.successor != null || itNew.predecessor != null {
        return 1;
      }
      Relink(itOld, itNew, IndexOf(items, itOld));
      if !setFree {
        itOld.successor := null;
        itOld.predecessor := null;
      }
      r := 0;
    }

    /** Links a new item in the place of the item at position k. */
    method Relink(itOld: Item<T>, itNew: Item<T>, ghost k: nat)
      requires Valid() && k < |items| && items[k] == itOld && itNew !in items
      modifies this, items`successor, items`predecessor, itNew`successor, itNew`predecessor
      ensures Valid() && items == old(items)[k := itNew] && itOld !in items
    {
      assert itOld.successor == if k + 1 < |items| then items[k + 1] else null;
      assert itOld.predecessor == if k > 0 then items[k - 1] else null;
      itNew.successor := itOld.successor;
      itNew.predecessor := itOld.predecessor;
      if itNew.successor != null {
        itNew.successor.predecessor := itNew;
      } else {
        last := itNew;
      }
      if itNew.predecessor != null {
        itNew.predecessor.successor := itNew;
      } else {
        first := itNew;
      }
      assert itNew.successor != null ==> itNew.successor.predecessor == itNew;
      assert itNew.predecessor != null ==> itNew.predecessor.successor == itNew;
      items := items[k := itNew];
    }
  }

  // ----- the same operations, by position and on values

  /** Starts a walk over the list: there is no current item, so the next one is the first. */
  method Rewind<T>(list: PlanList<T>) returns (r: Item?<T>)
    requires list.Valid()
    modifies list`current
    ensures list.Valid() && list.Values() == old(list.Values())
    ensures r == list.current == ItemAt(list.items, 0)
  {
    list.current := null;
    r := list.GetNext();
  }

  /** One step of a walk that stands at position k. */
  method Advance<T>(list: PlanList<T>, ghost k: nat) returns (r: Item?<T>)
    requires list.Valid() && k < |list.items| && list.current == list.items[k]
    modifies list`current
    ensures list.Valid() && list.Values() == old(list.Values())
    ensures r == list.current == ItemAt(list.items, k + 1)
  {
    r := list.GetNext();
  }

  method PutBefore<T>(list: PlanList<T>, at: Item<T>, it: Item<T>, ghost k: nat)
    requires list.Valid() && k < |list.items| && list.items[k] == at && it !in list.items
    modifies list, list.items`successor, list.items`predecessor, it`successor, it`predecessor
    ensures list.Valid() && list.items == Insert(old(list.items), k, it)
    ensures list.Values() == Insert(old(list.Values()), k, it.value)
  {
    hide PlanList.Valid;
    ItemsDiffer(list, k);
    assert IndexOf(list.items, at) == k;
    list.AddInFrontOf(at, it);
  }

  method PutBehind<T>(list: PlanList<T>, at: Item<T>, it: Item<T>, ghost k: nat)
    requires list.Valid() && k < |list.items| && list.items[k] == at && it !in list.items
    modifies list, list.items`successor, list.items`predecessor, it`successor, it`predecessor
    ensures list.Valid() && list.items == Insert(old(list.items), k + 1, it)
    ensures list.Values() == Insert(old(list.Values()), k + 1, it.value)
  {
    hide PlanList.Valid;
    ItemsDiffer(list, k);
    assert IndexOf(list.items, at) == k;
    list.AddInBackOf(at, it);
  }

  method PutLast<T>(list: PlanList<T>, it: Item<T>)
    requires list.Valid() && it !in list.items && it.successor == null && it.predecessor == null
    modifies list, list.items`successor, list.items`predecessor, it`successor, it`predecessor
    ensures list.Valid() && list.items == old(list.items) + [it]
    ensures list.Values() == old(list.Values()) + [it.value]
    ensures list.Values() == Insert(old(list.Values()), |old(list.Values())|, it.value)
  {
    list.AddEnd(it);
  }

  method PutFirst<T>(list: PlanList<T>, it: Item<T>)
    requires list.Valid() && it !in list.items && it.successor == null && it.predecessor == null
    modifies list, list.items`successor, list.items`predecessor, it`successor, it`predecessor
    ensures list.Valid() && list.items == [it] + old(list.items)
    ensures list.Values() == [it.value] + old(list.Values())
  {
    list.AddBegin(it);
  }

  lemma {:induction false} ItemsDiffer<T>(list: PlanList<T>, k: nat)
    requires list.Valid() && k < |list.items|
    ensures forall i :: 0 <= i < |list.items| && i != k ==> list.items[i] != list.items[k]
  {
  }

  /** Takes out the item at position k, whose record is freed. */
  method TakeOut<T>(list: PlanList<T>, it: Item<T>, ghost k: nat)
    requires list.Valid() && k < |list.items| && list.items[k] == it
    modifies list, list.items`successor, list.items`predecessor
    ensures list.Valid() && list.items == Delete(old(list.items), k)
    ensures list.Values() == Delete(old(list.Values()), k)
  {
    assert IndexOf(list.items, it) == k;
    list.RemoveItem(it, true);
  }

  /** Overwrites the record of the item at position k. */
  method SetValue<T>(list: PlanList<T>, at: Item<T>, v: T, ghost k: nat)
    requires list.Valid() && k < |list.items| && list.items[k] == at
    modifies at`value
    ensures list.Valid() && at.value == v
    ensures list.Values() == old(list.Values())[k := v]
  {
    at.value := v;
  }
}
