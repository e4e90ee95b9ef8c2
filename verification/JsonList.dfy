/** The children of an array or object: a list linked both ways whose head's `prev`
    is its tail. Each operation acts on the sequence of children. */
module JsonList {
  class Node {
    var next: Node?
    var prev: Node?
    var child: Node?

    constructor ()
      ensures next == null && prev == null && child == null
    {
      next, prev, child := null, null, null;
    }
  }

  function Successor(items: seq<Node>, i: nat): Node?
    requires i < |items|
  {
    if i + 1 < |items| then items[i + 1] else null
  }

  // The head's is the tail.
  function Predecessor(items: seq<Node>, i: nat): Node
    requires i < |items|
  {
    if i > 0 then items[i - 1] else items[|items| - 1]
  }

  // `items` are the children of `parent`, in order.
  ghost predicate Listed(parent: Node, items: seq<Node>)
    reads parent, items
  {
    && parent !in items
    && (forall i, j | 0 <= i < j < |items| :: items[i] != items[j])
    && parent.child == (if items == [] then null else items[0])
    && (forall i {:trigger items[i].next} | 0 <= i < |items| :: items[i].next == Successor(items, i))
    && (forall i {:trigger items[i].prev} | 0 <= i < |items| :: items[i].prev == Predecessor(items, i))
  }

  /** A list has one reading only. */
  lemma {:induction false} ListedOnce(parent: Node, a: seq<Node>, b: seq<Node>, n: nat)
    requires Listed(parent, a) && Listed(parent, b) && n <= |a|
    ensures n <= |b| && a[..n] == b[..n] && (n == |a| ==> a == b)
  {
    if n > 0 {
      ListedOnce(parent, a, b, n - 1);
      if n == 1 {
        assert b != [] && a[0] == b[0];
      } else {
        assert a[n - 2] == a[..n - 1][n - 2] == b[..n - 1][n - 2] == b[n - 2];
        assert a[n - 2].next == b[n - 2].next;
      }
      assert a[..n] == a[..n - 1] + [a[n - 1]] && b[..n] == b[..n - 1] + [b[n - 1]];
    }
    if n == |a| {
      if n > 0 {
        assert a[n - 1] == a[..n][n - 1] == b[..n][n - 1] == b[n - 1];
      }
      assert n > 0 ==> a[n - 1].next == b[n - 1].next;
    }
  }

  // Where a child is, and that its `prev` is set
  lemma PlaceOf(parent: Node, item: Node, items: seq<Node>) returns (i: nat)
    requires Listed(parent, items) && (item in items || item == parent.child)
    ensures i < |items| && items[i] == item && item.prev != null
    ensures i == 0 <==> item == parent.child
    ensures item.prev == Predecessor(items, i) && item.next == Successor(items, i)
  {
    if item == parent.child {
      i := 0;
    } else {
      i :| 0 <= i < |items| && items[i] == item;
    }
    assert item.prev == Predecessor(items, i);
  }

  /** get_array_item */
  method GetArrayItem(parent: Node?, index: nat, ghost items: seq<Node>) returns (r: Node?)
    requires parent != null ==> Listed(parent, items)
    ensures r == if parent != null && index < |items| then items[index] else null
  {
    if parent == null {
      return null;
    }
    var i := index;
    r := parent.child;
    while r != null && i > 0
      invariant 0 <= i <= index
      invariant r == if index - i < |items| then items[index - i] else null
      decreases i
    {
      i := i - 1;
      r := r.next;
    }
  }

  /** add_item_to_array: an append exactly when the item brings no successor along,
      or the list was empty. */
  method AddItemToArray(parent: Node?, item: Node?, ghost items: seq<Node>) returns (ok: bool)
    requires parent != null ==> Listed(parent, items)
    requires item != null ==> item !in items
    modifies if parent == null || item == null || parent == item then {}
             else {parent, item} + (if items == [] then {} else {items[0], items[|items| - 1]})
    ensures ok <==> parent != null && item != null && parent != item
    ensures ok ==> (Listed(parent, items + [item]) <==> items == [] || old(item.next) == null)
    ensures ok ==> parent.next == old(parent.next) && parent.prev == old(parent.prev) && item.child == old(item.child)
  {
    if item == null || parent == null || parent == item {
      return false;
    }
    var child := parent.child;
    if child == null {
      parent.child := item;
      item.prev := item;
      item.next := null;
      assert Listed(parent, items + [item]);
    } else if child.prev != null {
      child.prev.next := item;
      item.prev := child.prev;
      parent.child.prev := item;
      ghost var all := items + [item];
      assert all[|items|] == item && all[|items| - 1] == items[|items| - 1];
      assert item.prev == all[|items| - 1];
      assert forall k | 0 <= k < |items| :: all[k] == items[k];
      if item.next == null {
        forall k | 0 <= k < |all|
          ensures all[k].next == Successor(all, k)
          ensures all[k].prev == Predecessor(all, k)
        {
        }
        assert Listed(parent, all);
      }
    }
    ok := true;
  }

  // The new item linked in front of child i
  method LinkBefore(parent: Node, after: Node, newitem: Node, ghost items: seq<Node>, ghost i: nat)
    requires Listed(parent, items) && i < |items| && items[i] == after
    requires newitem != parent && newitem !in items
    modifies parent, newitem, items
    ensures Listed(parent, Inserted(items, i, newitem))
  {
    ghost var at := PlaceOf(parent, after, items);
    assert at == i;
    newitem.next := after;
    newitem.prev := after.prev;
    after.prev := newitem;
    if after == parent.child {
      parent.child := newitem;
    } else {
      newitem.prev.next := newitem;
    }
    InsertedIsListed(parent, newitem, items, i);
  }

  // The sequence with one more child
  function Inserted(items: seq<Node>, i: nat, item: Node): (r: seq<Node>)
    requires i <= |items|
    ensures |r| == |items| + 1
    ensures forall k {:trigger r[k]} | 0 <= k < |r| :: r[k] == if k < i then items[k] else if k == i then item else items[k - 1]
  {
    items[..i] + [item] + items[i..]
  }

  lemma InsertedIsListed(parent: Node, item: Node, items: seq<Node>, i: nat)
    requires i < |items| && item !in items && parent !in items && item != parent
    requires forall j, k | 0 <= j < k < |items| :: items[j] != items[k]
    requires parent.child == if i == 0 then item else items[0]
    requires item.next == items[i] && item.prev == Predecessor(items, i)
    requires forall k {:trigger items[k].next} | 0 <= k < |items| ::
               items[k].next == if k + 1 == i then item else Successor(items, k)
    requires forall k {:trigger items[k].prev} | 0 <= k < |items| ::
               items[k].prev == if k == i then item else Predecessor(items, k)
    ensures Listed(parent, Inserted(items, i, item))
  {
  }

  /** cJSON_InsertItemInArray: past the end it is an append. */
  method InsertItemInArray(parent: Node, which: int, newitem: Node?, ghost items: seq<Node>) returns (ok: bool)
    requires Listed(parent, items) && newitem != parent
    requires newitem != null ==> newitem !in items
    modifies parent, if newitem == null then {} else {newitem}, items
    ensures ok <==> which >= 0 && newitem != null
    ensures ok ==> var at := if which <= |items| then which else |items|;
                   Listed(parent, Inserted(items, at, newitem))
                   <==> which < |items| || items == [] || old(newitem.next) == null
    ensures !ok ==> Listed(parent, items)
  {
    if which < 0 || newitem == null {
      return false;
    }
    var after := GetArrayItem(parent, which, items);
    if after == null {
      ok := AddItemToArray(parent, newitem, items);
      assert Inserted(items, |items|, newitem) == items + [newitem];
      return;
    }
    LinkBefore(parent, after, newitem, items, which);
    return true;
  }

  // The sequence with one child less
  function Removed(items: seq<Node>, i: nat): (r: seq<Node>)
    requires i < |items|
    ensures |r| == |items| - 1
    ensures forall k {:trigger r[k]} | 0 <= k < |r| :: r[k] == items[if k < i then k else k + 1]
  {
    items[..i] + items[i + 1..]
  }

  lemma RemovedIsListed(parent: Node, items: seq<Node>, i: nat)
    requires i < |items| && parent !in items
    requires forall j, k | 0 <= j < k < |items| :: items[j] != items[k]
    requires parent.child == if i == 0 then Successor(items, 0) else items[0]
    requires forall k {:trigger items[k].next} | 0 <= k < |items| && k != i ::
               items[k].next == if k + 1 == i then Successor(items, i) else Successor(items, k)
    requires forall k {:trigger items[k].prev} | 0 <= k < |items| && k != i ::
               items[k].prev == if k == i + 1 || (k == 0 && i == |items| - 1) then Predecessor(items, i)
                                else Predecessor(items, k)
    ensures Listed(parent, Removed(items, i))
  {
  }

  /** cJSON_DetachItemViaPointer */
  method DetachItemViaPointer(parent: Node?, item: Node?, ghost items: seq<Node>) returns (r: Node?)
    requires parent != null ==> Listed(parent, items)
    requires item != null && parent != null ==> item in items || item.prev == null
    modifies if parent == null then {} else {parent}, items
    ensures r == if parent != null && item != null && item in items then item else null
    ensures r == null && parent != null ==> Listed(parent, items)
    ensures r != null ==> r.next == null && r.prev == null
    ensures r != null ==> exists i | 0 <= i < |items| :: items[i] == item && Listed(parent, Removed(items, i))
  {
    if parent == null || item == null || (item != parent.child && item.prev == null) {
      if parent != null && item != null && item in items {
        ghost var _ := PlaceOf(parent, item, items);
      }
      return null;
    }
    ghost var i := PlaceOf(parent, item, items);
    if item != parent.child {
      item.prev.next := item.next;
    }
    if item.next != null {
      item.next.prev := item.prev;
    }
    if item == parent.child {
      parent.child := item.next;
    } else if item.next == null {
      parent.child.prev := item.prev;
    }
    item.prev := null;
    item.next := null;
    RemovedIsListed(parent, items, i);
    return item;
  }

  lemma ReplacedIsListed(parent: Node, item: Node, items: seq<Node>, i: nat)
    requires i < |items| && item !in items && parent !in items && item != parent
    requires forall j, k | 0 <= j < k < |items| :: items[j] != items[k]
    requires parent.child == if i == 0 then item else items[0]
    requires item.next == Successor(items, i)
    requires item.prev == if |items| == 1 then item else Predecessor(items, i)
    requires forall k {:trigger items[k].next} | 0 <= k < |items| && k != i ::
               items[k].next == if k + 1 == i then item else Successor(items, k)
    requires forall k {:trigger items[k].prev} | 0 <= k < |items| && k != i ::
               items[k].prev == if k == i + 1 || (k == 0 && i == |items| - 1) then item else Predecessor(items, k)
    ensures Listed(parent, items[i := item])
  {
  }

  /** cJSON_ReplaceItemViaPointer */
  method ReplaceItemViaPointer(parent: Node?, item: Node?, replacement: Node?, ghost items: seq<Node>) returns (ok: bool)
    requires parent != null ==> Listed(parent, items) && replacement != parent
    requires item != null && parent != null && items != [] ==> item in items
    requires replacement != null && replacement != item ==> replacement !in items
    modifies if parent == null then {} else {parent}, if replacement == null then {} else {replacement}, items
    ensures ok <==> parent != null && items != [] && item != null && replacement != null
    ensures parent != null && (!ok || replacement == item) ==> Listed(parent, items)
    ensures ok && replacement != item ==>
              && item.next == null && item.prev == null
              && exists i | 0 <= i < |items| :: items[i] == item && Listed(parent, items[i := replacement])
  {
    if parent == null || parent.child == null || replacement == null || item == null {
      return false;
    }
    if replacement == item {
      return true;
    }
    ghost var i := PlaceOf(parent, item, items);
    replacement.next := item.next;
    replacement.prev := item.prev;
    if replacement.next != null {
      replacement.next.prev := replacement;
    }
    if parent.child == item {
      if parent.child.prev == parent.child {
        replacement.prev := replacement;
      }
      parent.child := replacement;
    } else {
      if replacement.prev != null {
        replacement.prev.next := replacement;
      }
      if replacement.next == null {
        parent.child.prev := replacement;
      }
    }
    item.next := null;
    item.prev := null;
    ReplacedIsListed(parent, replacement, items, i);
    return true;
  }

  /** How parse_array and parse_object link the children they make, one by one,
      and tie the head to the tail at the end. */
  method LinkChildren(parent: Node, items: seq<Node>)
    requires parent !in items && forall i, j | 0 <= i < j < |items| :: items[i] != items[j]
    requires forall x | x in items :: x.next == null && x.prev == null
    modifies parent`child, items
    ensures Listed(parent, items)
  {
    var head: Node?, current: Node? := null, null;
    for n := 0 to |items|
      invariant head == (if n == 0 then null else items[0]) && current == (if n == 0 then null else items[n - 1])
      invariant forall i {:trigger items[i].next} | 0 <= i < |items| :: items[i].next == if i + 1 < n then items[i + 1] else null
      invariant forall i {:trigger items[i].prev} | 0 <= i < |items| :: items[i].prev == if 0 < i < n then items[i - 1] else null
    {
      var item := items[n];
      if head == null {
        head := item;
        current := item;
      } else {
        current.next := item;
        item.prev := current;
        current := item;
      }
    }
    if head != null {
      head.prev := current;
    }
    parent.child := head;
  }
}
