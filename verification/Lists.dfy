/** The value-level specification of sorted insertion shared by list.c and the
    modules that keep kernel lists as sequences. */
module ListOrder {
  // portMAX_DELAY for 32-bit ticks: the value of every list's end marker.
  const MAX_DELAY: nat := 0xffff_ffff

  ghost predicate Sorted(vals: seq<nat>) {
    forall i, j :: 0 <= i < j < |vals| ==> vals[i] <= vals[j]
  }

  /** The length of the longest prefix whose values are all at most v: where
      vListInsert puts a new item of value v. */
  function InsertionPoint(vals: seq<nat>, v: nat): (p: nat)
    ensures p <= |vals|
    ensures forall i :: 0 <= i < p ==> vals[i] <= v
    ensures p < |vals| ==> vals[p] > v
  {
    if vals == [] || vals[0] > v then 0 else 1 + InsertionPoint(vals[1..], v)
  }

  function Inserted<T>(s: seq<T>, k: nat, x: T): (r: seq<T>)
    requires k <= |s|
    ensures |r| == |s| + 1
    ensures forall i :: 0 <= i < |r| ==> r[i] == if i < k then s[i] else if i == k then x else s[i - 1]
  {
    seq(|s| + 1, i requires 0 <= i <= |s| => if i < k then s[i] else if i == k then x else s[i - 1])
  }

  function Removed<T>(s: seq<T>, k: nat): (r: seq<T>)
    requires k < |s|
    ensures |r| == |s| - 1
    ensures forall i :: 0 <= i < |r| ==> r[i] == if i < k then s[i] else s[i + 1]
  {
    seq(|s| - 1, i requires 0 <= i < |s| - 1 => if i < k then s[i] else s[i + 1])
  }

  /** Inserting at the insertion point keeps a list sorted, and puts the new
      value after every equal one and before every greater one. */
  lemma InsertKeepsSorted(vals: seq<nat>, v: nat)
    requires Sorted(vals)
    ensures var p := InsertionPoint(vals, v);
            && Sorted(Inserted(vals, p, v))
            && (forall i :: 0 <= i < |vals| ==> (vals[i] <= v <==> i < p))
  {
    var p := InsertionPoint(vals, v);
    forall i | p <= i < |vals|
      ensures vals[i] > v
    {
      assert vals[p] <= vals[i];
    }
  }
}

/** list.c: the heap-allocated circular doubly linked list with a sentinel. */
module Lists {
  import opened ListOrder

  class ListItem {
    var itemValue: nat
    var next: ListItem?
    var prev: ListItem?
    var container: List?

    /** vListInitialiseItem, plus the value a caller sets before inserting. */
    constructor (value: nat)
      requires value <= MAX_DELAY
      ensures itemValue == value && container == null
    {
      itemValue := value;
      next, prev, container := null, null, null;
    }
  }

  function After(i: nat, n: nat): nat
    requires i < n
  {
    if i + 1 < n then i + 1 else 0
  }

  function Before(i: nat, n: nat): nat
    requires i < n
  {
    if i == 0 then n - 1 else i - 1
  }

  /** `at` gives every node's position, so no node occurs twice. */
  ghost predicate Indexed(s: seq<ListItem>, at: map<ListItem, nat>) {
    forall i {:trigger s[i]} :: 0 <= i < |s| ==> s[i] in at && at[s[i]] == i
  }

  ghost function Shifted(at: map<ListItem, nat>, k: nat, x: ListItem): map<ListItem, nat> {
    map y | y in at.Keys + {x} :: if y == x then k else if at[y] < k then at[y] else at[y] + 1
  }

  ghost function Unshifted(at: map<ListItem, nat>, k: nat): map<ListItem, nat> {
    map y | y in at.Keys :: if at[y] <= k then at[y] else at[y] - 1
  }

  /** Every node links to its neighbour in s, and the last one to the first,
      in both directions, except that the link leaving position `skip` is not
      constrained (|s| for none). */
  ghost predicate CircularBut(s: seq<ListItem>, skip: nat)
    reads s`next, s`prev
  {
    && (forall i {:trigger s[i].next} :: 0 <= i < |s| && i != skip ==> s[i].next == s[After(i, |s|)])
    && (forall i {:trigger s[i].prev} :: 0 <= i < |s| && Before(i, |s|) != skip ==> s[i].prev == s[Before(i, |s|)])
  }

  ghost function ValuesOf(s: seq<ListItem>): (vals: seq<nat>)
    reads s
    ensures |vals| == |s|
    ensures forall i :: 0 <= i < |s| ==> vals[i] == s[i].itemValue
  {
    seq(|s|, i requires 0 <= i < |s| reads s => s[i].itemValue)
  }

  /** A node list whose values are sorted stays so when an item enters it where
      vListInsert puts it: after the end marker and the InsertionPoint. */
  lemma InsertedSorted(s: seq<ListItem>, x: ListItem)
    requires s != [] && Sorted(ValuesOf(s)[1..])
    ensures Sorted(ValuesOf(Inserted(s, InsertionPoint(ValuesOf(s)[1..], x.itemValue) + 1, x))[1..])
  {
    var vals, p := ValuesOf(s)[1..], InsertionPoint(ValuesOf(s)[1..], x.itemValue);
    InsertKeepsSorted(vals, x.itemValue);
    assert ValuesOf(Inserted(s, p + 1, x))[1..] == Inserted(vals, p, x.itemValue);
  }

  lemma NextsSplicedIn(s: seq<ListItem>, k: nat, x: ListItem)
    requires k < |s| && CircularBut(s, k)
    requires s[k].next == x && x.next == s[After(k, |s|)]
    ensures var r := Inserted(s, k + 1, x);
            forall i {:trigger r[i].next} :: 0 <= i < |r| ==> r[i].next == r[After(i, |r|)]
  {
  }

  lemma PrevsSplicedIn(s: seq<ListItem>, k: nat, x: ListItem)
    requires k < |s| && CircularBut(s, k)
    requires x.prev == s[k] && s[After(k, |s|)].prev == x
    ensures var r := Inserted(s, k + 1, x);
            forall i {:trigger r[i].prev} :: 0 <= i < |r| ==> r[i].prev == r[Before(i, |r|)]
  {
  }

  /** Breaking the link that leaves s[k] and routing it through a new node
      gives a circle of one node more. */
  lemma SpliceIn(s: seq<ListItem>, k: nat, x: ListItem)
    requires k < |s| && CircularBut(s, k)
    requires s[k].next == x && x.prev == s[k]
    requires x.next == s[After(k, |s|)] && s[After(k, |s|)].prev == x
    ensures CircularBut(Inserted(s, k + 1, x), |s| + 1)
  {
    NextsSplicedIn(s, k, x);
    PrevsSplicedIn(s, k, x);
  }

  lemma NextsSplicedOut(s: seq<ListItem>, k: nat)
    requires 0 < k < |s|
    requires forall i {:trigger s[i].next} :: 0 <= i < |s| && i != k && i != k - 1 ==> s[i].next == s[After(i, |s|)]
    requires s[k - 1].next == s[After(k, |s|)]
    ensures var r := Removed(s, k);
            forall i {:trigger r[i].next} :: 0 <= i < |r| ==> r[i].next == r[After(i, |r|)]
  {
  }

  lemma PrevsSplicedOut(s: seq<ListItem>, k: nat)
    requires 0 < k < |s|
    requires forall i {:trigger s[i].prev} ::
               0 <= i < |s| && i != k && i != After(k, |s|) ==> s[i].prev == s[Before(i, |s|)]
    requires s[After(k, |s|)].prev == s[k - 1]
    ensures var r := Removed(s, k);
            forall i {:trigger r[i].prev} :: 0 <= i < |r| ==> r[i].prev == r[Before(i, |r|)]
  {
  }

  /** Routing the link around a node gives a circle of one node less. */
  lemma SpliceOut(s: seq<ListItem>, k: nat)
    requires 0 < k < |s|
    requires forall i {:trigger s[i].next} :: 0 <= i < |s| && i != k && i != k - 1 ==> s[i].next == s[After(i, |s|)]
    requires forall i {:trigger s[i].prev} ::
               0 <= i < |s| && i != k && i != After(k, |s|) ==> s[i].prev == s[Before(i, |s|)]
    requires s[k - 1].next == s[After(k, |s|)] && s[After(k, |s|)].prev == s[k - 1]
    ensures CircularBut(Removed(s, k), |s| - 1)
  {
    NextsSplicedOut(s, k);
    PrevsSplicedOut(s, k);
  }

  lemma IndexedInserted(s: seq<ListItem>, at: map<ListItem, nat>, k: nat, x: ListItem)
    requires Indexed(s, at) && k <= |s| && x !in s
    ensures Indexed(Inserted(s, k, x), Shifted(at, k, x))
  {
  }

  lemma IndexedRemoved(s: seq<ListItem>, at: map<ListItem, nat>, k: nat)
    requires Indexed(s, at) && k < |s|
    ensures Indexed(Removed(s, k), Unshifted(at, k))
  {
  }

  /** The pointer writes shared by both insertion functions. */
  method Splice(x: ListItem, node: ListItem, ghost s: seq<ListItem>, ghost at: map<ListItem, nat>, ghost k: nat)
    requires k < |s| && node == s[k] && x !in s
    requires Indexed(s, at) && CircularBut(s, |s|)
    modifies s`next, s`prev, x`next, x`prev
    ensures CircularBut(Inserted(s, k + 1, x), |s| + 1)
  {
    x.next := node.next;
    x.next.prev := x;
    x.prev := node;
    node.next := x;
    SpliceIn(s, k, x);
  }

  /** The pointer writes of uxListRemove. */
  method Unsplice(x: ListItem, ghost s: seq<ListItem>, ghost at: map<ListItem, nat>, ghost k: nat)
    requires 0 < k < |s| && x == s[k]
    requires Indexed(s, at) && CircularBut(s, |s|)
    modifies s`next, s`prev
    ensures CircularBut(Removed(s, k), |s| - 1) && x.prev == s[k - 1]
  {
    x.next.prev := x.prev;
    x.prev.next := x.next;
    SpliceOut(s, k);
  }

  class List {
    var numberOfItems: nat
    var index: ListItem
    const listEnd: ListItem
    ghost var nodes: seq<ListItem>  // the end marker followed by the items in list order
    ghost var at: map<ListItem, nat>  // every node's position in nodes

    /** The item values in list order, without the end marker's. */
    ghost function Values(): seq<nat>
      reads this, nodes
      requires nodes != []
    {
      ValuesOf(nodes)[1..]
    }

    /** Every node but the end marker records this list as its container. */
    ghost predicate Owned(s: seq<ListItem>)
      reads s`container, s`itemValue
    {
      forall i {:trigger s[i].container} {:trigger s[i].itemValue} :: 1 <= i < |s| ==>
        s[i].container == this && s[i].itemValue <= MAX_DELAY
    }

    /** Everything but the links. */
    ghost predicate Accounted()
      reads this, nodes`container, nodes`itemValue, listEnd`itemValue
    {
      && nodes != [] && nodes[0] == listEnd && Indexed(nodes, at)
      && listEnd.itemValue == MAX_DELAY
      && Owned(nodes)
      && numberOfItems == |nodes| - 1
      && index in at && at[index] < |nodes| && nodes[at[index]] == index
    }

    ghost predicate Valid()
      reads this, nodes, listEnd
    {
      && CircularBut(nodes, |nodes|)
      && Accounted()
    }

    /** vListInitialise. */
    constructor ()
      ensures Valid() && nodes == [listEnd] && index == listEnd && fresh(listEnd)
    {
      var end := new ListItem(MAX_DELAY);
      index, listEnd := end, end;
      numberOfItems := 0;
      nodes, at := [end], map[end := 0];
      new;
      listEnd.next, listEnd.prev := listEnd, listEnd;
    }

    /** Remember which list the item is in, and count it. */
    method Adopt(x: ListItem, ghost k: nat)
      requires Accounted() && k < |nodes| && x !in nodes && x.itemValue <= MAX_DELAY
      modifies this, x`container
      ensures Accounted() && index == old(index)
      ensures nodes == Inserted(old(nodes), k + 1, x)
    {
      x.container := this;
      numberOfItems := numberOfItems + 1;
      IndexedInserted(nodes, at, k + 1, x);
      nodes, at := Inserted(nodes, k + 1, x), Shifted(at, k + 1, x);
    }

    /** Move the index off an item that is about to leave. */
    method LeaveIndex(x: ListItem, ghost k: nat)
      requires Accounted() && 0 < k < |nodes| && nodes[k] == x && x.prev == nodes[k - 1]
      modifies this`index
      ensures Accounted()
      ensures index == if old(index) != x then old(index) else nodes[k - 1]
    {
      if index == x {
        index := x.prev;
      }
    }

    /** Move the index off the item, forget its list, and count it out. */
    method Disown(x: ListItem, ghost k: nat)
      requires Accounted() && 0 < k < |nodes| && nodes[k] == x && x.prev == nodes[k - 1]
      modifies this, x`container
      ensures Accounted() && x.container == null
      ensures nodes == Removed(old(nodes), k)
      ensures index == if old(index) != x then old(index) else old(nodes)[k - 1]
    {
      LeaveIndex(x, k);
      x.container := null;
      numberOfItems := numberOfItems - 1;
      IndexedRemoved(nodes, at, k);
      nodes, at := Removed(nodes, k), Unshifted(at, k);
    }

    /** Link x between the k-th node of the ring and its successor: the last
        lines of both insertion functions. */
    method LinkAfter(x: ListItem, node: ListItem, ghost k: nat)
      requires Valid() && k < |nodes| && node == nodes[k]
      requires x !in nodes && x.itemValue <= MAX_DELAY
      modifies this, nodes`next, nodes`prev, x`next, x`prev, x`container
      ensures Valid()
      ensures nodes == Inserted(old(nodes), k + 1, x)
      ensures index == old(index)
    {
      Splice(x, node, nodes, at, k);
      Adopt(x, k);
    }

    /** vListInsertEnd: the new item goes just before the index, so that it is
        the last one a walk from the index reaches. */
    method InsertEnd(x: ListItem) returns (ghost k: nat)
      requires Valid() && x !in nodes && x.itemValue <= MAX_DELAY
      modifies this, nodes`next, nodes`prev, x`next, x`prev, x`container
      ensures Valid() && index == old(index)
      ensures if index == listEnd then k == |old(nodes)|
              else 0 < k < |old(nodes)| && old(nodes)[k] == index
      ensures nodes == Inserted(old(nodes), k, x)
    {
      k := if index == listEnd then |nodes| else at[index];
      LinkAfter(x, index.prev, k - 1);
    }

    /** The position scan of vListInsert, with its portMAX_DELAY shortcut: both
        branches stop at the same node. */
    method Scan(value: nat) returns (node: ListItem, ghost k: nat)
      requires Valid() && value <= MAX_DELAY
      ensures node == nodes[InsertionPoint(Values(), value)]
      ensures k == InsertionPoint(Values(), value)
    {
      ghost var p := InsertionPoint(Values(), value);
      k := 0;
      if value == MAX_DELAY {
        k := |nodes| - 1;
        node := listEnd.prev;
      } else {
        node := listEnd;
        while node.next.itemValue <= value
          invariant k <= p && node == nodes[k]
          decreases p - k
        {
          node := node.next;
          k := k + 1;
        }
      }
      assert k < |Values()| ==> Values()[k] == nodes[k + 1].itemValue;
      assert p < |Values()| ==> Values()[p] == nodes[p + 1].itemValue;
    }

    /** vListInsert: sorted insertion. */
    method Insert(x: ListItem)
      requires Valid() && x !in nodes && x.itemValue <= MAX_DELAY
      modifies this, nodes`next, nodes`prev, x`next, x`prev, x`container
      ensures Valid() && index == old(index)
      ensures var p := InsertionPoint(old(Values()), x.itemValue);
              nodes == Inserted(old(nodes), p + 1, x)
    {
      var node, k := Scan(x.itemValue);
      LinkAfter(x, node, k);
    }

    /** uxListRemove. */
    method Remove(x: ListItem) returns (remaining: nat, ghost k: nat)
      requires Valid() && x in nodes && x != listEnd
      modifies this, nodes`next, nodes`prev, x`container
      ensures Valid() && x.container == null
      ensures 0 < k < |old(nodes)| && old(nodes)[k] == x
      ensures nodes == Removed(old(nodes), k)
      ensures index == if old(index) != x then old(index) else old(nodes)[k - 1]
      ensures remaining == |nodes| - 1
    {
      k := at[x];
      Unsplice(x, nodes, at, k);
      Disown(x, k);
      remaining := numberOfItems;
    }
  }
}
