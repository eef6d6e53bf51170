/** The buyer's shopping cart: a hand-rolled, 1-based, singly linked list
    with a `Head` link and a separately maintained `Size` counter
    (application/buyer/buyer_linkedlist.go).

    The abstract view is the ghost sequence `items` of the node chain.
    `size` is NOT always |items|: Remove decrements it even when it removes
    nothing, so the object invariant only keeps `size <= |items|`. */
module CartList {
  import opened Items

  datatype CartError =
    | EmptyList        // "Empty Linked list!"
    | InvalidIndex     // "Invalid Index"
    | ItemNotFound     // "Item not found in list"

  datatype Result<T> = Ok(value: T) | Err(error: CartError)

  /** `n` copies of `x`. */
  function Repeat(x: ItemsDetails, n: nat): (r: seq<ItemsDetails>)
    ensures |r| == n && forall i | 0 <= i < n :: r[i] == x
  {
    if n == 0 then [] else Repeat(x, n - 1) + [x]
  }

  /** The number of loop rounds `for i := 1; i <= size; i++` makes. */
  function Rounds(size: int): nat {
    if size < 0 then 0 else size
  }

  /** What SearchItemName and SearchSellerName return. Their loop runs
      `size` rounds but only moves the cursor on a miss: once the cursor sits
      on the first match at 0-based position p, every remaining round appends
      that same line again. Lines past position `size` are never looked at. */
  function StuckScan(s: seq<ItemsDetails>, size: int, q: Query): (r: seq<ItemsDetails>)
    requires size <= |s|
    ensures |r| <= Rounds(size) && forall i | 0 <= i < |r| :: Matches(q, r[i])
  {
    var p := FirstMatch(s, q);
    if p < Rounds(size) then Repeat(s[p], Rounds(size) - p) else []
  }

  /** Every line StuckScan returns is the first match, repeated: it never
      lists a second distinct line, and it lists nothing when no line among
      the first `size` matches. */
  lemma StuckScanShape(s: seq<ItemsDetails>, size: int, q: Query)
    requires size <= |s|
    ensures var r := StuckScan(s, size, q);
      && (forall i | 0 <= i < |r| :: r[i] == s[FirstMatch(s, q)] && Matches(q, r[i]))
      && (r == [] <==> forall j | 0 <= j < Rounds(size) :: !Matches(q, s[j]))
      && (r != [] ==> |r| == Rounds(size) - FirstMatch(s, q))
  {
  }

  /** Each node's `next` is the following node and the last one's is null. */
  ghost predicate Linked(ns: seq<CartNode>)
    reads set n | n in ns
  {
    && (forall i {:trigger ns[i].next} | 0 <= i < |ns| - 1 :: ns[i].next == ns[i + 1])
    && (ns != [] ==> ns[|ns| - 1].next == null)
  }

  /** A null-terminated chain has no cycle, so no node occurs in it twice. */
  lemma {:induction false} LinkedNodesDiffer(ns: seq<CartNode>, i: nat, j: nat)
    requires Linked(ns) && i < j < |ns|
    ensures ns[i] != ns[j]
    decreases |ns| - j
  {
    assert ns[i].next == ns[i + 1];
    if j < |ns| - 1 {
      assert ns[j].next == ns[j + 1];
      LinkedNodesDiffer(ns, i + 1, j + 1);
    }
  }

  /** All other nodes of a chain differ from its k-th. */
  lemma OthersDiffer(ns: seq<CartNode>, k: nat)
    requires Linked(ns) && k < |ns|
    ensures forall i | 0 <= i < |ns| && i != k :: ns[i] != ns[k]
  {
    forall i | 0 <= i < |ns| && i != k
      ensures ns[i] != ns[k]
    {
      if i < k { LinkedNodesDiffer(ns, i, k); } else { LinkedNodesDiffer(ns, k, i); }
    }
  }

  /** Linking `node` in at position m keeps the chain null-terminated: it is
      enough that the predecessor now points at `node`, `node` at the old m-th
      node, and every other link is as it was. */
  lemma SpliceIn(ns: seq<CartNode>, m: nat, node: CartNode, ms: seq<CartNode>)
    requires m <= |ns| && ms == ns[..m] + [node] + ns[m..]
    requires forall i {:trigger ns[i].next} | 0 <= i < |ns| - 1 && i + 1 != m :: ns[i].next == ns[i + 1]
    requires ns != [] && m < |ns| ==> ns[|ns| - 1].next == null
    requires 0 < m ==> ns[m - 1].next == node
    requires node.next == if m < |ns| then ns[m] else null
    ensures forall i {:trigger ms[i].next} | 0 <= i < |ms| - 1 :: ms[i].next == ms[i + 1]
    ensures ms[|ms| - 1].next == null
  {
    forall i | 0 <= i < |ms| - 1
      ensures ms[i].next == ms[i + 1]
    {
      if i + 1 < m {
        assert ms[i] == ns[i] && ms[i + 1] == ns[i + 1];
      } else if i > m {
        assert ms[i] == ns[i - 1] && ms[i + 1] == ns[i];
      } else if i == m {
        assert ms[i + 1] == ns[m];
      }
    }
    if m < |ns| {
      assert ms[|ms| - 1] == ns[|ns| - 1];
    }
  }

  /** Unlinking the node at position m keeps the chain null-terminated: the
      predecessor now points past it and every other link is as it was. */
  lemma SpliceOut(ns: seq<CartNode>, m: nat, ms: seq<CartNode>)
    requires m < |ns| && ms == ns[..m] + ns[m + 1..]
    requires forall i {:trigger ns[i].next} | 0 <= i < |ns| - 1 && i + 1 != m :: ns[i].next == ns[i + 1]
    requires ns[|ns| - 1].next == null
    requires 0 < m ==> ns[m - 1].next == if m + 1 < |ns| then ns[m + 1] else null
    ensures forall i {:trigger ms[i].next} | 0 <= i < |ms| - 1 :: ms[i].next == ms[i + 1]
    ensures ms != [] ==> ms[|ms| - 1].next == null
  {
    forall i | 0 <= i < |ms| - 1
      ensures ms[i].next == ms[i + 1]
    {
      if i + 1 < m {
        assert ms[i] == ns[i] && ms[i + 1] == ns[i + 1];
      } else if i + 1 == m {
        assert ms[i] == ns[i] && ms[i + 1] == ns[m + 1];
      } else {
        assert ms[i] == ns[i + 1] && ms[i + 1] == ns[i + 2];
      }
    }
    if ms != [] {
      if m + 1 < |ns| {
        assert ms[|ms| - 1] == ns[|ns| - 1];
      } else {
        assert ms[|ms| - 1] == ns[m - 1];
      }
    }
  }

  class CartNode {
    var item: ItemsDetails
    var next: CartNode?

    constructor (item: ItemsDetails, next: CartNode?)
      ensures this.item == item && this.next == next
    {
      this.item := item;
      this.next := next;
    }
  }

  class CartLinkedList {
    var head: CartNode?
    var size: int
    ghost var nodes: seq<CartNode>
    ghost var items: seq<ItemsDetails>
    ghost var Repr: set<object>

    /** The chain from `head` is exactly `nodes`, ending in null; `items` are the nodes' items; `size` never exceeds the chain. */
    ghost predicate Valid()
      reads this, Repr
    {
      && this in Repr
      && (forall i | 0 <= i < |nodes| :: nodes[i] in Repr)
      && head == (if nodes == [] then null else nodes[0])
      && (forall i {:trigger nodes[i].next} | 0 <= i < |nodes| - 1 :: nodes[i].next == nodes[i + 1])
      && (nodes != [] ==> nodes[|nodes| - 1].next == null)
      && |items| == |nodes|
      && (forall i | 0 <= i < |nodes| :: items[i] == nodes[i].item)
      && size <= |items|
    }

    /** The invariant the author evidently meant: the counter counts the nodes. */
    ghost predicate Synced()
      reads this
    {
      size == |items|
    }

    /** `CartLinkedList{Head: nil, Size: 0}` */
    constructor ()
      ensures Valid() && fresh(Repr)
      ensures items == [] && size == 0 && head == null && Synced()
    {
      head := null;
      size := 0;
      nodes := [];
      items := [];
      Repr := {this};
    }

    /** The cursor walk `for i := 1; i <= k-1; i++ { cur = cur.Next }` that
        Get, AddAtPos, Remove and WriteAtIndex each perform: it ends on the
        k-th node (1-based), or on null one past the tail. */
    method Walk(k: int) returns (cur: CartNode?)
      requires Valid() && 1 <= k <= |nodes| + 1
      ensures cur == if k - 1 < |nodes| then nodes[k - 1] else null
    {
      cur := head;
      for i := 1 to k
        invariant cur == if i - 1 < |nodes| then nodes[i - 1] else null
      {
        cur := cur.next;
      }
    }

    /** Get: the index-th line (1-based) of the first `size` lines. */
    method Get(index: int) returns (r: Result<ItemsDetails>)
      requires Valid()
      ensures items == [] ==> r == Err(EmptyList)
      ensures items != [] && 0 < index <= size ==> r == Ok(items[index - 1])
      ensures items != [] && !(0 < index <= size) ==> r == Err(InvalidIndex)
    {
      if head == null {
        return Err(EmptyList);
      }
      if 0 < index <= size {
        var cur := head;
        for i := 1 to index
          invariant cur == nodes[i - 1]
        {
          cur := cur.next;
        }
        return Ok(cur.item);
      }
      return Err(InvalidIndex);
    }

    /** AddNode: append at the tail; it never fails. */
    method AddNode(x: ItemsDetails)
      requires Valid()
      modifies Repr
      ensures Valid() && fresh(Repr - old(Repr))
      ensures items == old(items) + [x]
      ensures size == old(size) + 1
    {
      var node := new CartNode(x, null);
      if head == null {
        head := node;
      } else {
        var cur := head;
        ghost var k := 0;
        while cur.next != null
          invariant Valid()
          invariant 0 <= k < |nodes| && cur == nodes[k]
          decreases |nodes| - k
        {
          cur := cur.next;
          k := k + 1;
        }
        cur.next := node;
      }
      nodes := nodes + [node];
      items := items + [x];
      Repr := Repr + {node};
      size := size + 1;
    }

    /** AddAtPos: insert so that `x` becomes the index-th line. */
    method AddAtPos(index: int, x: ItemsDetails) returns (r: Result<()>)
      requires Valid()
      modifies Repr
      ensures Valid() && fresh(Repr - old(Repr))
      ensures 0 < index <= old(size) + 1 ==>
        && r == Ok(())
        && items == old(items)[..index - 1] + [x] + old(items)[index - 1..]
        && size == old(size) + 1
      ensures !(0 < index <= old(size) + 1) ==>
        r == Err(InvalidIndex) && items == old(items) && size == old(size) && Repr == old(Repr)
    {
      if !(0 < index <= size + 1) {
        return Err(InvalidIndex);
      }
      if index == 1 {
        PushFront(x);
        assert old(items)[..0] + [x] + old(items)[0..] == items;
      } else {
        InsertAfter(index - 1, x);
      }
      r := Ok(());
    }

    /** The `index == 1` branch of AddAtPos: the new node becomes the head. */
    method PushFront(x: ItemsDetails)
      requires Valid()
      modifies Repr
      ensures Valid() && fresh(Repr - old(Repr))
      ensures items == [x] + old(items) && size == old(size) + 1
    {
      var node := new CartNode(x, head);
      ghost var ns := nodes;
      head := node;
      nodes := [node] + ns;
      items := [x] + items;
      Repr := Repr + {node};
      size := size + 1;
      SpliceIn(ns, 0, node, nodes);
      forall i | 0 <= i < |nodes|
        ensures nodes[i] in Repr && items[i] == nodes[i].item
      {
        if i > 0 {
          assert nodes[i] == ns[i - 1];
        }
      }
    }

    /** The other branch of AddAtPos: walk to the k-th node and link the new
        node in behind it. */
    method InsertAfter(k: int, x: ItemsDetails)
      requires Valid() && 1 <= k <= size
      modifies Repr
      ensures Valid() && fresh(Repr - old(Repr))
      ensures items == old(items)[..k] + [x] + old(items)[k..] && size == old(size) + 1
    {
      var prev := Walk(k);
      var node := new CartNode(x, prev.next);
      ghost var ns := nodes;
      OthersDiffer(ns, k - 1);
      prev.next := node;
      nodes := ns[..k] + [node] + ns[k..];
      items := items[..k] + [x] + items[k..];
      Repr := Repr + {node};
      size := size + 1;
      SpliceIn(ns, k, node, nodes);
      forall i | 0 <= i < |nodes|
        ensures nodes[i] in Repr && items[i] == nodes[i].item
      {
        if i > k {
          assert nodes[i] == ns[i - 1];
        }
      }
    }

    /** Remove: unlink the index-th line and return it. Out of range on a
        non-empty list it returns the empty item without an error, and still
        decrements `size`. */
    method Remove(index: int) returns (r: Result<ItemsDetails>)
      requires Valid()
      modifies Repr
      ensures Valid() && Repr == old(Repr)
      ensures old(items) == [] ==> r == Err(EmptyList) && items == old(items) && size == old(size)
      ensures old(items) != [] && 0 < index <= old(size) ==>
        && r == Ok(old(items)[index - 1])
        && items == old(items)[..index - 1] + old(items)[index..]
        && size == old(size) - 1
      ensures old(items) != [] && !(0 < index <= old(size)) ==>
        r == Ok(EmptyItem) && items == old(items) && size == old(size) - 1
      // The counter no longer counts the nodes after an out-of-range removal.
      ensures old(Synced()) && old(items) != [] && !(0 < index <= old(size)) ==> !Synced()
    {
      if head == null {
        return Err(EmptyList);
      }
      var item := EmptyItem;
      if 0 < index <= size {
        if index == 1 {
          item := PopFront();
          assert old(items)[..0] + old(items)[1..] == items;
        } else {
          item := UnlinkAfter(index - 1);
        }
      } else {
        size := size - 1;
      }
      r := Ok(item);
    }

    /** The `index == 1` branch of Remove: the head moves to the second node. */
    method PopFront() returns (item: ItemsDetails)
      requires Valid() && 1 <= size
      modifies Repr
      ensures Valid() && Repr == old(Repr)
      ensures item == old(items)[0] && items == old(items)[1..] && size == old(size) - 1
    {
      ghost var ns := nodes;
      item := head.item;
      head := head.next;
      nodes := ns[1..];
      items := items[1..];
      size := size - 1;
      SpliceOut(ns, 0, nodes);
    }

    /** The other branch of Remove: walk to the k-th node and bypass its
        successor. */
    method UnlinkAfter(k: int) returns (item: ItemsDetails)
      requires Valid() && 1 <= k < size
      modifies Repr
      ensures Valid() && Repr == old(Repr)
      ensures item == old(items)[k] && items == old(items)[..k] + old(items)[k + 1..]
      ensures size == old(size) - 1
    {
      var prev := Walk(k);
      var cur := prev.next;
      ghost var ns := nodes;
      OthersDiffer(ns, k - 1);
      item := cur.item;
      nodes := ns[..k] + ns[k + 1..];
      items := items[..k] + items[k + 1..];
      size := size - 1;
      forall i | 0 <= i < |nodes|
        ensures nodes[i] in Repr && items[i] == nodes[i].item
      {
        if i >= k {
          assert nodes[i] == ns[i + 1];
        }
      }
      prev.next := cur.next;
      SpliceOut(ns, k, nodes);
    }

    /** GetAllItems: every line from head to tail (the whole chain, whatever
        `size` says), with the listing's header message. */
    method GetAllItems() returns (msg: seq<string>, all: seq<ItemsDetails>)
      requires Valid()
      ensures all == items
      ensures items == [] ==> msg == ["No users found."]
      ensures items != [] ==> msg == ["\nListing all Items in your shopping cart:"]
    {
      var cur := head;
      if cur == null {
        return ["No users found."], [];
      }
      msg := ["\nListing all Items in your shopping cart:"];
      all := [cur.item];
      ghost var k := 0;
      while cur.next != null
        invariant Valid()
        invariant 0 <= k < |nodes| && cur == nodes[k]
        invariant all == items[..k + 1]
        decreases |nodes| - k
      {
        cur := cur.next;
        k := k + 1;
        all := all + [cur.item];
      }
      assert k == |nodes| - 1;
      assert items[..k + 1] == items;
    }

    /** The scan shared by SearchItemName and SearchSellerName. */
    method StuckSearch(q: Query) returns (found: seq<ItemsDetails>, err: Option<CartError>)
      requires Valid()
      ensures items == [] ==> found == [] && err == Some(EmptyList)
      ensures items != [] ==> found == StuckScan(items, size, q) && err == None
    {
      if head == null {
        return [], Some(EmptyList);
      }
      found := [];
      var cur := head;
      ghost var p := 0;
      var i := 1;
      ghost var m := FirstMatch(items, q);
      while i <= size
        invariant 1 <= i <= Rounds(size) + 1
        invariant p == if m < i - 1 then m else i - 1
        invariant cur == if p < |nodes| then nodes[p] else null
        invariant found == if m < i - 1 then Repeat(items[m], i - 1 - m) else []
      {
        if !Matches(q, cur.item) {
          cur := cur.next;
          p := p + 1;
        } else {
          found := found + [cur.item];
        }
        i := i + 1;
      }
      // The source tests the result against nil here; a slice initialised
      // as `[]T{}` is never nil, so the error is always nil.
      err := None;
    }

    /** SearchItemName */
    method SearchItemName(name: string) returns (found: seq<ItemsDetails>, err: Option<CartError>)
      requires Valid()
      ensures items == [] ==> found == [] && err == Some(EmptyList)
      ensures items != [] ==> found == StuckScan(items, size, ItemNamed(name)) && err == None
    {
      found, err := StuckSearch(ItemNamed(name));
    }

    /** SearchSellerName */
    method SearchSellerName(seller: string) returns (found: seq<ItemsDetails>, err: Option<CartError>)
      requires Valid()
      ensures items == [] ==> found == [] && err == Some(EmptyList)
      ensures items != [] ==> found == StuckScan(items, size, SoldBy(seller)) && err == None
    {
      found, err := StuckSearch(SoldBy(seller));
    }

    /** SearchItemandSellerName: the first of the first `size` lines with
        this (item, seller) key and its 1-based position, else -1. */
    method SearchItemAndSellerName(name: string, seller: string) returns (item: ItemsDetails, index: int, err: Option<CartError>)
      requires Valid()
      ensures items == [] ==> item == EmptyItem && index == -1 && err == Some(EmptyList)
      ensures items != [] ==>
        var p := FirstMatch(items, ItemOfSeller(name, seller));
        if p < Rounds(size) then item == items[p] && index == p + 1 && err == None
        else item == EmptyItem && index == -1 && err == Some(ItemNotFound)
    {
      if head == null {
        return EmptyItem, -1, Some(EmptyList);
      }
      index := 1;
      var cur := head;
      var i := 1;
      while i <= size
        invariant 1 <= i <= Rounds(size) + 1 && index == i
        invariant cur == if i - 1 < |nodes| then nodes[i - 1] else null
        invariant forall j | 0 <= j < i - 1 :: !Matches(ItemOfSeller(name, seller), items[j])
      {
        if cur.item.item != name || cur.item.username != seller {
          cur := cur.next;
          index := index + 1;
        } else {
          return cur.item, index, None;
        }
        i := i + 1;
      }
      return EmptyItem, -1, Some(ItemNotFound);
    }

    /** WriteAtIndex: overwrite the index-th line in place. */
    method WriteAtIndex(index: int, x: ItemsDetails) returns (r: Result<()>)
      requires Valid()
      modifies Repr
      ensures Valid() && Repr == old(Repr) && size == old(size)
      ensures old(items) == [] ==> r == Err(EmptyList) && items == old(items)
      ensures old(items) != [] && 0 < index <= size ==> r == Ok(()) && items == old(items)[index - 1 := x]
      ensures old(items) != [] && !(0 < index <= size) ==> r == Err(InvalidIndex) && items == old(items)
    {
      if head == null {
        return Err(EmptyList);
      }
      if 0 < index <= size {
        var cur := head;
        for i := 1 to index
          invariant cur == nodes[i - 1]
        {
          cur := cur.next;
        }
        OthersDiffer(nodes, index - 1);
        cur.item := x;
        items := items[index - 1 := x];
        return Ok(());
      }
      return Err(InvalidIndex);
    }

    /** WriteItemData: WriteAtIndex with its arguments the other way round. */
    method WriteItemData(x: ItemsDetails, index: int) returns (r: Result<()>)
      requires Valid()
      modifies Repr
      ensures Valid() && Repr == old(Repr) && size == old(size)
      ensures old(items) == [] ==> r == Err(EmptyList) && items == old(items)
      ensures old(items) != [] && 0 < index <= size ==> r == Ok(()) && items == old(items)[index - 1 := x]
      ensures old(items) != [] && !(0 < index <= size) ==> r == Err(InvalidIndex) && items == old(items)
    {
      r := WriteAtIndex(index, x);
    }
  }
}
