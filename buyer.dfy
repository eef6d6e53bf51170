/** The buyer side of the marketplace (application/buyer/buyer.go): the
    process-wide shopping cart, merge-on-add, checkout against the inventory
    service, the stock preview that subtracts the cart from what sellers
    offer, and the parser for the item a form posts back.

    The inventory service (apiclient.UpdateItem, apiclient.DeleteItem) is a
    network call: it is an oracle `InventoryCall -> bool`, and the model
    records which call was issued. Fetching the inventory (apiclient.GetItem)
    is an `Option` parameter: None when the fetch failed. */
module Buyer {
  import opened Items
  import opened Text
  import opened CartList

  // ---------------------------------------------------------------------
  // Inventory calls and updateDB
  // ---------------------------------------------------------------------

  /** A request to the inventory service for one (item, seller) record. */
  datatype InventoryCall =
    | UpdateItem(item: string, seller: string, asBuyer: bool, details: ItemsDetails)
    | DeleteItem(item: string, seller: string, asBuyer: bool)

  /** What updateDB reports for one cart line, and the call it issued. */
  datatype LineResult = LineResult(ok: bool, call: Option<InventoryCall>)

  /** updateDB: find the first inventory record with the line's (item,
      seller) key; if it holds more than the line asks for, write back the
      difference, otherwise delete the record; report that call's result.
      Without such a record it reports failure and calls nothing. */
  function UpdateDB(isBuyer: bool, avail: seq<ItemsDetails>, line: ItemsDetails,
                    inventory: InventoryCall -> bool): (r: LineResult)
    ensures r.call.None? <==> forall j | 0 <= j < |avail| :: KeyOf(avail[j]) != KeyOf(line)
    ensures r.ok <==> r.call.Some? && inventory(r.call.value)
    ensures r.call.Some? ==> r.call.value.item == line.item && r.call.value.seller == line.username
    ensures r.call.Some? ==> r.call.value.asBuyer == isBuyer
    // The record used is the first one with the line's key (Lookup, see
    // Items.LookupFirst): stock beyond the line's quantity is written back
    // with the record's cost, otherwise the record is deleted.
    ensures Lookup(avail, KeyOf(line)).Some? ==>
      var x := Lookup(avail, KeyOf(line)).value;
      r.call == Some(if x.quantity > line.quantity
                     then UpdateItem(x.item, x.username, isBuyer, x.(quantity := x.quantity - line.quantity))
                     else DeleteItem(x.item, x.username, isBuyer))
  {
    var k := FirstMatch(avail, KeyQuery(line));
    if k == |avail| then LineResult(false, None)
    else
      var stock := avail[k];
      var call :=
        if stock.quantity > line.quantity then
          UpdateItem(stock.item, stock.username, isBuyer,
                     ItemsDetails(stock.item, stock.quantity - line.quantity, stock.cost, stock.username))
        else DeleteItem(stock.item, stock.username, isBuyer);
      LineResult(inventory(call), Some(call))
  }

  /** The record the inventory holds for a key after a call to it (or none). */
  function AfterCall(call: Option<InventoryCall>, before: Option<ItemsDetails>): Option<ItemsDetails> {
    match call
    case None => before
    case Some(UpdateItem(_, _, _, d)) => Some(d)
    case Some(DeleteItem(_, _, _)) => None
  }

  // ---------------------------------------------------------------------
  // removeCartItems, on values
  // ---------------------------------------------------------------------

  /** One round of removeCartItems' outer loop: the first available record
      with the cart line's key loses the line's quantity, or is dropped when
      it holds no more than the line. */
  function ReserveLine(avail: seq<ItemsDetails>, c: ItemsDetails): (r: seq<ItemsDetails>)
    ensures |avail| - 1 <= |r| <= |avail|
  {
    var k := FirstMatch(avail, KeyQuery(c));
    if k == |avail| then avail
    else if avail[k].quantity > c.quantity then
      avail[k := ItemsDetails(avail[k].item, avail[k].quantity - c.quantity, avail[k].cost, avail[k].username)]
    else avail[..k] + avail[k + 1..]
  }

  /** removeCartItems: every cart line reserved, head to tail. */
  function ReserveCart(avail: seq<ItemsDetails>, lines: seq<ItemsDetails>): (r: seq<ItemsDetails>)
    ensures |avail| - |lines| <= |r| <= |avail|
    decreases |lines|
  {
    if lines == [] then avail
    else ReserveLine(ReserveCart(avail, lines[..|lines| - 1]), lines[|lines| - 1])
  }

  /** What the preview shows for the line's key is what the inventory will
      hold once checkout has sent that line's call: the stock less the line,
      or nothing when the line takes it all. Every other key reads as before. */
  lemma ReserveLineEffect(isBuyer: bool, avail: seq<ItemsDetails>, c: ItemsDetails,
                          inventory: InventoryCall -> bool, key: (string, string))
    requires UniqueKeys(avail)
    ensures Lookup(ReserveLine(avail, c), KeyOf(c))
         == AfterCall(UpdateDB(isBuyer, avail, c, inventory).call, Lookup(avail, KeyOf(c)))
    ensures key != KeyOf(c) ==> Lookup(ReserveLine(avail, c), key) == Lookup(avail, key)
  {
    ReserveLineOwnKey(avail, c);
    if key != KeyOf(c) {
      ReserveLineOtherKey(avail, c, key);
    }
  }

  /** ReserveLine leaves the records of every other key, in their order. */
  lemma ReserveLineOthers(avail: seq<ItemsDetails>, c: ItemsDetails)
    ensures Others(ReserveLine(avail, c), KeyOf(c)) == Others(avail, KeyOf(c))
  {
    var k := FirstMatch(avail, KeyQuery(c));
    if k < |avail| {
      var v := ItemsDetails(avail[k].item, avail[k].quantity - c.quantity, avail[k].cost, avail[k].username);
      OthersSplice(avail, k, v, KeyOf(c));
    }
  }

  /** ReserveLine on the line's own key. */
  lemma ReserveLineOwnKey(avail: seq<ItemsDetails>, c: ItemsDetails)
    requires UniqueKeys(avail)
    ensures Lookup(ReserveLine(avail, c), KeyOf(c)) ==
      match Lookup(avail, KeyOf(c))
      case None => None
      case Some(x) => if x.quantity > c.quantity then Some(x.(quantity := x.quantity - c.quantity)) else None
  {
    var q := KeyQuery(c);
    var k := FirstMatch(avail, q);
    var r := ReserveLine(avail, c);
    if k < |avail| {
      var v := ItemsDetails(avail[k].item, avail[k].quantity - c.quantity, avail[k].cost, avail[k].username);
      if avail[k].quantity > c.quantity {
        FirstMatchUpdate(avail, k, v, q);
      } else {
        forall j | 0 <= j < |r|
          ensures KeyOf(r[j]) != KeyOf(c)
        {
          if j >= k {
            assert r[j] == avail[j + 1];
            KeysDiffer(avail, k, j + 1);
          } else {
            assert r[j] == avail[j];
          }
        }
      }
    }
  }

  /** ReserveLine on any other key. */
  lemma ReserveLineOtherKey(avail: seq<ItemsDetails>, c: ItemsDetails, key: (string, string))
    requires key != KeyOf(c)
    ensures Lookup(ReserveLine(avail, c), key) == Lookup(avail, key)
  {
    var k := FirstMatch(avail, KeyQuery(c));
    var kq := ItemOfSeller(key.0, key.1);
    if k < |avail| {
      var v := ItemsDetails(avail[k].item, avail[k].quantity - c.quantity, avail[k].cost, avail[k].username);
      if avail[k].quantity > c.quantity {
        FirstMatchUpdate(avail, k, v, kq);
      } else {
        FirstMatchDelete(avail, k, kq);
        var f := FirstMatch(avail, kq);
        var t := avail[..k] + avail[k + 1..];
        if f < |avail| {
          assert f != k;
          assert (if f < k then t[f] else t[f - 1]) == avail[f];
        }
      }
    }
  }

  /** Reserving keeps the available records' keys unique. */
  lemma ReserveLineUnique(avail: seq<ItemsDetails>, c: ItemsDetails)
    requires UniqueKeys(avail)
    ensures UniqueKeys(ReserveLine(avail, c))
  {
    var k := FirstMatch(avail, KeyQuery(c));
    var r := ReserveLine(avail, c);
    if k < |avail| {
      if avail[k].quantity <= c.quantity {
        UniqueKeysDelete(avail, k);
      } else {
        UniqueKeysSameKeys(avail, r);
      }
    }
  }

  /** Reserving the whole cart keeps the available records' keys unique. */
  lemma {:induction false} ReserveCartUnique(avail: seq<ItemsDetails>, lines: seq<ItemsDetails>)
    requires UniqueKeys(avail)
    ensures UniqueKeys(ReserveCart(avail, lines))
    decreases |lines|
  {
    if lines != [] {
      ReserveCartUnique(avail, lines[..|lines| - 1]);
      ReserveLineUnique(ReserveCart(avail, lines[..|lines| - 1]), lines[|lines| - 1]);
    }
  }

  // ---------------------------------------------------------------------
  // Merge-on-add, on values
  // ---------------------------------------------------------------------

  /** The quantity the cart already holds for the line's key. */
  function Held(cart: seq<ItemsDetails>, line: ItemsDetails): int {
    match Lookup(cart, KeyOf(line))
    case Some(x) => x.quantity
    case None => 0
  }

  /** The cart after adding `line` in BuyerHandler or LookForItemHandler:
      a new key is appended, a known key's line is overwritten in place by
      the new line carrying the summed quantity. */
  function Merged(cart: seq<ItemsDetails>, line: ItemsDetails): (r: seq<ItemsDetails>)
    ensures |cart| <= |r| <= |cart| + 1
  {
    var k := FirstMatch(cart, KeyQuery(line));
    if k == |cart| then cart + [line]
    else cart[k := line.(quantity := line.quantity + cart[k].quantity)]
  }

  /** Adding holds the new line under its key with the quantities summed;
      an absent key is appended at the tail and a present one keeps the
      cart's length; every other key, and the order of the other lines, is
      unchanged. */
  lemma MergedEffect(cart: seq<ItemsDetails>, line: ItemsDetails, key: (string, string))
    ensures Lookup(Merged(cart, line), KeyOf(line)) == Some(line.(quantity := line.quantity + Held(cart, line)))
    ensures Lookup(cart, KeyOf(line)).None? ==> Merged(cart, line) == cart + [line]
    ensures Lookup(cart, KeyOf(line)).Some? ==> |Merged(cart, line)| == |cart|
    ensures key != KeyOf(line) ==> Lookup(Merged(cart, line), key) == Lookup(cart, key)
    ensures Others(Merged(cart, line), KeyOf(line)) == Others(cart, KeyOf(line))
  {
    var q := KeyQuery(line);
    var k := FirstMatch(cart, q);
    var kq := ItemOfSeller(key.0, key.1);
    var v := line.(quantity := line.quantity + Held(cart, line));
    if k == |cart| {
      FirstMatchAppend(cart, line, q);
      FirstMatchAppend(cart, line, kq);
      OthersConcat(cart, [line], KeyOf(line));
    } else {
      FirstMatchUpdate(cart, k, v, q);
      if key != KeyOf(line) {
        FirstMatchUpdate(cart, k, v, kq);
      }
      OthersSplice(cart, k, v, KeyOf(line));
    }
  }

  /** Adding keeps the cart's keys unique. */
  lemma MergedUnique(cart: seq<ItemsDetails>, line: ItemsDetails)
    requires UniqueKeys(cart)
    ensures UniqueKeys(Merged(cart, line))
  {
    var k := FirstMatch(cart, KeyQuery(line));
    var r := Merged(cart, line);
    if k == |cart| {
      UniqueKeysAppend(cart, line);
    } else {
      UniqueKeysSameKeys(cart, r);
    }
  }

  /** Adding the same key twice holds the sum of both quantities. */
  lemma MergedTwice(cart: seq<ItemsDetails>, a: ItemsDetails, b: ItemsDetails)
    requires KeyOf(a) == KeyOf(b)
    ensures Held(Merged(Merged(cart, a), b), b) == Held(cart, a) + a.quantity + b.quantity
  {
    MergedEffect(cart, a, KeyOf(a));
    MergedEffect(Merged(cart, a), b, KeyOf(b));
  }

  // ---------------------------------------------------------------------
  // Checkout, on values
  // ---------------------------------------------------------------------

  /** Whether checkout succeeds for one line. */
  predicate Sold(isBuyer: bool, avail: seq<ItemsDetails>, inventory: InventoryCall -> bool, line: ItemsDetails)
    ensures Sold(isBuyer, avail, inventory, line) ==> exists j | 0 <= j < |avail| :: KeyOf(avail[j]) == KeyOf(line)
  {
    UpdateDB(isBuyer, avail, line, inventory).ok
  }

  /** The lines checkout leaves in the cart: those whose call failed, in order. */
  function Unsold(isBuyer: bool, avail: seq<ItemsDetails>, inventory: InventoryCall -> bool,
                  lines: seq<ItemsDetails>): (r: seq<ItemsDetails>)
    ensures |r| <= |lines| && forall x | x in r :: x in lines
    decreases |lines|
  {
    if lines == [] then []
    else
      var rest := Unsold(isBuyer, avail, inventory, lines[..|lines| - 1]);
      var last := lines[|lines| - 1];
      if Sold(isBuyer, avail, inventory, last) then rest else rest + [last]
  }

  /** The inventory calls checkout issues, one per line that has a record. */
  function Calls(isBuyer: bool, avail: seq<ItemsDetails>, inventory: InventoryCall -> bool,
                 lines: seq<ItemsDetails>): (r: seq<InventoryCall>)
    ensures |r| <= |lines| && forall c | c in r :: c.asBuyer == isBuyer
    decreases |lines|
  {
    if lines == [] then []
    else
      var rest := Calls(isBuyer, avail, inventory, lines[..|lines| - 1]);
      match UpdateDB(isBuyer, avail, lines[|lines| - 1], inventory).call
      case Some(c) => rest + [c]
      case None => rest
  }

  /** A line stays in the cart exactly when it is a line whose call failed. */
  lemma {:induction false} UnsoldMembers(isBuyer: bool, avail: seq<ItemsDetails>, inventory: InventoryCall -> bool,
                                         lines: seq<ItemsDetails>)
    ensures forall x :: x in Unsold(isBuyer, avail, inventory, lines) <==>
      x in lines && !Sold(isBuyer, avail, inventory, x)
    decreases |lines|
  {
    if lines != [] {
      var init := lines[..|lines| - 1];
      UnsoldMembers(isBuyer, avail, inventory, init);
      assert lines == init + [lines[|lines| - 1]];
    }
  }

  /** Checkout's record of calls grows by the call of each line it handles. */
  lemma CallsStep(isBuyer: bool, avail: seq<ItemsDetails>, inventory: InventoryCall -> bool,
                  lines: seq<ItemsDetails>, i: nat)
    requires i < |lines|
    ensures Calls(isBuyer, avail, inventory, lines[..i + 1]) ==
      match UpdateDB(isBuyer, avail, lines[i], inventory).call
      case Some(c) => Calls(isBuyer, avail, inventory, lines[..i]) + [c]
      case None => Calls(isBuyer, avail, inventory, lines[..i])
  {
    assert lines[..i + 1][..i] == lines[..i];
  }

  /** Handling line i keeps it exactly when its call failed. */
  lemma UnsoldStep(isBuyer: bool, avail: seq<ItemsDetails>, inventory: InventoryCall -> bool,
                   lines: seq<ItemsDetails>, i: nat)
    requires i < |lines|
    ensures Unsold(isBuyer, avail, inventory, lines[..i + 1]) ==
      if Sold(isBuyer, avail, inventory, lines[i]) then Unsold(isBuyer, avail, inventory, lines[..i])
      else Unsold(isBuyer, avail, inventory, lines[..i]) + [lines[i]]
  {
    assert lines[..i + 1][..i] == lines[..i];
  }

  /** The cart is emptied exactly when every line's call succeeded. */
  lemma {:induction false} UnsoldEmpty(isBuyer: bool, avail: seq<ItemsDetails>, inventory: InventoryCall -> bool,
                                       lines: seq<ItemsDetails>)
    ensures Unsold(isBuyer, avail, inventory, lines) == [] <==>
      forall j | 0 <= j < |lines| :: Sold(isBuyer, avail, inventory, lines[j])
  {
    UnsoldMembers(isBuyer, avail, inventory, lines);
    var u := Unsold(isBuyer, avail, inventory, lines);
    if u != [] {
      assert u[0] in u;
    }
    if exists j | 0 <= j < |lines| :: !Sold(isBuyer, avail, inventory, lines[j]) {
      var j :| 0 <= j < |lines| && !Sold(isBuyer, avail, inventory, lines[j]);
      assert lines[j] in lines;
    }
  }

  /** Checkout keeps the cart's keys unique. */
  lemma {:induction false} UnsoldUnique(isBuyer: bool, avail: seq<ItemsDetails>, inventory: InventoryCall -> bool,
                                        lines: seq<ItemsDetails>)
    requires UniqueKeys(lines)
    ensures UniqueKeys(Unsold(isBuyer, avail, inventory, lines))
    decreases |lines|
  {
    if lines != [] {
      var init := lines[..|lines| - 1];
      var last := lines[|lines| - 1];
      UniqueKeysPrefix(lines, |lines| - 1);
      UnsoldUnique(isBuyer, avail, inventory, init);
      UnsoldMembers(isBuyer, avail, inventory, init);
      var rest := Unsold(isBuyer, avail, inventory, init);
      forall j | 0 <= j < |rest|
        ensures KeyOf(rest[j]) != KeyOf(last)
      {
        assert rest[j] in init;
        var i :| 0 <= i < |init| && init[i] == rest[j];
        KeysDiffer(lines, i, |lines| - 1);
      }
      if !Sold(isBuyer, avail, inventory, last) {
        UniqueKeysAppend(rest, last);
      }
    }
  }

  /** Before checkout reaches line i, its key is found right behind the lines
      kept so far. */
  lemma UnsoldPosition(isBuyer: bool, avail: seq<ItemsDetails>, inventory: InventoryCall -> bool,
                       lines: seq<ItemsDetails>, i: nat)
    requires UniqueKeys(lines) && i < |lines|
    ensures var u := Unsold(isBuyer, avail, inventory, lines[..i]);
      && u + lines[i..] == u + [lines[i]] + lines[i + 1..]
      && FirstMatch(u + [lines[i]] + lines[i + 1..], KeyQuery(lines[i])) == |u|
  {
    var u := Unsold(isBuyer, avail, inventory, lines[..i]);
    assert lines[i..] == [lines[i]] + lines[i + 1..];
    UnsoldMembers(isBuyer, avail, inventory, lines[..i]);
    forall j | 0 <= j < |u|
      ensures KeyOf(u[j]) != KeyOf(lines[i])
    {
      assert u[j] in lines[..i];
      var h :| 0 <= h < i && lines[h] == u[j];
      KeysDiffer(lines, h, i);
    }
    KeyFoundAfter(u, lines[i], lines[i + 1..]);
  }

  /** A line is found right behind lines that all have other keys. */
  lemma KeyFoundAfter(u: seq<ItemsDetails>, x: ItemsDetails, rest: seq<ItemsDetails>)
    requires forall j | 0 <= j < |u| :: KeyOf(u[j]) != KeyOf(x)
    ensures FirstMatch(u + [x] + rest, KeyQuery(x)) == |u|
  {
    var s := u + [x] + rest;
    assert forall j | 0 <= j <= |u| :: s[j] == if j < |u| then u[j] else x;
    FirstMatchIs(s, KeyQuery(x), |u|);
  }

  // ---------------------------------------------------------------------
  // convStringtoSlice
  // ---------------------------------------------------------------------

  /** The fields of a posted item: braces deleted, split on single spaces. */
  function Fields(s: string): seq<string> {
    Split(Text.Remove(Text.Remove(s, '{'), '}'), ' ')
  }

  /** convStringtoSlice: fields 0 to 3 become Item, Quantity, Cost and
      Username; with fewer than four fields the indexing panics (None).
      strconv's parsers are the parameters `toInt` and `toFloat`. */
  function ConvStringToSlice(s: string, toInt: string -> int, toFloat: string -> real): (r: Option<ItemsDetails>)
    ensures r.None? <==> Count(Text.Remove(Text.Remove(s, '{'), '}'), ' ') < 3
  {
    var f := Fields(s);
    SplitCount(Text.Remove(Text.Remove(s, '{'), '}'), ' ');
    if |f| < 4 then None
    else Some(ItemsDetails(f[0], toInt(f[1]), toFloat(f[2]), f[3]))
  }

  /** How an item is printed into the form: Go's `%v` of the struct. */
  function Format(x: ItemsDetails, quantity: string, cost: string): string {
    "{" + x.item + " " + quantity + " " + cost + " " + x.username + "}"
  }

  /** Parsing a printed item gives it back, as long as no field holds a
      space or a brace and the number parsers invert the printed numbers. */
  lemma ParseFormatted(x: ItemsDetails, quantity: string, cost: string,
                       toInt: string -> int, toFloat: string -> real)
    requires forall t | t in [x.item, quantity, cost, x.username] :: ' ' !in t && '{' !in t && '}' !in t
    requires toInt(quantity) == x.quantity && toFloat(cost) == x.cost
    ensures ConvStringToSlice(Format(x, quantity, cost), toInt, toFloat) == Some(x)
  {
    var fs := [x.item, quantity, cost, x.username];
    FormatIsJoin(x, quantity, cost);
    JoinAvoids(fs, ' ', '{');
    JoinAvoids(fs, ' ', '}');
    Unbrace(Join(fs, ' '));
    SplitJoin(fs, ' ');
    assert Fields(Format(x, quantity, cost)) == fs;
  }

  /** The printed item is its four fields joined by spaces, in braces. */
  lemma FormatIsJoin(x: ItemsDetails, quantity: string, cost: string)
    ensures Format(x, quantity, cost) == "{" + Join([x.item, quantity, cost, x.username], ' ') + "}"
  {
    var fs := [x.item, quantity, cost, x.username];
    assert Join(fs[3..], ' ') == x.username;
    assert Join(fs[2..], ' ') == cost + " " + x.username by {
      assert fs[2..][1..] == fs[3..];
    }
    assert Join(fs[1..], ' ') == quantity + " " + (cost + " " + x.username) by {
      assert fs[1..][1..] == fs[2..];
    }
    assert Join(fs, ' ') == x.item + " " + quantity + " " + cost + " " + x.username;
  }

  /** Deleting the braces around a brace-free text gives the text. */
  lemma Unbrace(body: string)
    requires '{' !in body && '}' !in body
    ensures Text.Remove(Text.Remove("{" + body + "}", '{'), '}') == body
  {
    RemoveConcat("{", body + "}", '{');
    RemoveConcat(body, "}", '{');
    RemoveAbsent(body, '{');
    assert Text.Remove("}", '{') == "}" by {
      assert "}"[1..] == [];
    }
    assert Text.Remove("{", '{') == "" by {
      assert "{"[1..] == [];
    }
    assert Text.Remove("{" + body + "}", '{') == body + "}" by {
      assert "{" + body + "}" == "{" + (body + "}");
    }
    RemoveConcat(body, "}", '}');
    RemoveAbsent(body, '}');
    assert Text.Remove("}", '}') == "" by {
      assert "}"[1..] == [];
    }
  }

  // ---------------------------------------------------------------------
  // removeCartItems, on the slice's backing array
  // ---------------------------------------------------------------------

  /** `append(s[0:i], s[i+1:]...)` on a slice of length n over `buf`: the
      tail moves one place to the front inside the same backing array, the
      slice gets one shorter, and the old last slot keeps its value. */
  method DeleteAt(buf: array<ItemsDetails>, n: nat, i: nat) returns (m: nat)
    requires i < n <= buf.Length
    modifies buf
    ensures m == n - 1
    ensures forall t | 0 <= t < buf.Length :: buf[t] == if i <= t < n - 1 then old(buf[t + 1]) else old(buf[t])
  {
    for j := i to n - 1
      invariant forall t | 0 <= t < buf.Length :: buf[t] == if i <= t < j then old(buf[t + 1]) else old(buf[t])
    {
      buf[j] := buf[j + 1];
    }
    m := n - 1;
  }

  /** One round of removeCartItems' outer loop over the slice `buf[..len]`.
      The inner range loop reads the backing array live, for the length the
      slice had when the loop started, so after a deletion it goes on reading
      shifted and stale slots; with unique keys none of them matches again. */
  method ReserveInPlace(buf: array<ItemsDetails>, len: nat, c: ItemsDetails) returns (n: nat)
    requires len <= buf.Length && UniqueKeys(buf[..len])
    modifies buf
    ensures n <= len && buf[..n] == ReserveLine(old(buf[..len]), c)
  {
    ghost var o := buf[..len];
    ghost var k := FirstMatch(o, KeyQuery(c));
    n := len;
    for index := 0 to len
      invariant n <= len
      invariant index <= k ==> n == len && buf[..len] == o
      invariant k < index ==> buf[..n] == ReserveLine(o, c)
      invariant k < index ==> forall j | index <= j < len :: KeyOf(buf[j]) != KeyOf(c)
    {
      var item := buf[index];
      if item.item == c.item && item.username == c.username {
        assert index == k;
        n := ReserveAt(buf, len, index, c, o);
      }
    }
  }

  /** The body of that inner loop once it reaches the record with the line's
      key at position k: decrement it in place, or delete it from the slice.
      No later slot the loop still reads has that key. */
  method ReserveAt(buf: array<ItemsDetails>, len: nat, k: nat, c: ItemsDetails, ghost o: seq<ItemsDetails>)
    returns (n: nat)
    requires len <= buf.Length && buf[..len] == o && UniqueKeys(o)
    requires k < len && FirstMatch(o, KeyQuery(c)) == k
    modifies buf
    ensures n <= len && buf[..n] == ReserveLine(o, c)
    ensures forall j | k < j < len :: KeyOf(buf[j]) != KeyOf(c)
  {
    var item := buf[k];
    if item.quantity > c.quantity {
      buf[k] := ItemsDetails(item.item, item.quantity - c.quantity, item.cost, item.username);
      n := len;
      forall j | k < j < len
        ensures KeyOf(buf[j]) != KeyOf(c)
      {
        assert buf[j] == o[j];
        KeysDiffer(o, k, j);
      }
    } else {
      n := DeleteAt(buf, len, k);
      assert forall t | 0 <= t < n :: buf[t] == if t < k then o[t] else o[t + 1];
      assert buf[..n] == o[..k] + o[k + 1..];
      forall j | k < j < len
        ensures KeyOf(buf[j]) != KeyOf(c)
      {
        var h := if j < len - 1 then j + 1 else j;
        assert buf[j] == o[h];
        KeysDiffer(o, k, h);
      }
    }
  }

  // ---------------------------------------------------------------------
  // The process-wide cart
  // ---------------------------------------------------------------------

  /** What the checkout branch of CartHandler ends in: the inventory could
      not be fetched, or every cart line was tried, with the calls issued and
      the invoice e-mailed when every line succeeded. */
  datatype CheckoutOutcome =
    | InventoryUnavailable
    | CheckedOut(allOk: bool, calls: seq<InventoryCall>, invoice: Option<seq<ItemsDetails>>)

  /** The buyer package's state: the global `buyerCartll`. */
  class Shop {
    var cart: CartLinkedList

    /** The handlers only ever add, overwrite and remove found lines, so the
        counter stays in step with the nodes and no key occurs twice. */
    ghost predicate Valid()
      reads this, cart, cart.Repr
    {
      && cart.Valid()
      && this !in cart.Repr
      && cart.Synced()
      && UniqueKeys(cart.items)
    }

    /** init(): an empty cart. */
    constructor ()
      ensures Valid() && fresh(cart.Repr) && cart.items == []
    {
      cart := new CartLinkedList();
    }

    /** The reset button of CartHandler and the end of
        CheckoutSuccessHandler: the cart is replaced by an empty list. */
    method ClearCart()
      requires Valid()
      modifies this
      ensures Valid() && fresh(cart.Repr)
      ensures cart.items == [] && cart.size == 0 && cart.head == null
    {
      cart := new CartLinkedList();
    }

    /** The merge-on-add block of BuyerHandler and LookForItemHandler. */
    method AddToCart(line: ItemsDetails)
      requires Valid()
      modifies cart.Repr
      ensures Valid() && fresh(cart.Repr - old(cart.Repr))
      ensures cart.items == Merged(old(cart.items), line)
    {
      var existing, index, err := cart.SearchItemAndSellerName(line.item, line.username);
      if err.Some? {
        cart.AddNode(line);
      } else {
        var newItem := line.(quantity := line.quantity + existing.quantity);
        var _ := cart.WriteAtIndex(index, newItem);
      }
      MergedUnique(old(cart.items), line);
    }

    /** The add form: the posted item is parsed and its quantity replaced by
        the posted quantity before it is added; an empty `product_id` skips
        the add, and a malformed item panics. Either way the cart is left
        alone. */
    method AddFromForm(productId: string, newQuantity: string, toInt: string -> int, toFloat: string -> real)
      returns (panicked: bool)
      requires Valid()
      modifies cart.Repr
      ensures Valid() && fresh(cart.Repr - old(cart.Repr))
      ensures panicked <==> productId != "" && ConvStringToSlice(productId, toInt, toFloat).None?
      ensures productId == "" || panicked ==> cart.items == old(cart.items)
      ensures productId != "" && !panicked ==>
        cart.items == Merged(old(cart.items), ConvStringToSlice(productId, toInt, toFloat).value.(quantity := toInt(newQuantity)))
    {
      if productId == "" {
        return false;
      }
      var parsed := ConvStringToSlice(productId, toInt, toFloat);
      if parsed.None? {
        return true;
      }
      AddToCart(parsed.value.(quantity := toInt(newQuantity)));
      panicked := false;
    }

    /** The checkout branch of CartHandler. */
    method Checkout(isBuyer: bool, fetched: Option<seq<ItemsDetails>>, inventory: InventoryCall -> bool)
      returns (out: CheckoutOutcome)
      requires Valid()
      modifies cart.Repr
      ensures Valid() && cart.Repr == old(cart.Repr)
      ensures fetched.None? ==> out == InventoryUnavailable && cart.items == old(cart.items)
      ensures fetched.Some? ==>
        && cart.items == Unsold(isBuyer, fetched.value, inventory, old(cart.items))
        && out.CheckedOut?
        && (out.allOk <==> forall j | 0 <= j < |old(cart.items)| :: Sold(isBuyer, fetched.value, inventory, old(cart.items)[j]))
        && out.calls == Calls(isBuyer, fetched.value, inventory, old(cart.items))
        && out.invoice == (if out.allOk then Some(old(cart.items)) else None)
    {
      if fetched.None? {
        return InventoryUnavailable;
      }
      var _, lines := cart.GetAllItems();
      var allOk, calls := SellAll(cart, isBuyer, fetched.value, inventory, lines);
      UnsoldEmpty(isBuyer, fetched.value, inventory, lines);
      var invoice := if allOk then Some(lines) else None;
      out := CheckedOut(allOk, calls, invoice);
    }

    /** removeCartItems: the stock shown to the buyer, with what the cart
        already holds subtracted. The cart is only read. */
    method RemoveCartItems(avail: seq<ItemsDetails>) returns (shown: seq<ItemsDetails>)
      requires Valid() && UniqueKeys(avail)
      ensures shown == ReserveCart(avail, cart.items)
    {
      var _, lines := cart.GetAllItems();
      var buf := new ItemsDetails[|avail|](i requires 0 <= i < |avail| => avail[i]);
      var n: nat := |avail|;
      assert buf[..n] == avail;
      for i := 0 to |lines|
        invariant n <= buf.Length
        invariant buf[..n] == ReserveCart(avail, lines[..i])
        invariant UniqueKeys(buf[..n])
      {
        ghost var before := buf[..n];
        n := ReserveInPlace(buf, n, lines[i]);
        ReserveLineUnique(before, lines[i]);
        assert lines[..i + 1][..i] == lines[..i];
      }
      assert lines[..|lines|] == lines;
      shown := buf[..n];
    }
  }

  /** The checkout loop over a snapshot of the cart: every line goes
      through updateDB, success is the conjunction of the lines' results,
      and a line whose call succeeded is removed from the cart. */
  method SellAll(cart: CartLinkedList, isBuyer: bool, avail: seq<ItemsDetails>, inventory: InventoryCall -> bool, lines: seq<ItemsDetails>)
    returns (allOk: bool, calls: seq<InventoryCall>)
    requires cart.Valid() && cart.Synced() && UniqueKeys(cart.items) && lines == cart.items
    modifies cart.Repr
    ensures cart.Valid() && cart.Synced() && cart.Repr == old(cart.Repr) && UniqueKeys(cart.items)
    ensures cart.items == Unsold(isBuyer, avail, inventory, old(cart.items))
    ensures allOk == (cart.items == [])
    ensures calls == Calls(isBuyer, avail, inventory, old(cart.items))
  {
    allOk := true;
    calls := [];
    ghost var u: seq<ItemsDetails> := [];
    for i := 0 to |lines|
      invariant cart.Valid() && cart.Synced() && cart.Repr == old(cart.Repr)
      invariant u == Unsold(isBuyer, avail, inventory, lines[..i])
      invariant cart.items == u + lines[i..]
      invariant allOk == (u == [])
      invariant calls == Calls(isBuyer, avail, inventory, lines[..i])
    {
      allOk, calls, u := CheckoutRound(cart, isBuyer, avail, inventory, lines, i, allOk, calls, u);
    }
    assert lines[..|lines|] == lines;
    assert cart.items == u by {
      assert lines[|lines|..] == [];
    }
    UnsoldUnique(isBuyer, avail, inventory, lines);
  }

  /** One round of the checkout loop, with its bookkeeping: the running
      conjunction of the results, the calls so far, and the lines kept. */
  method CheckoutRound(cart: CartLinkedList, isBuyer: bool, avail: seq<ItemsDetails>, inventory: InventoryCall -> bool,
                       lines: seq<ItemsDetails>, i: nat, allOk: bool, calls: seq<InventoryCall>, ghost u: seq<ItemsDetails>)
    returns (allOk': bool, calls': seq<InventoryCall>, ghost u': seq<ItemsDetails>)
    requires cart.Valid() && cart.Synced()
    requires UniqueKeys(lines) && i < |lines|
    requires u == Unsold(isBuyer, avail, inventory, lines[..i]) && cart.items == u + lines[i..]
    requires allOk == (u == []) && calls == Calls(isBuyer, avail, inventory, lines[..i])
    modifies cart.Repr
    ensures cart.Valid() && cart.Synced() && cart.Repr == old(cart.Repr)
    ensures u' == Unsold(isBuyer, avail, inventory, lines[..i + 1]) && cart.items == u' + lines[i + 1..]
    ensures allOk' == (u' == []) && calls' == Calls(isBuyer, avail, inventory, lines[..i + 1])
  {
    UnsoldPosition(isBuyer, avail, inventory, lines, i);
    var res := CheckoutLine(cart, isBuyer, avail, inventory, lines[i], u, lines[i + 1..]);
    allOk' := allOk && res.ok;
    calls' := if res.call.Some? then calls + [res.call.value] else calls;
    u' := if res.ok then u else u + [lines[i]];
    CallsStep(isBuyer, avail, inventory, lines, i);
    UnsoldStep(isBuyer, avail, inventory, lines, i);
  }

  /** One round of the checkout loop: updateDB for the line x and, when its
      call succeeded, the line looked up by key and removed from the cart. */
  method CheckoutLine(cart: CartLinkedList, isBuyer: bool, avail: seq<ItemsDetails>, inventory: InventoryCall -> bool,
                      x: ItemsDetails, ghost u: seq<ItemsDetails>, ghost rest: seq<ItemsDetails>) returns (res: LineResult)
    requires cart.Valid() && cart.Synced()
    requires cart.items == u + [x] + rest && FirstMatch(cart.items, KeyQuery(x)) == |u|
    modifies cart.Repr
    ensures cart.Valid() && cart.Synced() && cart.Repr == old(cart.Repr)
    ensures res == UpdateDB(isBuyer, avail, x, inventory)
    ensures cart.items == (if res.ok then u else u + [x]) + rest
  {
    res := UpdateDB(isBuyer, avail, x, inventory);
    if res.ok {
      var _, index, err := cart.SearchItemAndSellerName(x.item, x.username);
      if err.None? {
        var _ := cart.Remove(index);
        assert cart.items == u + rest by {
          assert (u + [x] + rest)[..|u|] == u;
          assert (u + [x] + rest)[|u| + 1..] == rest;
        }
      }
    }
  }
}
