/** The item record exchanged between the marketplace front end, the cart
    and the item REST API (apiclient.ItemsDetails and its twin in sellerAPI),
    and the helpers every module needs to talk about an item's identity. */
module Items {

  datatype Option<T> = None | Some(value: T)

  /** One line of inventory or of the cart. `cost` is a Go float64 in the
      source; it is only ever copied or sign-checked, so a real stands in. */
  datatype ItemsDetails = ItemsDetails(item: string, quantity: int, cost: real, username: string)

  /** The Go zero value `apiclient.ItemsDetails{}`. */
  const EmptyItem := ItemsDetails("", 0, 0.0, "")

  /** A line is identified by the pair (item name, seller name). */
  function KeyOf(x: ItemsDetails): (string, string) {
    (x.item, x.username)
  }

  /** The three ways the cart is searched: by item name, by seller name,
      and by the (item, seller) pair. */
  datatype Query = ItemNamed(name: string) | SoldBy(seller: string) | ItemOfSeller(name: string, seller: string)

  predicate Matches(q: Query, x: ItemsDetails) {
    match q
    case ItemNamed(n) => x.item == n
    case SoldBy(u) => x.username == u
    case ItemOfSeller(n, u) => x.item == n && x.username == u
  }

  /** The query that finds the line with the same key as `x`. */
  function KeyQuery(x: ItemsDetails): (q: Query)
    ensures forall y :: Matches(q, y) <==> KeyOf(y) == KeyOf(x)
  {
    ItemOfSeller(x.item, x.username)
  }

  /** No line but the a-th has the a-th line's (item, seller) pair. */
  ghost predicate KeyOnlyAt(s: seq<ItemsDetails>, a: int)
    requires 0 <= a < |s|
  {
    forall b | 0 <= b < |s| && b != a :: KeyOf(s[b]) != KeyOf(s[a])
  }

  /** No two lines share an (item, seller) pair. It is stated line by line
      so that the pairwise fact is only brought in where a proof asks for it. */
  ghost predicate UniqueKeys(s: seq<ItemsDetails>) {
    forall a | 0 <= a < |s| :: KeyOnlyAt(s, a)
  }

  /** Two lines of a list with unique keys have different keys. */
  lemma KeysDiffer(s: seq<ItemsDetails>, a: nat, b: nat)
    requires UniqueKeys(s) && a < |s| && b < |s| && a != b
    ensures KeyOf(s[a]) != KeyOf(s[b])
  {
    assert KeyOnlyAt(s, b);
  }

  /** Unique keys survive any change that keeps every position's key. */
  lemma UniqueKeysSameKeys(s: seq<ItemsDetails>, t: seq<ItemsDetails>)
    requires UniqueKeys(s) && |s| == |t|
    requires forall j | 0 <= j < |s| :: KeyOf(t[j]) == KeyOf(s[j])
    ensures UniqueKeys(t)
  {
    forall a | 0 <= a < |t|
      ensures KeyOnlyAt(t, a)
    {
      assert KeyOnlyAt(s, a);
    }
  }

  /** Unique keys survive cutting out a line. */
  lemma UniqueKeysDelete(s: seq<ItemsDetails>, k: nat)
    requires UniqueKeys(s) && k < |s|
    ensures UniqueKeys(s[..k] + s[k + 1..])
  {
    var t := s[..k] + s[k + 1..];
    assert forall j | 0 <= j < |t| :: t[j] == if j < k then s[j] else s[j + 1];
    forall a | 0 <= a < |t|
      ensures KeyOnlyAt(t, a)
    {
      assert KeyOnlyAt(s, if a < k then a else a + 1);
    }
  }

  /** Unique keys survive taking a prefix. */
  lemma UniqueKeysPrefix(s: seq<ItemsDetails>, n: nat)
    requires UniqueKeys(s) && n <= |s|
    ensures UniqueKeys(s[..n])
  {
    forall a | 0 <= a < n
      ensures KeyOnlyAt(s[..n], a)
    {
      assert KeyOnlyAt(s, a);
    }
  }

  /** Unique keys survive appending a line with a new key. */
  lemma UniqueKeysAppend(s: seq<ItemsDetails>, x: ItemsDetails)
    requires UniqueKeys(s) && forall j | 0 <= j < |s| :: KeyOf(s[j]) != KeyOf(x)
    ensures UniqueKeys(s + [x])
  {
    var t := s + [x];
    forall a | 0 <= a < |t|
      ensures KeyOnlyAt(t, a)
    {
      if a < |s| {
        assert KeyOnlyAt(s, a);
      }
    }
  }

  /** Index of the first line the query matches, or |s| when there is none. */
  function FirstMatch(s: seq<ItemsDetails>, q: Query): (k: nat)
    ensures k <= |s|
    ensures k < |s| ==> Matches(q, s[k])
    ensures forall j | 0 <= j < k :: !Matches(q, s[j])
  {
    if s == [] then 0
    else if Matches(q, s[0]) then 0
    else 1 + FirstMatch(s[1..], q)
  }

  /** In a list with unique keys the first line with a key is the only one. */
  lemma UniqueKeyIsFirst(s: seq<ItemsDetails>, k: nat)
    requires UniqueKeys(s) && k < |s|
    ensures FirstMatch(s, KeyQuery(s[k])) == k
  {
    var f := FirstMatch(s, KeyQuery(s[k]));
    if f < k {
      KeysDiffer(s, f, k);
    }
  }

  /** FirstMatch is pinned down by its three properties. */
  lemma {:induction false} FirstMatchIs(s: seq<ItemsDetails>, q: Query, k: nat)
    requires k <= |s| && (k < |s| ==> Matches(q, s[k]))
    requires forall j | 0 <= j < k :: !Matches(q, s[j])
    ensures FirstMatch(s, q) == k
  {
    if s != [] && !Matches(q, s[0]) {
      assert k > 0;
      FirstMatchIs(s[1..], q, k - 1);
    }
  }

  /** Overwriting a line by one the query treats alike moves no first match. */
  lemma FirstMatchUpdate(s: seq<ItemsDetails>, k: nat, v: ItemsDetails, q: Query)
    requires k < |s| && (Matches(q, s[k]) <==> Matches(q, v))
    ensures FirstMatch(s[k := v], q) == FirstMatch(s, q)
  {
    var f := FirstMatch(s, q);
    FirstMatchIs(s[k := v], q, f);
  }

  /** Cutting out a line the query does not match shifts a later first match
      one place to the front. */
  lemma FirstMatchDelete(s: seq<ItemsDetails>, k: nat, q: Query)
    requires k < |s| && !Matches(q, s[k])
    ensures var f := FirstMatch(s, q);
      FirstMatch(s[..k] + s[k + 1..], q) == if f < k then f else f - 1
  {
    var f := FirstMatch(s, q);
    var t := s[..k] + s[k + 1..];
    if f < k {
      assert forall j | 0 <= j <= f :: t[j] == s[j];
      FirstMatchIs(t, q, f);
    } else {
      assert forall j | 0 <= j < k :: t[j] == s[j];
      assert forall j | k <= j < |t| :: t[j] == s[j + 1];
      FirstMatchIs(t, q, f - 1);
    }
  }

  /** Appending a line only matters when nothing matched before. */
  lemma FirstMatchAppend(s: seq<ItemsDetails>, x: ItemsDetails, q: Query)
    ensures var f := FirstMatch(s, q);
      FirstMatch(s + [x], q) == if f < |s| || Matches(q, x) then f else |s| + 1
  {
    var f := FirstMatch(s, q);
    FirstMatchIs(s + [x], q, if f < |s| || Matches(q, x) then f else |s| + 1);
  }

  /** The line a list holds for a key: the first one with that key. */
  function Lookup(s: seq<ItemsDetails>, key: (string, string)): (r: Option<ItemsDetails>)
    ensures r.None? <==> forall j | 0 <= j < |s| :: KeyOf(s[j]) != key
    ensures r.Some? ==> r.value in s && KeyOf(r.value) == key
  {
    var k := FirstMatch(s, ItemOfSeller(key.0, key.1));
    if k < |s| then Some(s[k]) else None
  }

  /** Lookup returns the first line with the key. */
  lemma LookupFirst(s: seq<ItemsDetails>, key: (string, string), k: nat)
    requires k < |s| && KeyOf(s[k]) == key
    requires forall j | 0 <= j < k :: KeyOf(s[j]) != key
    ensures Lookup(s, key) == Some(s[k])
  {
    FirstMatchIs(s, ItemOfSeller(key.0, key.1), k);
  }

  /** The lines whose key is not `key`, in their order. */
  function Others(s: seq<ItemsDetails>, key: (string, string)): (r: seq<ItemsDetails>)
    ensures |r| <= |s|
    ensures forall j | 0 <= j < |r| :: KeyOf(r[j]) != key
  {
    if s == [] then []
    else (if KeyOf(s[0]) == key then [] else [s[0]]) + Others(s[1..], key)
  }

  lemma {:induction false} OthersConcat(a: seq<ItemsDetails>, b: seq<ItemsDetails>, key: (string, string))
    ensures Others(a + b, key) == Others(a, key) + Others(b, key)
  {
    if a == [] {
      assert a + b == b;
    } else {
      assert (a + b)[0] == a[0] && (a + b)[1..] == a[1..] + b;
      OthersConcat(a[1..], b, key);
    }
  }

  /** A line with key `key` contributes nothing to Others. */
  lemma OthersCut(s: seq<ItemsDetails>, k: nat, key: (string, string))
    requires k < |s| && KeyOf(s[k]) == key
    ensures Others(s, key) == Others(s[..k], key) + Others(s[k + 1..], key)
  {
    var t := [s[k]] + s[k + 1..];
    assert s == s[..k] + t;
    OthersConcat(s[..k], t, key);
    assert t[0] == s[k] && t[1..] == s[k + 1..];
    assert Others(t, key) == Others(s[k + 1..], key);
  }

  /** Replacing or cutting out a line with key `key` leaves the other lines
      and their order alone. */
  lemma OthersSplice(s: seq<ItemsDetails>, k: nat, v: ItemsDetails, key: (string, string))
    requires k < |s| && KeyOf(s[k]) == key && KeyOf(v) == key
    ensures Others(s[k := v], key) == Others(s, key)
    ensures Others(s[..k] + s[k + 1..], key) == Others(s, key)
  {
    OthersCut(s, k, key);
    OthersCut(s[k := v], k, key);
    assert s[k := v][..k] == s[..k] && s[k := v][k + 1..] == s[k + 1..];
    OthersConcat(s[..k], s[k + 1..], key);
  }
}
