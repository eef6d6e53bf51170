/** The item REST API (sellerAPI/sellerAPI.go): the seller and buyer
    handlers for /{sellername}/{itemname}, as transitions of the item table.

    The MySQL table is a map keyed by (Item, Username); the SQL statements
    of sellerAPI/sellerAPIdb.go become map lookups, insertions, renames and
    deletions. A request is its method, the first value of its `key` query
    parameter, its Content-type header and its body (None when reading the
    body fails; JSON decoding is not modelled, the decoded record is given). */
module SellerApi {
  import opened Items

  const StatusOK := 200
  const StatusCreated := 201
  const StatusAccepted := 202
  const StatusNotFound := 404
  const StatusMethodNotAllowed := 405
  const StatusConflict := 409
  const StatusUnprocessableEntity := 422

  datatype Method = GET | POST | PUT | DELETE | OtherMethod

  datatype Request = Request(verb: Method, key: Option<string>, contentType: string,
                             body: Option<ItemsDetails>)

  /** The status written and, for a successful GET, the record encoded. A
      handler that writes nothing answers 200 with no body. */
  datatype Response = Response(status: int, record: Option<ItemsDetails>)

  type Table = map<(string, string), ItemsDetails>

  /** validKey: the request names a key and it is the expected one; the
      handler answers 404 otherwise. */
  predicate ValidKey(key: Option<string>, apiKey: string) {
    key.Some? && key.value == apiKey
  }

  /** GetARecordSeller: the record stored under (item, seller); a record
      whose Item or Username is empty counts as not found. */
  function GetARecord(t: Table, item: string, seller: string): (r: Option<ItemsDetails>)
    ensures r.Some? ==> (item, seller) in t && r.value == t[(item, seller)]
  {
    if (item, seller) in t && t[(item, seller)].item != "" && t[(item, seller)].username != ""
    then Some(t[(item, seller)])
    else None
  }

  /** Every record is stored under its own (Item, Username). */
  ghost predicate KeyedByRecord(t: Table) {
    forall k | k in t :: KeyOf(t[k]) == k
  }

  /** In a table keyed by its records, a lookup succeeds exactly for a
      stored pair of non-empty names. */
  lemma GetARecordFinds(t: Table, item: string, seller: string)
    requires KeyedByRecord(t)
    ensures GetARecord(t, item, seller).Some? <==> item != "" && seller != "" && (item, seller) in t
  {
    if (item, seller) in t {
      assert KeyOf(t[(item, seller)]) == (item, seller);
    }
  }

  /** The body checks shared by POST and PUT. */
  predicate BodyValid(sid: ItemsDetails, seller: string) {
    sid.username != "" && sid.username == seller && sid.item != "" && sid.cost >= 0.0 && sid.quantity >= 0
  }

  /** EditRecordSeller: the record under (item, seller) is replaced by
      `sid`, which may carry a new Item and so be stored under a new key. */
  function Edit(t: Table, item: string, seller: string, sid: ItemsDetails): (r: Table)
    requires KeyedByRecord(t)
    ensures KeyedByRecord(r)
    ensures KeyOf(sid) in r && r[KeyOf(sid)] == sid
    ensures KeyOf(sid) != (item, seller) ==> (item, seller) !in r
    ensures forall k | k in t && k != (item, seller) && k != KeyOf(sid) :: k in r && r[k] == t[k]
    ensures forall k | k in r :: k in t || k == KeyOf(sid)
  {
    (t - {(item, seller)})[KeyOf(sid) := sid]
  }

  /** After a DELETE the record is not found, so a second DELETE answers
      404 and changes nothing; no other lookup is affected. */
  lemma DeleteForgets(t: Table, item: string, seller: string)
    ensures GetARecord(t - {(item, seller)}, item, seller).None?
    ensures forall i, s | (i, s) != (item, seller) ::
      GetARecord(t - {(item, seller)}, i, s) == GetARecord(t, i, s)
  {
  }

  /** A record accepted by POST or PUT is what a following GET returns, at
      the key its own names give. */
  lemma StoredIsFound(t: Table, sid: ItemsDetails, seller: string)
    requires BodyValid(sid, seller)
    ensures GetARecord(t[KeyOf(sid) := sid], sid.item, seller) == Some(sid)
  {
  }

  /** After an edit the new record is found under its own names, and an
      item that was renamed is no longer found under its old name. */
  lemma EditedIsFound(t: Table, item: string, seller: string, sid: ItemsDetails)
    requires KeyedByRecord(t) && BodyValid(sid, seller)
    ensures GetARecord(Edit(t, item, seller, sid), sid.item, seller) == Some(sid)
    ensures sid.item != item ==> GetARecord(Edit(t, item, seller, sid), item, seller).None?
  {
  }

  class ItemStore {
    var items: Table
    const sellerApiKey: string
    const buyerApiKey: string

    ghost predicate Valid()
      reads this
    {
      KeyedByRecord(items)
    }

    /** The service at start-up: the keys read from the environment and the
        table as the database holds it. */
    constructor (table: Table, sellerApiKey: string, buyerApiKey: string)
      requires KeyedByRecord(table)
      ensures Valid() && items == table
      ensures this.sellerApiKey == sellerApiKey && this.buyerApiKey == buyerApiKey
    {
      items := table;
      this.sellerApiKey := sellerApiKey;
      this.buyerApiKey := buyerApiKey;
    }

    /** GET and DELETE, the same in both handlers. */
    method GetOrDelete(req: Request, seller: string, item: string) returns (resp: Response)
      requires Valid() && (req.verb == GET || req.verb == DELETE)
      modifies this
      ensures Valid()
      ensures var found := GetARecord(old(items), item, seller);
        && (found.None? ==> resp == Response(StatusNotFound, None) && items == old(items))
        && (found.Some? && req.verb == GET ==> resp == Response(StatusOK, found) && items == old(items))
        && (found.Some? && req.verb == DELETE ==>
              resp == Response(StatusAccepted, None) && items == old(items) - {(item, seller)})
    {
      var found := GetARecord(items, item, seller);
      if found.None? {
        return Response(StatusNotFound, None);
      }
      if req.verb == GET {
        return Response(StatusOK, found);
      }
      items := items - {(item, seller)};
      resp := Response(StatusAccepted, None);
    }

    /** The PUT branch up to the point where the handlers differ: the body
        is read and checked, and a stored (item, seller) is replaced. The
        result is None when the path names no stored record and the body's
        key is not stored either; the caller decides that case. */
    method PutExisting(body: Option<ItemsDetails>, seller: string, item: string) returns (resp: Option<Response>)
      requires Valid()
      modifies this
      ensures Valid()
      ensures body.None? || !BodyValid(body.value, seller) ==>
        resp == Some(Response(StatusUnprocessableEntity, None)) && items == old(items)
      ensures body.Some? && BodyValid(body.value, seller) && GetARecord(old(items), item, seller).Some? ==>
        resp == Some(Response(StatusAccepted, None)) && items == Edit(old(items), item, seller, body.value)
      ensures body.Some? && BodyValid(body.value, seller) && GetARecord(old(items), item, seller).None? ==>
        items == old(items) &&
        resp == if GetARecord(old(items), body.value.item, body.value.username).Some?
                then Some(Response(StatusUnprocessableEntity, None)) else None
    {
      if body.None? || !BodyValid(body.value, seller) {
        return Some(Response(StatusUnprocessableEntity, None));
      }
      var sid := body.value;
      if GetARecord(items, item, seller).None? {
        if GetARecord(items, sid.item, sid.username).Some? {
          return Some(Response(StatusUnprocessableEntity, None));
        }
        return None;
      }
      items := Edit(items, item, seller, sid);
      resp := Some(Response(StatusAccepted, None));
    }

    /** seller_edititems. */
    method SellerEditItems(req: Request, seller: string, item: string) returns (resp: Response)
      requires Valid()
      modifies this
      ensures Valid()
      ensures !ValidKey(req.key, sellerApiKey) ==> resp == Response(StatusNotFound, None) && items == old(items)
      // Only a 201 or a 202 changes the table.
      ensures resp.status != StatusCreated && resp.status != StatusAccepted ==> items == old(items)
      ensures ValidKey(req.key, sellerApiKey) && req.verb == DELETE ==>
        if GetARecord(old(items), item, seller).None?
        then resp.status == StatusNotFound && items == old(items)
        else resp.status == StatusAccepted && items == old(items) - {(item, seller)}
      ensures ValidKey(req.key, sellerApiKey) && req.verb == GET ==>
        resp == (if GetARecord(old(items), item, seller).None? then Response(StatusNotFound, None)
                 else Response(StatusOK, GetARecord(old(items), item, seller)))
      ensures (req.verb == POST || req.verb == PUT) && req.contentType != "application/json" ==>
        items == old(items)
      ensures ValidKey(req.key, sellerApiKey) && req.verb == POST && req.contentType == "application/json" ==>
        if req.body.None? || !BodyValid(req.body.value, seller) || req.body.value.item != item
        then resp.status == StatusUnprocessableEntity && items == old(items)
        else if GetARecord(old(items), item, seller).Some?
        then resp.status == StatusConflict && items == old(items)
        else resp.status == StatusCreated && items == old(items)[(item, seller) := req.body.value]
      ensures ValidKey(req.key, sellerApiKey) && req.verb == PUT && req.contentType == "application/json" ==>
        if req.body.None? || !BodyValid(req.body.value, seller)
        then resp.status == StatusUnprocessableEntity && items == old(items)
        else if GetARecord(old(items), item, seller).Some?
        then resp.status == StatusAccepted && items == Edit(old(items), item, seller, req.body.value)
        else if GetARecord(old(items), req.body.value.item, req.body.value.username).Some?
        then resp.status == StatusUnprocessableEntity && items == old(items)
        else resp.status == StatusCreated && items == old(items)[KeyOf(req.body.value) := req.body.value]
    {
      if !ValidKey(req.key, sellerApiKey) {
        return Response(StatusNotFound, None);
      }
      if req.verb == GET || req.verb == DELETE {
        resp := GetOrDelete(req, seller, item);
        return;
      }
      resp := Response(StatusOK, None);
      if req.contentType == "application/json" {
        if req.verb == POST {
          if req.body.None? || !BodyValid(req.body.value, seller) || req.body.value.item != item {
            return Response(StatusUnprocessableEntity, None);
          }
          if GetARecord(items, item, seller).Some? {
            resp := Response(StatusConflict, None);
          } else {
            items := items[KeyOf(req.body.value) := req.body.value];
            resp := Response(StatusCreated, None);
          }
        } else if req.verb == PUT {
          var r := PutExisting(req.body, seller, item);
          if r.Some? {
            return r.value;
          }
          items := items[KeyOf(req.body.value) := req.body.value];
          resp := Response(StatusCreated, None);
        }
      }
    }

    /** buyer_edititems: GET and DELETE as for a seller, POST is refused,
        and PUT only edits a stored record. */
    method BuyerEditItems(req: Request, seller: string, item: string) returns (resp: Response)
      requires Valid()
      modifies this
      ensures Valid()
      ensures !ValidKey(req.key, buyerApiKey) ==> resp == Response(StatusNotFound, None) && items == old(items)
      // Only a 202 changes the table: a buyer never creates a record.
      ensures resp.status != StatusAccepted ==> items == old(items)
      ensures forall k | k in items :: k in old(items) || (req.body.Some? && k == KeyOf(req.body.value))
      ensures ValidKey(req.key, buyerApiKey) && req.verb == DELETE ==>
        if GetARecord(old(items), item, seller).None?
        then resp.status == StatusNotFound && items == old(items)
        else resp.status == StatusAccepted && items == old(items) - {(item, seller)}
      ensures ValidKey(req.key, buyerApiKey) && req.verb == GET ==>
        resp == (if GetARecord(old(items), item, seller).None? then Response(StatusNotFound, None)
                 else Response(StatusOK, GetARecord(old(items), item, seller)))
      ensures ValidKey(req.key, buyerApiKey) && req.verb == POST && req.contentType == "application/json" ==>
        resp.status == StatusMethodNotAllowed
      ensures (req.verb == POST || req.verb == PUT) && req.contentType != "application/json" ==>
        items == old(items)
      ensures ValidKey(req.key, buyerApiKey) && req.verb == PUT && req.contentType == "application/json" ==>
        if req.body.None? || !BodyValid(req.body.value, seller)
        then resp.status == StatusUnprocessableEntity && items == old(items)
        else if GetARecord(old(items), item, seller).Some?
        then resp.status == StatusAccepted && items == Edit(old(items), item, seller, req.body.value)
        else if GetARecord(old(items), req.body.value.item, req.body.value.username).Some?
        then resp.status == StatusUnprocessableEntity && items == old(items)
        else resp.status == StatusMethodNotAllowed && items == old(items)
    {
      if !ValidKey(req.key, buyerApiKey) {
        return Response(StatusNotFound, None);
      }
      if req.verb == GET || req.verb == DELETE {
        resp := GetOrDelete(req, seller, item);
        return;
      }
      resp := Response(StatusOK, None);
      if req.contentType == "application/json" {
        if req.verb == POST {
          resp := Response(StatusMethodNotAllowed, None);
        } else if req.verb == PUT {
          var r := PutExisting(req.body, seller, item);
          resp := if r.Some? then r.value else Response(StatusMethodNotAllowed, None);
        }
      }
    }
  }
}
