/** `controllers/inventory_controller.go`: check that a hub holds enough of
    an SKU and deduct the ordered quantity. The `hub_inventories` table is an
    object holding its rows; the handler's local `HubInventory` struct is an
    object that gorm fills in and `ReduceQuantity` mutates before saving it. */
module InventoryController {
  import opened Common
  import opened Http

  /** `ValidateInventoryRequest`; Go `int` fields are 64-bit. */
  datatype ValidateInventoryRequest = ValidateInventoryRequest(skuId: string, quantityOrdered: Int64, hubId: string)

  /** One stored row of the inventory table. */
  datatype Row = Row(id: nat, skuId: string, hubId: string, quantity: Int64)

  predicate Matches(r: Row, skuId: string, hubId: string) { r.skuId == skuId && r.hubId == hubId }

  /** Stored rows have positive, distinct primary keys and are kept in key order. */
  ghost predicate Ordered(rows: seq<Row>)
  {
    && (forall i :: 0 <= i < |rows| ==> rows[i].id > 0)
    && (forall i, j :: 0 <= i < j < |rows| ==> rows[i].id < rows[j].id)
  }

  // ---------------------------------------------------------------------
  // The store

  /** `Where("sku_id = ? AND hub_id = ?").First(&inventory)`: the index of the
      matching row with the smallest primary key, if any. */
  function FirstMatch(rows: seq<Row>, skuId: string, hubId: string): (k: Option<nat>)
    ensures k.Some? ==>
      && k.value < |rows| && Matches(rows[k.value], skuId, hubId)
      && forall j :: 0 <= j < k.value ==> !Matches(rows[j], skuId, hubId)
    ensures k.None? ==> forall j :: 0 <= j < |rows| ==> !Matches(rows[j], skuId, hubId)
  {
    if rows == [] then None
    else if Matches(rows[0], skuId, hubId) then Some(0)
    else match FirstMatch(rows[1..], skuId, hubId)
      case None => None
      case Some(k) => Some(k + 1)
  }

  /** The primary key gorm assigns to an inserted row. */
  function NextId(rows: seq<Row>): nat
  {
    if rows == [] then 1 else rows[|rows| - 1].id + 1
  }

  /** Update by primary key, or insert in key position when the key is new:
      the table grows by at most one row. */
  function Upsert(rows: seq<Row>, row: Row): (r: seq<Row>)
    ensures |rows| <= |r| <= |rows| + 1
  {
    if rows == [] then [row]
    else if row.id == rows[0].id then [row] + rows[1..]
    else if row.id < rows[0].id then [row] + rows
    else [rows[0]] + Upsert(rows[1..], row)
  }

  /** `db.Save(&row)`: a zero primary key inserts the row under a new key;
      otherwise every column of the row with that key is rewritten (and the
      row is inserted if there is none). */
  function SaveRow(rows: seq<Row>, row: Row): (r: seq<Row>)
    ensures row.id == 0 ==> |r| == |rows| + 1 && r[..|rows|] == rows && r[|rows|] == row.(id := NextId(rows))
    ensures row.id != 0 ==> |rows| <= |r| <= |rows| + 1
  {
    if row.id == 0 then rows + [row.(id := NextId(rows))] else Upsert(rows, row)
  }

  /** Upsert stores the row, keeps every stored row with another key and
      brings in no row but the saved one. */
  lemma {:induction false} UpsertKeeps(rows: seq<Row>, row: Row)
    ensures row in Upsert(rows, row)
    ensures forall x :: x in rows && x.id != row.id ==> x in Upsert(rows, row)
    ensures forall x :: x in Upsert(rows, row) ==> x == row || x in rows
  {
    if rows != [] && row.id > rows[0].id {
      UpsertKeeps(rows[1..], row);
      assert rows == [rows[0]] + rows[1..];
    }
  }

  lemma {:induction false} UpsertBound(rows: seq<Row>, row: Row, b: int)
    requires forall i :: 0 <= i < |rows| ==> rows[i].id > b
    requires row.id > b
    ensures forall i :: 0 <= i < |Upsert(rows, row)| ==> Upsert(rows, row)[i].id > b
  {
    if rows != [] && row.id > rows[0].id {
      UpsertBound(rows[1..], row, b);
    }
  }

  lemma {:induction false} UpsertOrdered(rows: seq<Row>, row: Row)
    requires Ordered(rows) && row.id > 0
    ensures Ordered(Upsert(rows, row))
  {
    if rows != [] && row.id > rows[0].id {
      UpsertOrdered(rows[1..], row);
      UpsertBound(rows[1..], row, rows[0].id);
    }
  }

  /** Saving keeps the table in key order with distinct keys. */
  lemma SaveRowOrdered(rows: seq<Row>, row: Row)
    requires Ordered(rows)
    ensures Ordered(SaveRow(rows, row))
  {
    if row.id == 0 {
      var r := SaveRow(rows, row);
      assert forall i :: 0 <= i < |rows| ==> rows[i].id <= rows[|rows| - 1].id;
    } else {
      UpsertOrdered(rows, row);
    }
  }

  /** Saving a row whose key is stored rewrites exactly that row, in place:
      every other row is untouched. */
  lemma {:induction false} SaveRowReplaces(rows: seq<Row>, k: nat, row: Row)
    requires Ordered(rows) && k < |rows| && rows[k].id == row.id
    ensures SaveRow(rows, row) == rows[k := row]
  {
    if k > 0 {
      assert rows[0].id < rows[k].id;
      SaveRowReplaces(rows[1..], k - 1, row);
      assert rows[k := row] == [rows[0]] + rows[1..][k - 1 := row];
    }
  }

  class InventoryTable {
    var rows: seq<Row>

    ghost predicate Valid()
      reads this
    {
      Ordered(rows)
    }

    constructor (initial: seq<Row>)
      requires Ordered(initial)
      ensures Valid() && rows == initial
    {
      rows := initial;
    }

    /** `First(&dest)` under the sku/hub condition. A store failure
      (`lookupFails`) and a missing row both end in an error; gorm leaves
      `dest` as it was then. */
    method First(dest: HubInventory, skuId: string, hubId: string, lookupFails: bool) returns (found: bool)
      requires Valid()
      modifies dest
      ensures found <==> !lookupFails && FirstMatch(rows, skuId, hubId).Some?
      ensures found ==> dest.AsRow() == rows[FirstMatch(rows, skuId, hubId).value]
      ensures !found ==> dest.AsRow() == old(dest.AsRow())
    {
      var k := FirstMatch(rows, skuId, hubId);
      if lookupFails || k.None? {
        return false;
      }
      var row := rows[k.value];
      dest.id, dest.skuId, dest.hubId, dest.quantityOfEachProduct := row.id, row.skuId, row.hubId, row.quantity;
      return true;
    }

    /** `Save(value)`: writes the whole object's row, or fails and writes
      nothing. On an insert gorm back-fills the new key into the object. */
    method Save(value: HubInventory, fails: bool) returns (ok: bool)
      requires Valid()
      modifies this, value`id
      ensures Valid()
      ensures ok <==> !fails
      ensures rows == if fails then old(rows) else SaveRow(old(rows), old(value.AsRow()))
      ensures value.id == if !fails && old(value.id) == 0 then NextId(old(rows)) else old(value.id)
    {
      if fails {
        return false;
      }
      SaveRowOrdered(rows, value.AsRow());
      var saved := value.AsRow();
      if value.id == 0 {
        value.id := NextId(rows);
      }
      rows := SaveRow(rows, saved);
      return true;
    }
  }

  /** The handler's `HubInventory` struct. */
  class HubInventory {
    var id: nat
    var skuId: string
    var hubId: string
    var quantityOfEachProduct: Int64

    /** `var inventory HubInventory`: the zero value. */
    constructor ()
      ensures AsRow() == Row(0, "", "", 0)
    {
      id, skuId, hubId, quantityOfEachProduct := 0, "", "", 0;
    }

    function AsRow(): Row
      reads this
    {
      Row(id, skuId, hubId, quantityOfEachProduct)
    }

    /** `(*HubInventory).ReduceQuantity`: subtract (with Go's 64-bit
      wrap-around) from the in-memory quantity, then save the whole row. The
      in-memory quantity is reduced even when the save fails. */
    method ReduceQuantity(db: InventoryTable, quantity: Int64, saveFails: bool) returns (ok: bool)
      requires db.Valid()
      modifies this, db
      ensures db.Valid()
      ensures ok <==> !saveFails
      ensures quantityOfEachProduct == Sub64(old(quantityOfEachProduct), quantity)
      ensures skuId == old(skuId) && hubId == old(hubId)
      ensures id == if !saveFails && old(id) == 0 then NextId(old(db.rows)) else old(id)
      ensures db.rows == if saveFails then old(db.rows)
                         else SaveRow(old(db.rows), old(AsRow()).(quantity := Sub64(old(quantityOfEachProduct), quantity)))
    {
      quantityOfEachProduct := Sub64(quantityOfEachProduct, quantity);
      ok := db.Save(this, saveFails);
    }
  }

  // ---------------------------------------------------------------------
  // The handler, as a function of the table

  /** What the read-and-compare half of the handler ends in. */
  datatype Loaded = Rejected(reply: Reply) | Accepted(row: Row)

  const NotFoundReply: Reply := Reply(404, ErrorBody("Inventory not found"))
  const InsufficientReply: Reply := Reply(400, ErrorBody("Insufficient inventory"))
  const UpdateFailedReply: Reply := Reply(500, ErrorBody("Failed to update inventory"))
  const UpdatedReply: Reply := Reply(200, MessageBody("Inventory validation and update successful"))

  /** Steps 1 and 2: fetch the first matching row and compare. */
  function Load(rows: seq<Row>, req: ValidateInventoryRequest, lookupFails: bool): (r: Loaded)
    ensures r.Rejected? ==> r.reply.status == 404 || r.reply.status == 400
    ensures r.Accepted? ==>
      && !lookupFails && Matches(r.row, req.skuId, req.hubId)
      && req.quantityOrdered <= r.row.quantity
  {
    var k := FirstMatch(rows, req.skuId, req.hubId);
    if lookupFails || k.None? then Rejected(NotFoundReply)
    else if req.quantityOrdered > rows[k.value].quantity then Rejected(InsufficientReply)
    else Accepted(rows[k.value])
  }

  /** Steps 3 and 4: reduce the quantity of the row read earlier and save it. */
  function Commit(rows: seq<Row>, row: Row, quantity: Int64, saveFails: bool): (r: (Reply, seq<Row>))
    ensures saveFails ==> r == (UpdateFailedReply, rows)
    ensures !saveFails ==> r.0 == UpdatedReply
    ensures |rows| <= |r.1| <= |rows| + 1
  {
    if saveFails then (UpdateFailedReply, rows)
    else (UpdatedReply, SaveRow(rows, row.(quantity := Sub64(row.quantity, quantity))))
  }

  /** The whole handler: a payload that does not bind is 400, then Load, then Commit. */
  function Handle(rows: seq<Row>, payload: Option<ValidateInventoryRequest>, lookupFails: bool, saveFails: bool): (r: (Reply, seq<Row>))
    ensures r.0 != UpdatedReply ==> r.1 == rows
    ensures r.0 == InvalidPayload <==> payload.None?
    ensures r.0 == UpdatedReply <==>
      && payload.Some? && !lookupFails && !saveFails
      && FirstMatch(rows, payload.value.skuId, payload.value.hubId).Some?
      && payload.value.quantityOrdered <= rows[FirstMatch(rows, payload.value.skuId, payload.value.hubId).value].quantity
  {
    match payload
    case None => (InvalidPayload, rows)
    case Some(req) =>
      match Load(rows, req, lookupFails)
      case Rejected(reply) => (reply, rows)
      case Accepted(row) => Commit(rows, row, req.quantityOrdered, saveFails)
  }

  /** No matching row (or a failed lookup): 404 and the table is unchanged,
      whatever the quantity. */
  lemma HandleNotFound(rows: seq<Row>, req: ValidateInventoryRequest, lookupFails: bool, saveFails: bool)
    requires lookupFails || forall j :: 0 <= j < |rows| ==> !Matches(rows[j], req.skuId, req.hubId)
    ensures Handle(rows, Some(req), lookupFails, saveFails) == (NotFoundReply, rows)
  {
  }

  /** More than is on hand: 400 and the table is unchanged. */
  lemma HandleInsufficient(rows: seq<Row>, req: ValidateInventoryRequest, k: nat, saveFails: bool)
    requires FirstMatch(rows, req.skuId, req.hubId) == Some(k)
    requires req.quantityOrdered > rows[k].quantity
    ensures Handle(rows, Some(req), false, saveFails) == (InsufficientReply, rows)
  {
  }

  /** Enough on hand and the save succeeds: 200, the matched row's quantity
      becomes Q - R (wrapped to 64 bits), every other row is untouched, and for
      R >= 0 the new quantity is exactly Q - R and not negative. */
  lemma HandleDeducts(rows: seq<Row>, req: ValidateInventoryRequest, k: nat)
    requires Ordered(rows)
    requires FirstMatch(rows, req.skuId, req.hubId) == Some(k)
    requires req.quantityOrdered <= rows[k].quantity
    ensures var (reply, after) := Handle(rows, Some(req), false, false);
      && reply == UpdatedReply
      && after == rows[k := rows[k].(quantity := Sub64(rows[k].quantity, req.quantityOrdered))]
      && Ordered(after)
      && (req.quantityOrdered >= 0 ==> 0 <= after[k].quantity == rows[k].quantity - req.quantityOrdered)
  {
    var row := rows[k].(quantity := Sub64(rows[k].quantity, req.quantityOrdered));
    SaveRowReplaces(rows, k, row);
    SaveRowOrdered(rows, row);
  }

  /** Enough on hand but the save fails: 500 and the stored table is unchanged. */
  lemma HandleSaveFails(rows: seq<Row>, req: ValidateInventoryRequest, k: nat)
    requires FirstMatch(rows, req.skuId, req.hubId) == Some(k)
    requires req.quantityOrdered <= rows[k].quantity
    ensures Handle(rows, Some(req), false, true) == (UpdateFailedReply, rows)
  {
  }

  /** Ordering all that is on hand leaves 0; one more is refused and changes nothing. */
  lemma HandleBoundaries(rows: seq<Row>, req: ValidateInventoryRequest, k: nat)
    requires Ordered(rows)
    requires FirstMatch(rows, req.skuId, req.hubId) == Some(k)
    ensures req.quantityOrdered == rows[k].quantity ==>
      k < |Handle(rows, Some(req), false, false).1| && Handle(rows, Some(req), false, false).1[k].quantity == 0
    ensures req.quantityOrdered == rows[k].quantity + 1 ==>
      Handle(rows, Some(req), false, false) == (InsufficientReply, rows)
  {
    if req.quantityOrdered <= rows[k].quantity {
      HandleDeducts(rows, req, k);
    }
  }

  /** A negative quantity is not rejected: it passes the check and raises the
      stock by |R|, or, past the 64-bit limit, wraps the stock negative. */
  lemma HandleNegativeQuantity(rows: seq<Row>, req: ValidateInventoryRequest, k: nat)
    requires Ordered(rows)
    requires FirstMatch(rows, req.skuId, req.hubId) == Some(k)
    requires req.quantityOrdered < 0 <= rows[k].quantity
    ensures Handle(rows, Some(req), false, false).0 == UpdatedReply
    ensures |Handle(rows, Some(req), false, false).1| == |rows|
    ensures rows[k].quantity - req.quantityOrdered <= MaxInt64 ==>
      k < |Handle(rows, Some(req), false, false).1| &&
      Handle(rows, Some(req), false, false).1[k].quantity == rows[k].quantity as int + (0 - req.quantityOrdered as int)
    ensures rows[k].quantity - req.quantityOrdered > MaxInt64 ==>
      k < |Handle(rows, Some(req), false, false).1| &&
      Handle(rows, Some(req), false, false).1[k].quantity < 0
  {
    HandleDeducts(rows, req, k);
  }

  /** The lost update. Two requests for the same row both read quantity Q
      before either saves; both pass the comparison and both save Q - R, so
      the table ends with Q - R, not Q - 2R. */
  lemma LostUpdate(rows: seq<Row>, req: ValidateInventoryRequest, k: nat)
    requires Ordered(rows)
    // rows[k] is the first row for this SKU and hub
    requires k < |rows| && Matches(rows[k], req.skuId, req.hubId)
    requires forall j :: 0 <= j < k ==> !Matches(rows[j], req.skuId, req.hubId)
    requires 0 <= req.quantityOrdered <= rows[k].quantity
    // Both reads see the same row, rows[k], because neither write has happened yet.
    ensures Load(rows, req, false) == Accepted(rows[k])
    // Both writes succeed, and the second rewrites the row to the value the first left.
    ensures Commit(rows, rows[k], req.quantityOrdered, false)
      == (UpdatedReply, rows[k := rows[k].(quantity := rows[k].quantity - req.quantityOrdered)])
    ensures Commit(rows[k := rows[k].(quantity := rows[k].quantity - req.quantityOrdered)], rows[k], req.quantityOrdered, false)
      == (UpdatedReply, rows[k := rows[k].(quantity := rows[k].quantity - req.quantityOrdered)])
  {
    assert Load(rows, req, false) == Accepted(rows[k]) by {
      FirstMatchAt(rows, req.skuId, req.hubId, k);
      LoadAccepts(rows, req, k);
    }
    CommitTwice(rows, k, rows[k], req.quantityOrdered);
  }

  /** FirstMatch finds the row that matches with no match before it. */
  lemma {:induction false} FirstMatchAt(rows: seq<Row>, skuId: string, hubId: string, k: nat)
    requires k < |rows| && Matches(rows[k], skuId, hubId)
    requires forall j :: 0 <= j < k ==> !Matches(rows[j], skuId, hubId)
    ensures FirstMatch(rows, skuId, hubId) == Some(k)
  {
    if k > 0 {
      assert !Matches(rows[0], skuId, hubId);
      assert forall j :: 0 <= j < k - 1 ==> rows[1..][j] == rows[j + 1];
      FirstMatchAt(rows[1..], skuId, hubId, k - 1);
    }
  }

  /** Committing the same row twice leaves what committing it once does. */
  lemma CommitTwice(rows: seq<Row>, k: nat, row: Row, q: Int64)
    requires Ordered(rows) && k < |rows| && rows[k].id == row.id
    requires 0 <= q <= row.quantity
    ensures var after := rows[k := row.(quantity := row.quantity - q)];
      && Commit(rows, row, q, false) == (UpdatedReply, after)
      && Commit(after, row, q, false) == (UpdatedReply, after)
  {
    CommitRewrites(rows, k, row, q);
    var after := rows[k := row.(quantity := row.quantity - q)];
    CommitRewrites(after, k, row, q);
    assert after[k := row.(quantity := row.quantity - q)] == after;
  }

  /** A successful commit of a row whose key is stored at index k rewrites
      that row only, and keeps the table ordered; for 0 <= quantity <= the
      row's quantity the new quantity is the exact difference. */
  lemma CommitRewrites(rows: seq<Row>, k: nat, row: Row, quantity: Int64)
    requires Ordered(rows) && k < |rows| && rows[k].id == row.id
    requires 0 <= quantity <= row.quantity
    ensures Commit(rows, row, quantity, false) == (UpdatedReply, rows[k := row.(quantity := row.quantity - quantity)])
    ensures Ordered(rows[k := row.(quantity := row.quantity - quantity)])
  {
    var saved := row.(quantity := Sub64(row.quantity, quantity));
    assert saved == row.(quantity := row.quantity - quantity);
    SaveRowReplaces(rows, k, saved);
    SaveRowOrdered(rows, saved);
  }

  /** Enough on hand: the read-and-compare half accepts the first matching row. */
  lemma LoadAccepts(rows: seq<Row>, req: ValidateInventoryRequest, k: nat)
    requires FirstMatch(rows, req.skuId, req.hubId) == Some(k)
    requires req.quantityOrdered <= rows[k].quantity
    ensures Load(rows, req, false) == Accepted(rows[k])
  {
  }


  /** The same two requests run one after the other deduct twice (or the
      second is refused), which is what the interleaving above loses. */
  lemma SequentialDeductsTwice(rows: seq<Row>, req: ValidateInventoryRequest, k: nat)
    requires Ordered(rows)
    requires FirstMatch(rows, req.skuId, req.hubId) == Some(k)
    requires 0 <= req.quantityOrdered && 2 * req.quantityOrdered <= rows[k].quantity
    ensures var (_, once) := Handle(rows, Some(req), false, false);
      var (reply, twice) := Handle(once, Some(req), false, false);
      reply == UpdatedReply && k < |twice| && twice[k].quantity == rows[k].quantity - 2 * req.quantityOrdered
  {
    HandleDeducts(rows, req, k);
    var once := Handle(rows, Some(req), false, false).1;
    FirstMatchAfterUpdate(rows, req, k, once[k]);
    HandleDeducts(once, req, k);
  }

  /** Changing only the quantity of the first matching row keeps it the first match. */
  lemma {:induction false} FirstMatchAfterUpdate(rows: seq<Row>, req: ValidateInventoryRequest, k: nat, row: Row)
    requires FirstMatch(rows, req.skuId, req.hubId) == Some(k)
    requires row.skuId == rows[k].skuId && row.hubId == rows[k].hubId
    ensures FirstMatch(rows[k := row], req.skuId, req.hubId) == Some(k)
  {
    if k > 0 {
      FirstMatchAfterUpdate(rows[1..], req, k - 1, row);
      assert rows[k := row][1..] == rows[1..][k - 1 := row];
    }
  }

  /** The concrete case: 10 on hand, two interleaved orders of 6 both succeed
      and leave 4, where run one after the other the second would be refused. */
  lemma LostUpdateExample()
    ensures var rows := [Row(1, "S1", "H1", 10)];
      var req := ValidateInventoryRequest("S1", 6, "H1");
      var a := Load(rows, req, false);
      var b := Load(rows, req, false);
      a.Accepted? && b.Accepted? &&
      var (replyA, afterA) := Commit(rows, a.row, 6, false);
      var (replyB, afterB) := Commit(afterA, b.row, 6, false);
      && replyA == UpdatedReply && replyB == UpdatedReply && afterB == [Row(1, "S1", "H1", 4)]
      && Handle(afterA, Some(req), false, false) == (InsufficientReply, afterA)
  {
    var rows := [Row(1, "S1", "H1", 10)];
    var req := ValidateInventoryRequest("S1", 6, "H1");
    LostUpdate(rows, req, 0);
  }

  // ---------------------------------------------------------------------
  // The handler, as a method on the table

  /** Steps 1 and 2 on the live table: a fresh struct, filled by First and compared. */
  method LoadInventory(db: InventoryTable, req: ValidateInventoryRequest, lookupFails: bool)
    returns (inventory: HubInventory, rejection: Option<Reply>)
    requires db.Valid()
    ensures fresh(inventory)
    ensures Load(db.rows, req, lookupFails) ==
      if rejection.Some? then Rejected(rejection.value) else Accepted(inventory.AsRow())
  {
    inventory := new HubInventory();
    var found := db.First(inventory, req.skuId, req.hubId, lookupFails);
    if !found {
      return inventory, Some(NotFoundReply);
    }
    if req.quantityOrdered > inventory.quantityOfEachProduct {
      return inventory, Some(InsufficientReply);
    }
    return inventory, None;
  }

  /** Steps 3 and 4 on the live table: ReduceQuantity, then the reply. */
  method UpdateInventory(db: InventoryTable, inventory: HubInventory, quantity: Int64, saveFails: bool)
    returns (reply: Reply)
    requires db.Valid()
    modifies db, inventory
    ensures db.Valid()
    ensures (reply, db.rows) == Commit(old(db.rows), old(inventory.AsRow()), quantity, saveFails)
    ensures inventory.quantityOfEachProduct == Sub64(old(inventory.quantityOfEachProduct), quantity)
  {
    var ok := inventory.ReduceQuantity(db, quantity, saveFails);
    if !ok {
      return UpdateFailedReply;
    }
    return UpdatedReply;
  }

  /** `ValidateAndUpdateInventory`: the handler run on the live table. */
  method ValidateAndUpdateInventory(db: InventoryTable, payload: Option<ValidateInventoryRequest>,
                                    lookupFails: bool, saveFails: bool) returns (reply: Reply)
    requires db.Valid()
    modifies db
    ensures db.Valid()
    ensures (reply, db.rows) == Handle(old(db.rows), payload, lookupFails, saveFails)
  {
    if payload.None? {
      return InvalidPayload;
    }
    var req := payload.value;
    var inventory, rejection := LoadInventory(db, req, lookupFails);
    if rejection.Some? {
      return rejection.value;
    }
    reply := UpdateInventory(db, inventory, req.quantityOrdered, saveFails);
  }

  /** Two handlers for the same row interleaved as read, read, write, write:
      both reply 200 and the table keeps only one deduction. */
  method InterleavedRequests(db: InventoryTable, req: ValidateInventoryRequest) returns (replyA: Reply, replyB: Reply)
    requires db.Valid()
    requires FirstMatch(db.rows, req.skuId, req.hubId).Some?
    requires 0 <= req.quantityOrdered <= db.rows[FirstMatch(db.rows, req.skuId, req.hubId).value].quantity
    modifies db
    ensures replyA == UpdatedReply && replyB == UpdatedReply
    ensures var k := FirstMatch(old(db.rows), req.skuId, req.hubId).value;
      db.rows == old(db.rows)[k := old(db.rows)[k].(quantity := old(db.rows)[k].quantity - req.quantityOrdered)]
  {
    ghost var rows := db.rows;
    ghost var k := FirstMatch(rows, req.skuId, req.hubId).value;
    LostUpdate(rows, req, k);
    ghost var loaded := Load(rows, req, false);
    ghost var mid := Commit(rows, loaded.row, req.quantityOrdered, false).1;
    var a, rejectA := LoadInventory(db, req, false);
    assert rejectA.None? && a.AsRow() == loaded.row;
    var b, rejectB := LoadInventory(db, req, false);
    assert rejectB.None? && b.AsRow() == loaded.row && a != b;
    replyA := UpdateInventory(db, a, req.quantityOrdered, false);
    assert db.rows == mid && b.AsRow() == loaded.row;
    replyB := UpdateInventory(db, b, req.quantityOrdered, false);
  }
}
