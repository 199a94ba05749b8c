/** `controllers/controller.go`: the hub and SKU handlers and the order
    validation that checks a hub and an SKU and reduces the two outcomes.
    The database is abstracted to what each gorm call returns; the two
    goroutines and the channel are replaced by the sequence of outcomes the
    consumer receives, in arrival order. */
module Controllers {
  import opened Common
  import opened Http

  /** The fields of `models.Hub` and `models.SKU` the controllers read. */
  datatype Hub = Hub(id: string, managerName: string, managerEmail: string)
  datatype SKU = SKU(id: string, productId: nat)

  /** What `First(&record, id)` returns: the record, or an error (record not
      found or any other store failure; the handlers do not tell them apart). */
  datatype Lookup<T> = Found(record: T) | LookupFailed(err: string)

  /** What `Find(&records)` returns. */
  datatype ListResult<T> = Rows(rows: seq<T>) | ListFailed(err: string)

  // ---------------------------------------------------------------------
  // Listing and get-by-id

  function ListReply<T>(result: ListResult<T>, fetchError: string, emptyMessage: string, key: string): Reply
  {
    match result
    case ListFailed(_) => Reply(500, ErrorBody(fetchError))
    case Rows(rows) => if |rows| == 0 then Reply(404, MessageBody(emptyMessage)) else Reply(200, DataBody(key))
  }

  /** `GetAllHubs`: 500 when the store fails, 404 when there are no hubs,
      otherwise 200 with the hubs. */
  function GetAllHubs(result: ListResult<Hub>): (reply: Reply)
    ensures reply.status == 500 <==> result.ListFailed?
    ensures reply.status == 404 <==> result.Rows? && result.rows == []
    ensures reply.status == 200 <==> result.Rows? && result.rows != []
    ensures reply.body == match reply.status
      case 500 => ErrorBody("Failed to fetch hubs")
      case 404 => MessageBody("No hubs found")
      case _ => DataBody("hubs")
  {
    ListReply(result, "Failed to fetch hubs", "No hubs found", "hubs")
  }

  /** `GetAllSKUs`: 500 when the store fails, 404 when there are no SKUs,
      otherwise 200 with the SKUs. */
  function GetAllSKUs(result: ListResult<SKU>): (reply: Reply)
    ensures reply.status == 500 <==> result.ListFailed?
    ensures reply.status == 404 <==> result.Rows? && result.rows == []
    ensures reply.status == 200 <==> result.Rows? && result.rows != []
    ensures reply.body == match reply.status
      case 500 => ErrorBody("Failed to fetch SKUs")
      case 404 => MessageBody("No SKUs found")
      case _ => DataBody("skus")
  {
    ListReply(result, "Failed to fetch SKUs", "No SKUs found", "skus")
  }

  function GetByIDReply<T>(id: string, find: string -> Lookup<T>, notFound: string, key: string): Reply
  {
    if id == "" then Reply(400, ErrorBody("ID parameter is required"))
    else if find(id).LookupFailed? then Reply(404, ErrorBody(notFound))
    else Reply(200, DataBody(key))
  }

  /** `GetHubByID`: 400 for an empty id (the store is not consulted), 404 when
      the lookup fails, 200 with the hub otherwise. */
  function GetHubByID(id: string, findHub: string -> Lookup<Hub>): (reply: Reply)
    ensures id == "" ==> reply == Reply(400, ErrorBody("ID parameter is required"))
    ensures id != "" && findHub(id).LookupFailed? ==> reply == Reply(404, ErrorBody("Hub not found"))
    ensures reply.status == 200 <==> id != "" && findHub(id).Found?
    ensures reply.status == 200 ==> reply.body == DataBody("hub")
  {
    GetByIDReply(id, findHub, "Hub not found", "hub")
  }

  /** `GetSKUByID`: 400 for an empty id, 404 when the lookup fails, 200 with
      the SKU otherwise. */
  function GetSKUByID(id: string, findSku: string -> Lookup<SKU>): (reply: Reply)
    ensures id == "" ==> reply == Reply(400, ErrorBody("ID parameter is required"))
    ensures id != "" && findSku(id).LookupFailed? ==> reply == Reply(404, ErrorBody("SKU not found"))
    ensures reply.status == 200 <==> id != "" && findSku(id).Found?
    ensures reply.status == 200 ==> reply.body == DataBody("sku")
  {
    GetByIDReply(id, findSku, "SKU not found", "sku")
  }

  // ---------------------------------------------------------------------
  // Creation

  /** `CreateHub`, over the hub table: a payload that does not bind is 400; a
      hub without a manager email or name is 400 and nothing is inserted; a
      failed insert is 500; otherwise the hub is appended and the reply is 201. */
  function CreateHub(payload: Option<Hub>, hubs: seq<Hub>, insertFails: bool): (r: (Reply, seq<Hub>))
    ensures r.0.status == 201 <==>
      payload.Some? && payload.value.managerEmail != "" && payload.value.managerName != "" && !insertFails
    ensures r.0.status == 201 ==> r.1 == hubs + [payload.value]
    ensures r.0.status != 201 ==> r.1 == hubs
    ensures payload.None? ==> r.0 == InvalidPayload
    ensures payload.Some? && (payload.value.managerEmail == "" || payload.value.managerName == "") ==>
      r.0 == Reply(400, ErrorBody("Manager email and name are required"))
    ensures payload.Some? && payload.value.managerEmail != "" && payload.value.managerName != "" && insertFails ==>
      r.0 == Reply(500, ErrorBody("Failed to create hub"))
    ensures r.0.status == 201 ==> r.0 == Reply(201, MessageBody("Hub created successfully"))
  {
    match payload
    case None => (InvalidPayload, hubs)
    case Some(newHub) =>
      if newHub.managerEmail == "" || newHub.managerName == "" then
        (Reply(400, ErrorBody("Manager email and name are required")), hubs)
      else if insertFails then (Reply(500, ErrorBody("Failed to create hub")), hubs)
      else (Reply(201, MessageBody("Hub created successfully")), hubs + [newHub])
  }

  /** `CreateSKU`, over the SKU table: a payload that does not bind is 400; an
      SKU whose ProductID is 0 is 400 and nothing is inserted; a failed insert
      is 500; otherwise the SKU is appended and the reply is 201. */
  function CreateSKU(payload: Option<SKU>, skus: seq<SKU>, insertFails: bool): (r: (Reply, seq<SKU>))
    ensures r.0.status == 201 <==> payload.Some? && payload.value.productId != 0 && !insertFails
    ensures r.0.status == 201 ==> r.1 == skus + [payload.value]
    ensures r.0.status != 201 ==> r.1 == skus
    ensures payload.None? ==> r.0 == InvalidPayload
    ensures payload.Some? && payload.value.productId == 0 ==>
      r.0 == Reply(400, ErrorBody("Product ID is required"))
    ensures payload.Some? && payload.value.productId != 0 && insertFails ==>
      r.0 == Reply(500, ErrorBody("Failed to create SKU"))
    ensures r.0.status == 201 ==> r.0 == Reply(201, MessageBody("SKU created successfully"))
  {
    match payload
    case None => (InvalidPayload, skus)
    case Some(newSKU) =>
      if newSKU.productId == 0 then (Reply(400, ErrorBody("Product ID is required")), skus)
      else if insertFails then (Reply(500, ErrorBody("Failed to create SKU")), skus)
      else (Reply(201, MessageBody("SKU created successfully")), skus + [newSKU])
  }

  // ---------------------------------------------------------------------
  // ValidateHubAndSKU: the checks

  /** `models.ValidationResponse`. */
  datatype ValidationResponse = ValidationResponse(isValid: bool, error: Option<string>)

  /** Every outcome a check emits is either invalid with an error or valid without one. */
  predicate WellFormed(o: ValidationResponse) { o.isValid <==> o.error.None? }

  const HubFailurePrefix: string := "hub validation failed: "
  const SkuFailurePrefix: string := "SKU validation failed: "

  /** The hub goroutine's one outcome. */
  function HubCheck(lookup: Lookup<Hub>): (o: ValidationResponse)
    ensures WellFormed(o)
    ensures o.isValid <==> lookup.Found?
    ensures !o.isValid ==> o.error.value == HubFailurePrefix + lookup.err
  {
    match lookup
    case Found(_) => ValidationResponse(true, None)
    case LookupFailed(err) => ValidationResponse(false, Some(HubFailurePrefix + err))
  }

  /** The SKU goroutine's one outcome. */
  function SkuCheck(lookup: Lookup<SKU>): (o: ValidationResponse)
    ensures WellFormed(o)
    ensures o.isValid <==> lookup.Found?
    ensures !o.isValid ==> o.error.value == SkuFailurePrefix + lookup.err
  {
    match lookup
    case Found(_) => ValidationResponse(true, None)
    case LookupFailed(err) => ValidationResponse(false, Some(SkuFailurePrefix + err))
  }

  /** The channel's contents in arrival order: either check may finish first. */
  function Arrivals(hub: ValidationResponse, sku: ValidationResponse, hubFirst: bool): (c: seq<ValidationResponse>)
    ensures multiset(c) == multiset{hub, sku}
  {
    if hubFirst then [hub, sku] else [sku, hub]
  }

  // ---------------------------------------------------------------------
  // ValidateHubAndSKU: the reducer

  /** Reference meaning of the reducer: valid with no error when every outcome
      is valid, else invalid with the error of the first invalid outcome. */
  function Aggregate(outcomes: seq<ValidationResponse>): ValidationResponse
  {
    if outcomes == [] then ValidationResponse(true, None)
    else if !outcomes[0].isValid then ValidationResponse(false, outcomes[0].error)
    else Aggregate(outcomes[1..])
  }

  /** The `for resp := range respChan` loop: start valid, and at the first
      invalid outcome take its error and break. */
  method Reduce(respChan: seq<ValidationResponse>) returns (finalResponse: ValidationResponse)
    ensures finalResponse == Aggregate(respChan)
  {
    finalResponse := ValidationResponse(true, None);
    var i := 0;
    while i < |respChan|
      invariant 0 <= i <= |respChan|
      invariant finalResponse == ValidationResponse(true, None)
      invariant Aggregate(respChan) == Aggregate(respChan[i..])
    {
      var resp := respChan[i];
      if !resp.isValid {
        finalResponse := finalResponse.(isValid := false, error := resp.error);
        break;
      }
      assert respChan[i..][1..] == respChan[i + 1..];
      i := i + 1;
    }
  }

  /** The aggregate is valid exactly when every outcome is. */
  lemma {:induction false} AggregateValid(outcomes: seq<ValidationResponse>)
    ensures Aggregate(outcomes).isValid <==> forall i :: 0 <= i < |outcomes| ==> outcomes[i].isValid
  {
    if outcomes != [] && outcomes[0].isValid {
      AggregateValid(outcomes[1..]);
      assert forall i :: 1 <= i < |outcomes| ==> outcomes[i] == outcomes[1..][i - 1];
    }
  }

  /** When the aggregate is invalid, its error is that of the first invalid
      outcome; the outcomes after it are never looked at. */
  lemma {:induction false} AggregateFirstFailure(outcomes: seq<ValidationResponse>, k: nat)
    requires k < |outcomes| && !outcomes[k].isValid
    requires forall j :: 0 <= j < k ==> outcomes[j].isValid
    ensures Aggregate(outcomes) == ValidationResponse(false, outcomes[k].error)
  {
    if k > 0 {
      AggregateFirstFailure(outcomes[1..], k - 1);
    }
  }

  /** The final validity does not depend on the order the outcomes arrive in. */
  lemma AggregateOrderIndependent(a: seq<ValidationResponse>, b: seq<ValidationResponse>)
    requires multiset(a) == multiset(b)
    ensures Aggregate(a).isValid == Aggregate(b).isValid
  {
    AggregateValid(a);
    AggregateValid(b);
    if !Aggregate(a).isValid {
      var i :| 0 <= i < |a| && !a[i].isValid;
      assert a[i] in multiset(b);
    }
    if !Aggregate(b).isValid {
      var i :| 0 <= i < |b| && !b[i].isValid;
      assert b[i] in multiset(a);
    }
  }

  /** From well-formed outcomes the reducer builds a well-formed aggregate:
      an invalid aggregate always carries an error. */
  lemma {:induction false} AggregateWellFormed(outcomes: seq<ValidationResponse>)
    requires forall i :: 0 <= i < |outcomes| ==> WellFormed(outcomes[i])
    ensures WellFormed(Aggregate(outcomes))
  {
    if outcomes != [] && outcomes[0].isValid {
      AggregateWellFormed(outcomes[1..]);
    }
  }

  // ---------------------------------------------------------------------
  // ValidateHubAndSKU: the channel

  /** A send or a receive on the result channel. */
  datatype ChannelOp = Send | Receive

  /** The channel is made with capacity 2, one slot per producing goroutine. */
  const ChannelCapacity: nat := 2
  const Producers: nat := 2

  function Sends(ops: seq<ChannelOp>): nat
  {
    if ops == [] then 0 else Sends(ops[..|ops| - 1]) + (if ops[|ops| - 1] == Send then 1 else 0)
  }

  /** The number of outcomes buffered after a run of operations (a receive
      only takes place when an outcome is buffered). */
  function Buffered(ops: seq<ChannelOp>): nat
  {
    if ops == [] then 0
    else
      var n := Buffered(ops[..|ops| - 1]);
      if ops[|ops| - 1] == Send then n + 1 else if n > 0 then n - 1 else 0
  }

  lemma {:induction false} BufferedAtMostSends(ops: seq<ChannelOp>)
    ensures Buffered(ops) <= Sends(ops)
  {
    if ops != [] {
      BufferedAtMostSends(ops[..|ops| - 1]);
    }
  }

  lemma {:induction false} SendsMonotone(ops: seq<ChannelOp>, k: nat)
    requires k <= |ops|
    ensures Sends(ops[..k]) <= Sends(ops)
    decreases |ops| - k
  {
    if k < |ops| {
      var t := ops[..|ops| - 1];
      assert ops[..k] == t[..k];
      SendsMonotone(t, k);
    } else {
      assert ops[..k] == ops;
    }
  }

  /** Whatever the consumer does (it may stop receiving after the first
      failure), as long as each of the two goroutines sends at most once, no
      send ever finds the channel full, so no goroutine is left blocked. */
  lemma ChannelNeverBlocks(ops: seq<ChannelOp>)
    requires Sends(ops) <= Producers
    ensures forall k :: 0 <= k < |ops| && ops[k] == Send ==> Buffered(ops[..k]) < ChannelCapacity
  {
    forall k | 0 <= k < |ops| && ops[k] == Send
      ensures Buffered(ops[..k]) < ChannelCapacity
    {
      BufferedAtMostSends(ops[..k]);
      SendsMonotone(ops, k + 1);
      assert ops[..k + 1][..k] == ops[..k];
    }
  }

  // ---------------------------------------------------------------------
  // ValidateHubAndSKU: the handler

  /** The fields of `models.ValidateOrderRequest` the handler reads. */
  datatype ValidateOrderRequest = ValidateOrderRequest(skuId: string, hubId: string)

  /** The aggregate decision for the two lookups, in the given arrival order. */
  function ValidateReferences(hub: Lookup<Hub>, sku: Lookup<SKU>, hubFirst: bool): (v: ValidationResponse)
    ensures WellFormed(v)
  {
    AggregateWellFormed(Arrivals(HubCheck(hub), SkuCheck(sku), hubFirst));
    Aggregate(Arrivals(HubCheck(hub), SkuCheck(sku), hubFirst))
  }

  /** Both lookups succeed: valid. Exactly one fails: invalid with that side's
      error. Both fail: invalid with the error of whichever arrived first,
      which names one side only. Validity is the same for both arrival orders. */
  lemma ValidateReferencesMeaning(hub: Lookup<Hub>, sku: Lookup<SKU>, hubFirst: bool)
    ensures var v := ValidateReferences(hub, sku, hubFirst);
      && WellFormed(v)
      && (v.isValid <==> hub.Found? && sku.Found?)
      && v.isValid == ValidateReferences(hub, sku, !hubFirst).isValid
      && (hub.LookupFailed? && sku.Found? ==> v.error == Some(HubFailurePrefix + hub.err))
      && (hub.Found? && sku.LookupFailed? ==> v.error == Some(SkuFailurePrefix + sku.err))
      && (hub.LookupFailed? && sku.LookupFailed? ==>
            v.error == Some(if hubFirst then HubFailurePrefix + hub.err else SkuFailurePrefix + sku.err))
  {
    var h, s := HubCheck(hub), SkuCheck(sku);
    AggregateValid(Arrivals(h, s, hubFirst));
    AggregateWellFormed(Arrivals(h, s, hubFirst));
    AggregateOrderIndependent(Arrivals(h, s, hubFirst), Arrivals(h, s, !hubFirst));
  }

  /** The two failure messages cannot be confused: none begins with both prefixes. */
  lemma FailurePrefixesDistinct(msg: string)
    ensures !(HubFailurePrefix <= msg && SkuFailurePrefix <= msg)
  {
    if HubFailurePrefix <= msg {
      assert msg[0] == HubFailurePrefix[0] == 'h';
    }
  }

  /** The reply for an aggregate decision. */
  function ValidationReply(v: ValidationResponse): Reply
    requires WellFormed(v)
  {
    if v.isValid then Reply(200, MessageBody("Validation successful"))
    else Reply(400, ErrorBody(v.error.value))
  }

  /** `ValidateHubAndSKU`: a payload that does not bind is 400; otherwise
      the hub and the SKU are each looked up once, the outcomes are received in
      arrival order (`hubFirst` says which came first) and reduced, and the
      reply is 200 exactly when both exist, else 400 naming one failed side. */
  method ValidateHubAndSKU(request: Option<ValidateOrderRequest>, findHub: string -> Lookup<Hub>,
                           findSku: string -> Lookup<SKU>, hubFirst: bool) returns (reply: Reply)
    ensures request.None? ==> reply == InvalidPayload
    ensures request.Some? ==>
      (reply.status == 200 <==> findHub(request.value.hubId).Found? && findSku(request.value.skuId).Found?)
    ensures request.Some? && reply.status != 200 ==>
      reply.status == 400 && reply.body.ErrorBody? &&
      (HubFailurePrefix <= reply.body.error || SkuFailurePrefix <= reply.body.error)
    ensures request.Some? ==>
      reply == ValidationReply(ValidateReferences(findHub(request.value.hubId), findSku(request.value.skuId), hubFirst))
  {
    if request.None? {
      return InvalidPayload;
    }
    var hubLookup := findHub(request.value.hubId);
    var skuLookup := findSku(request.value.skuId);
    var respChan := Arrivals(HubCheck(hubLookup), SkuCheck(skuLookup), hubFirst);
    var finalResponse := Reduce(respChan);
    ValidateReferencesMeaning(hubLookup, skuLookup, hubFirst);
    if finalResponse.isValid {
      reply := Reply(200, MessageBody("Validation successful"));
    } else {
      reply := Reply(400, ErrorBody(finalResponse.error.value));
    }
  }
}
