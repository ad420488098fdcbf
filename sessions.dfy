/**
 * Any sequence of mutating requests, from any callers, run against the store one after the
 * other. The lemmas here lift the per-handler guards to whole histories: nobody but the owner
 * changes or removes a record, a record's owner never changes, and every new record belongs
 * to the caller who asked for it.
 */
module Sessions {
  import opened Wrappers
  import opened Store
  import opened Http
  import ProductSpec
  import CommentSpec
  import UserSpec

  datatype Request =
    | CreateProductReq(caller: Option<UserId>, title: Field, description: Field, imageUrl: Field)
    | UpdateProductReq(caller: Option<UserId>, id: Id, title: Field, description: Field, imageUrl: Field)
    | DeleteProductReq(caller: Option<UserId>, id: Id)
    | CreateCommentReq(caller: Option<UserId>, productId: Id, content: Field)
    | DeleteCommentReq(caller: Option<UserId>, commentId: Id)
    | SyncUserReq(caller: Option<UserId>, email: Field, name: Field, imageUrl: Field)

  /** Routes one request to its handler. */
  function Handle(t: Tables, req: Request): (o: Outcome)
    requires t.Valid()
    ensures o.tables.Valid()
    ensures t.nextProductId <= o.tables.nextProductId && t.nextCommentId <= o.tables.nextCommentId
  {
    match req
    case CreateProductReq(caller, title, description, imageUrl) =>
      ProductSpec.CreateProduct(t, caller, title, description, imageUrl)
    case UpdateProductReq(caller, id, title, description, imageUrl) =>
      ProductSpec.UpdateProduct(t, caller, id, title, description, imageUrl)
    case DeleteProductReq(caller, id) =>
      ProductSpec.DeleteProduct(t, caller, id)
    case CreateCommentReq(caller, productId, content) =>
      CommentSpec.CreateComment(t, caller, productId, content)
    case DeleteCommentReq(caller, commentId) =>
      CommentSpec.DeleteComment(t, caller, commentId)
    case SyncUserReq(caller, email, name, imageUrl) =>
      UserSpec.SyncUser(t, caller, email, name, imageUrl)
  }

  /** The store after handling every request of `rs`, first to last. */
  function Run(t: Tables, rs: seq<Request>): (t': Tables)
    requires t.Valid()
    ensures t'.Valid()
    ensures t.nextProductId <= t'.nextProductId && t.nextCommentId <= t'.nextCommentId
    decreases |rs|
  {
    if rs == [] then t else Run(Handle(t, rs[0]).tables, rs[1..])
  }

  /** One request by a caller other than `u` leaves every record `u` owns as it was. */
  lemma HandleSparesOthersRecords(t: Tables, req: Request, u: UserId)
    requires t.Valid() && req.caller != Some(u)
    ensures var t' := Handle(t, req).tables;
      && (forall id :: id in t.products && t.products[id].userId == u ==>
            id in t'.products && t'.products[id] == t.products[id])
      && (forall id :: id in t.comments && t.comments[id].userId == u ==>
            id in t'.comments && t'.comments[id] == t.comments[id])
  {
  }

  /**
   * Only the owner can mutate or delete a record: however many requests others send, every
   * product and comment `u` owns is still there, unchanged.
   */
  lemma {:induction false} OthersCannotTouchOwnedRecords(t: Tables, rs: seq<Request>, u: UserId)
    requires t.Valid()
    requires forall i :: 0 <= i < |rs| ==> rs[i].caller != Some(u)
    ensures var t' := Run(t, rs);
      && (forall id :: id in t.products && t.products[id].userId == u ==>
            id in t'.products && t'.products[id] == t.products[id])
      && (forall id :: id in t.comments && t.comments[id].userId == u ==>
            id in t'.comments && t'.comments[id] == t.comments[id])
    decreases |rs|
  {
    if rs != [] {
      HandleSparesOthersRecords(t, rs[0], u);
      OthersCannotTouchOwnedRecords(Handle(t, rs[0]).tables, rs[1..], u);
    }
  }

  /** An id that was issued and then removed is never issued again. */
  lemma {:induction false} RemovedIdsStayRemoved(t: Tables, rs: seq<Request>, id: Id)
    requires t.Valid()
    ensures id < t.nextProductId && id !in t.products ==> id !in Run(t, rs).products
    ensures id < t.nextCommentId && id !in t.comments ==> id !in Run(t, rs).comments
    decreases |rs|
  {
    if rs != [] {
      RemovedIdsStayRemoved(Handle(t, rs[0]).tables, rs[1..], id);
    }
  }

  /**
   * Ownership is immutable: a product present before and after any history has the same
   * owner, and a comment present before and after is the very same record.
   */
  lemma {:induction false} OwnerNeverChanges(t: Tables, rs: seq<Request>, id: Id)
    requires t.Valid()
    ensures id in t.products && id in Run(t, rs).products ==>
      Run(t, rs).products[id].userId == t.products[id].userId
    ensures id in t.comments && id in Run(t, rs).comments ==>
      Run(t, rs).comments[id] == t.comments[id]
    decreases |rs|
  {
    if rs != [] {
      var t1 := Handle(t, rs[0]).tables;
      OwnerNeverChanges(t1, rs[1..], id);
      RemovedIdsStayRemoved(t1, rs[1..], id);
    }
  }

  /**
   * A created record's owner is always the caller: every product or comment in the store after
   * a history that was not there before was created by a request of that history whose
   * caller is its owner.
   */
  lemma {:induction false} NewRecordsBelongToRequester(t: Tables, rs: seq<Request>, id: Id)
    requires t.Valid()
    ensures id in Run(t, rs).products && id !in t.products ==>
      exists i :: 0 <= i < |rs| && rs[i].CreateProductReq? && rs[i].caller == Some(Run(t, rs).products[id].userId)
    ensures id in Run(t, rs).comments && id !in t.comments ==>
      exists i :: 0 <= i < |rs| && rs[i].CreateCommentReq? && rs[i].caller == Some(Run(t, rs).comments[id].userId)
    decreases |rs|
  {
    if rs != [] {
      var t1 := Handle(t, rs[0]).tables;
      NewRecordsBelongToRequester(t1, rs[1..], id);
      OwnerNeverChanges(t1, rs[1..], id);
      var tn := Run(t, rs);
      assert tn == Run(t1, rs[1..]);
      if id in tn.products && id !in t.products {
        if id in t1.products {
          assert rs[0].CreateProductReq?;
          assert rs[0].caller == Some(tn.products[id].userId);
        } else {
          var i :| 0 <= i < |rs[1..]| && rs[1..][i].CreateProductReq? && rs[1..][i].caller == Some(tn.products[id].userId);
          assert rs[i + 1] == rs[1..][i];
        }
      }
      if id in tn.comments && id !in t.comments {
        if id in t1.comments {
          assert rs[0].CreateCommentReq?;
          assert rs[0].caller == Some(tn.comments[id].userId);
        } else {
          var i :| 0 <= i < |rs[1..]| && rs[1..][i].CreateCommentReq? && rs[1..][i].caller == Some(tn.comments[id].userId);
          assert rs[i + 1] == rs[1..][i];
        }
      }
    }
  }
}
