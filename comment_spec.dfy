/** What the two comment handlers do to the store. */
module CommentSpec {
  import opened Wrappers
  import opened Store
  import opened Http

  /**
   * `createComment`. Guards in order: truthy caller id (401), content truthy (400),
   * product exists (404). Only then one comment, owned by the caller and attached to the
   * product named in the path, is inserted; the product table is only read.
   */
  function CreateComment(t: Tables, caller: Option<UserId>, productId: Id, content: Field): (o: Outcome)
    requires t.Valid()
    ensures o.tables.Valid()
    ensures !Present(caller) ==> o == Outcome(Fail(Unauthorized), t)
    ensures Present(caller) && !Present(content) ==> o == Outcome(Fail(BadRequest), t)
    ensures Present(caller) && Present(content) && productId !in t.products ==> o == Outcome(Fail(NotFound), t)
    ensures o.response.status == Created <==> Present(caller) && Present(content) && productId in t.products
    ensures o.response.status == Created ==>
      && o.response.body.CommentBody?
      && var c := o.response.body.comment;
      && c.id !in t.comments
      && o.tables.comments == t.comments[c.id := c]
      && c.userId == caller.value && c.productId == productId && c.content == content.value
      && o.tables.products == t.products && o.tables.users == t.users
  {
    if !Present(caller) then Outcome(Fail(Unauthorized), t)
    else if !Present(content) then Outcome(Fail(BadRequest), t)
    else if t.ProductById(productId).None? then Outcome(Fail(NotFound), t)
    else
      var c := Comment(t.nextCommentId, content.value, caller.value, productId);
      Outcome(Response(Created, CommentBody(c)),
              t.(comments := t.comments[c.id := c], nextCommentId := t.nextCommentId + 1))
  }

  /**
   * `deleteComment`. Guards in order: truthy caller id (401), comment exists (404), caller
   * owns it (403); then the comment row, and nothing else, is removed.
   */
  function DeleteComment(t: Tables, caller: Option<UserId>, commentId: Id): (o: Outcome)
    requires t.Valid()
    ensures o.tables.Valid()
    ensures !Present(caller) ==> o == Outcome(Fail(Unauthorized), t)
    ensures Present(caller) && commentId !in t.comments ==> o == Outcome(Fail(NotFound), t)
    ensures Present(caller) && commentId in t.comments && t.comments[commentId].userId != caller.value ==>
      o == Outcome(Fail(Forbidden), t)
    ensures o.response.status == Ok <==>
      Present(caller) && commentId in t.comments && t.comments[commentId].userId == caller.value
    ensures o.response.status == Ok ==>
      && o.response.body == Confirmation
      && o.tables.comments.Keys == t.comments.Keys - {commentId}
      && (forall k :: k in o.tables.comments ==> o.tables.comments[k] == t.comments[k])
      && o.tables == t.(comments := o.tables.comments)
  {
    if !Present(caller) then Outcome(Fail(Unauthorized), t)
    else match t.CommentById(commentId)
      case None => Outcome(Fail(NotFound), t)
      case Some(existing) =>
        if existing.userId != caller.value then Outcome(Fail(Forbidden), t)
        else Outcome(Response(Ok, Confirmation), t.(comments := t.comments - {commentId}))
  }

  /**
   * DeleteComment never consults the product table: replacing it changes neither the
   * response nor anything else the handler leaves behind.
   */
  lemma DeleteCommentIgnoresProducts(t: Tables, products: map<Id, Product>, caller: Option<UserId>, commentId: Id)
    requires t.Valid() && t.(products := products).Valid()
    ensures var o := DeleteComment(t, caller, commentId);
      DeleteComment(t.(products := products), caller, commentId)
        == Outcome(o.response, o.tables.(products := products))
  {
  }
}
