/** The comment handlers as methods over the `Db` object, proved against `CommentSpec`. */
module CommentController {
  import opened Wrappers
  import opened Store
  import opened Http
  import CommentSpec

  method CreateComment(db: Db, caller: Option<UserId>, productId: Id, content: Field) returns (r: Response)
    requires db.Valid()
    modifies db
    ensures db.Valid()
    ensures Outcome(r, db.State()) == CommentSpec.CreateComment(old(db.State()), caller, productId, content)
  {
    if !Present(caller) {
      return Fail(Unauthorized);
    }
    var userId := caller.value;
    if !Present(content) {
      return Fail(BadRequest);
    }
    var product := db.State().ProductById(productId);
    if product.None? {
      return Fail(NotFound);
    }
    var comment := db.CreateComment(content.value, userId, productId);
    r := Response(Created, CommentBody(comment));
  }

  method DeleteComment(db: Db, caller: Option<UserId>, commentId: Id) returns (r: Response)
    requires db.Valid()
    modifies db
    ensures db.Valid()
    ensures Outcome(r, db.State()) == CommentSpec.DeleteComment(old(db.State()), caller, commentId)
  {
    if !Present(caller) {
      return Fail(Unauthorized);
    }
    var userId := caller.value;
    var existing := db.State().CommentById(commentId);
    if existing.None? {
      return Fail(NotFound);
    }
    if existing.value.userId != userId {
      return Fail(Forbidden);
    }
    db.DeleteComment(commentId);
    r := Response(Ok, Confirmation);
  }
}
