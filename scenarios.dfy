/**
 * A client of the handlers: the marketplace walk-through of one seller and one other user,
 * checked from the handlers' contracts alone.
 */
module Scenarios {
  import opened Wrappers
  import opened Store
  import opened Http
  import ProductController
  import CommentController
  import UserController

  method ProductWalkThrough() {
    var db := new Db();
    var a, b := Some("user_a"), Some("user_b");

    var created := ProductController.CreateProduct(db, a, Some("Lamp"), Some("Desk lamp"), Some("http://x/1.png"));
    assert created.status == Created && created.status.Code() == 201;
    var lamp := created.body.product;
    assert lamp.userId == "user_a" && lamp.title == "Lamp";

    var denied := ProductController.UpdateProduct(db, b, lamp.id, Some("New"), None, None);
    assert denied == Fail(Forbidden) && denied.status.Code() == 403;
    assert db.products[lamp.id].title == "Lamp";

    var missing := ProductController.DeleteProduct(db, a, lamp.id + 1);
    assert missing == Fail(NotFound) && missing.status.Code() == 404;

    var anonymous := ProductController.DeleteProduct(db, None, lamp.id + 1);
    assert anonymous == Fail(Unauthorized) && anonymous.status.Code() == 401;

    var emptyId := ProductController.CreateProduct(db, Some(""), Some("Lamp"), Some("Desk lamp"), Some("http://x/1.png"));
    assert emptyId == Fail(Unauthorized);
  }

  method CommentWalkThrough() {
    var db := new Db();
    var a, b := Some("user_a"), Some("user_b");

    var created := ProductController.CreateProduct(db, a, Some("Lamp"), Some("Desk lamp"), Some("http://x/1.png"));
    var lamp := created.body.product;

    var commented := CommentController.CreateComment(db, a, lamp.id, Some("Nice!"));
    assert commented.status == Created;
    assert commented.body.comment.userId == "user_a" && commented.body.comment.productId == lamp.id;

    var orphan := CommentController.CreateComment(db, b, lamp.id + 1, Some("hi"));
    assert orphan == Fail(NotFound);

    var emptyOrphan := CommentController.CreateComment(db, b, lamp.id + 1, Some(""));
    assert emptyOrphan == Fail(BadRequest) && emptyOrphan.status.Code() == 400;
  }

  method SyncWalkThrough() {
    var db := new Db();
    var a := Some("user_a");

    var first := UserController.SyncUser(db, a, Some("a@x.com"), Some("Alice"), Some("http://x/a.png"));
    var second := UserController.SyncUser(db, a, Some("a@x.com"), Some("Alice"), Some("http://x/a.png"));
    assert first.status == Ok && first.status.Code() == 200 && second == first;
  }
}
