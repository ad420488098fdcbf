/**
 * The product handlers. The three read-only ones are functions of the store; the three that
 * mutate it are methods over the `Db` object, each proved to behave as its `ProductSpec` twin.
 */
module ProductController {
  import opened Wrappers
  import opened Store
  import opened Http
  import ProductSpec

  /** `getAllProducts` (public): every stored product, with 200. */
  function GetAllProducts(t: Tables): (r: Response)
    ensures r.status == Ok && r.body.ProductList?
    ensures forall p :: p in r.body.products <==> exists id :: id in t.products && t.products[id] == p
  {
    Response(Ok, ProductList(t.AllProducts()))
  }

  /** `getMyProducts`: 401 without a truthy caller id, otherwise exactly the caller's products. */
  function GetMyProducts(t: Tables, caller: Option<UserId>): (r: Response)
    ensures !Present(caller) ==> r == Fail(Unauthorized)
    ensures Present(caller) ==>
      && r.status == Ok && r.body.ProductList?
      && forall p :: p in r.body.products <==> p in t.products.Values && p.userId == caller.value
  {
    if !Present(caller) then Fail(Unauthorized)
    else Response(Ok, ProductList(t.ProductsByUserId(caller.value)))
  }

  /** `getProductById` (public): 404 when absent, otherwise 200 with exactly the stored row. */
  function GetProductById(t: Tables, id: Id): (r: Response)
    ensures r.status == NotFound <==> id !in t.products
    ensures id !in t.products ==> r == Fail(NotFound)
    ensures id in t.products ==> r.status == Ok && r.body.ProductBody? && r.body.product == t.products[id]
  {
    match t.ProductById(id)
    case None => Fail(NotFound)
    case Some(product) => Response(Ok, ProductBody(product))
  }

  method CreateProduct(db: Db, caller: Option<UserId>, title: Field, description: Field, imageUrl: Field)
    returns (r: Response)
    requires db.Valid()
    modifies db
    ensures db.Valid()
    ensures Outcome(r, db.State()) == ProductSpec.CreateProduct(old(db.State()), caller, title, description, imageUrl)
  {
    if !Present(caller) {
      return Fail(Unauthorized);
    }
    var userId := caller.value;
    if !Present(title) || !Present(description) || !Present(imageUrl) {
      return Fail(BadRequest);
    }
    var product := db.CreateProduct(title.value, description.value, imageUrl.value, userId);
    r := Response(Created, ProductBody(product));
  }

  method UpdateProduct(db: Db, caller: Option<UserId>, id: Id, title: Field, description: Field, imageUrl: Field)
    returns (r: Response)
    requires db.Valid()
    modifies db
    ensures db.Valid()
    ensures Outcome(r, db.State()) == ProductSpec.UpdateProduct(old(db.State()), caller, id, title, description, imageUrl)
  {
    if !Present(caller) {
      return Fail(Unauthorized);
    }
    var userId := caller.value;
    var existing := db.State().ProductById(id);
    if existing.None? {
      return Fail(NotFound);
    }
    if existing.value.userId != userId {
      return Fail(Forbidden);
    }
    var product := db.UpdateProduct(id, title, description, imageUrl);
    r := Response(Ok, ProductBody(product.value));
  }

  method DeleteProduct(db: Db, caller: Option<UserId>, id: Id) returns (r: Response)
    requires db.Valid()
    modifies db
    ensures db.Valid()
    ensures Outcome(r, db.State()) == ProductSpec.DeleteProduct(old(db.State()), caller, id)
  {
    if !Present(caller) {
      return Fail(Unauthorized);
    }
    var userId := caller.value;
    var existing := db.State().ProductById(id);
    if existing.None? {
      return Fail(NotFound);
    }
    if existing.value.userId != userId {
      return Fail(Forbidden);
    }
    db.DeleteProduct(id);
    r := Response(Ok, Confirmation);
  }
}
