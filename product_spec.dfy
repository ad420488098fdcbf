/**
 * What each mutating product handler does to the store, as a function from the store before
 * the request to the response and the store after it.
 */
module ProductSpec {
  import opened Wrappers
  import opened Store
  import opened Http

  /**
   * `createProduct`. Guards: truthy caller id (401), then title, description and imageUrl all truthy (400).
   * Only then one product, owned by the caller, is inserted.
   */
  function CreateProduct(t: Tables, caller: Option<UserId>, title: Field, description: Field, imageUrl: Field): (o: Outcome)
    requires t.Valid()
    ensures o.tables.Valid()
    ensures !Present(caller) ==> o == Outcome(Fail(Unauthorized), t)
    ensures Present(caller) && !(Present(title) && Present(description) && Present(imageUrl)) ==>
      o == Outcome(Fail(BadRequest), t)
    ensures o.response.status == Created <==>
      Present(caller) && Present(title) && Present(description) && Present(imageUrl)
    ensures o.response.status == Created ==>
      && o.response.body.ProductBody?
      && var p := o.response.body.product;
      && p.id !in t.products
      && o.tables.products == t.products[p.id := p]
      && p.userId == caller.value
      && p.title == title.value && p.description == description.value && p.imageUrl == imageUrl.value
      && o.tables.users == t.users && o.tables.comments == t.comments
  {
    if !Present(caller) then Outcome(Fail(Unauthorized), t)
    else if !Present(title) || !Present(description) || !Present(imageUrl) then Outcome(Fail(BadRequest), t)
    else
      var p := Product(t.nextProductId, title.value, description.value, imageUrl.value, caller.value);
      Outcome(Response(Created, ProductBody(p)),
              t.(products := t.products[p.id := p], nextProductId := t.nextProductId + 1))
  }

  /**
   * `updateProduct`. Guards in order: truthy caller id (401), product exists (404), caller owns it (403).
   * The fields are passed on as they come, with no emptiness check; the owner is not among them.
   */
  function UpdateProduct(t: Tables, caller: Option<UserId>, id: Id, title: Field, description: Field, imageUrl: Field): (o: Outcome)
    requires t.Valid()
    ensures o.tables.Valid()
    ensures !Present(caller) ==> o == Outcome(Fail(Unauthorized), t)
    ensures Present(caller) && id !in t.products ==> o == Outcome(Fail(NotFound), t)
    ensures Present(caller) && id in t.products && t.products[id].userId != caller.value ==>
      o == Outcome(Fail(Forbidden), t)
    ensures o.response.status == Ok <==>
      Present(caller) && id in t.products && t.products[id].userId == caller.value
    ensures o.response.status == Ok ==>
      && o.response.body.ProductBody?
      && var p := o.response.body.product;
      && p == Patch(t.products[id], title, description, imageUrl)
      && p.id == id && p.userId == t.products[id].userId
      && o.tables == t.(products := t.products[id := p])
  {
    if !Present(caller) then Outcome(Fail(Unauthorized), t)
    else match t.ProductById(id)
      case None => Outcome(Fail(NotFound), t)
      case Some(existing) =>
        if existing.userId != caller.value then Outcome(Fail(Forbidden), t)
        else
          var p := Patch(existing, title, description, imageUrl);
          Outcome(Response(Ok, ProductBody(p)), t.(products := t.products[id := p]))
  }

  /**
   * `deleteProduct`. The same guards as UpdateProduct, then the product row is removed.
   */
  function DeleteProduct(t: Tables, caller: Option<UserId>, id: Id): (o: Outcome)
    requires t.Valid()
    ensures o.tables.Valid()
    ensures !Present(caller) ==> o == Outcome(Fail(Unauthorized), t)
    ensures Present(caller) && id !in t.products ==> o == Outcome(Fail(NotFound), t)
    ensures Present(caller) && id in t.products && t.products[id].userId != caller.value ==>
      o == Outcome(Fail(Forbidden), t)
    ensures o.response.status == Ok <==>
      Present(caller) && id in t.products && t.products[id].userId == caller.value
    ensures o.response.status == Ok ==>
      && o.response.body == Confirmation
      && o.tables.products.Keys == t.products.Keys - {id}
      && (forall k :: k in o.tables.products ==> o.tables.products[k] == t.products[k])
      && o.tables == t.(products := o.tables.products)
  {
    if !Present(caller) then Outcome(Fail(Unauthorized), t)
    else match t.ProductById(id)
      case None => Outcome(Fail(NotFound), t)
      case Some(existing) =>
        if existing.userId != caller.value then Outcome(Fail(Forbidden), t)
        else Outcome(Response(Ok, Confirmation), t.(products := t.products - {id}))
  }

  /** Update and delete run the same gate: for every input they fail, or succeed, alike. */
  lemma UpdateAndDeleteShareGate(t: Tables, caller: Option<UserId>, id: Id, title: Field, description: Field, imageUrl: Field)
    requires t.Valid()
    ensures UpdateProduct(t, caller, id, title, description, imageUrl).response.status
         == DeleteProduct(t, caller, id).response.status
  {
  }

  /** Unlike CreateProduct, an owner's update with empty strings succeeds and stores them. */
  lemma UpdateAcceptsEmptyFields(t: Tables, caller: UserId, id: Id)
    requires t.Valid()
    requires caller != "" && id in t.products && t.products[id].userId == caller
    ensures var o := UpdateProduct(t, Some(caller), id, Some(""), Some(""), Some(""));
      o.response.status == Ok && o.tables.products[id].title == ""
      && o.tables.products[id].description == "" && o.tables.products[id].imageUrl == ""
  {
  }
}
