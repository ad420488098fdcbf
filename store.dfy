/**
 * The persistence layer the controllers talk to (`../db/queries`): three tables keyed by
 * identifier. `Tables` is the value of the whole store; `Db` is the store as an object whose
 * query methods change it in place.
 */
module Store {
  import opened Wrappers

  /** Opaque user identity issued by the identity provider; also the key of the user table. */
  type UserId = string

  /** Product and comment identifiers, issued by the store in increasing order. */
  type Id = nat

  datatype User = User(id: UserId, email: string, name: string, imageUrl: string)

  datatype Product = Product(id: Id, title: string, description: string, imageUrl: string, userId: UserId)

  datatype Comment = Comment(id: Id, content: string, userId: UserId, productId: Id)

  datatype Tables = Tables(
    users: map<UserId, User>,
    products: map<Id, Product>,
    comments: map<Id, Comment>,
    nextProductId: Id,
    nextCommentId: Id)
  {
    /** Every record is stored under its own id, and every issued id is below its counter. */
    ghost predicate Valid() {
      && (forall u :: u in users ==> users[u].id == u)
      && (forall id :: id in products ==> products[id].id == id && id < nextProductId)
      && (forall id :: id in comments ==> comments[id].id == id && id < nextCommentId)
    }

    /** `queries.getProductById`. */
    function ProductById(id: Id): Option<Product> {
      if id in products then Some(products[id]) else None
    }

    /** `queries.getCommentById`. */
    function CommentById(id: Id): Option<Comment> {
      if id in comments then Some(comments[id]) else None
    }

    /** `queries.getAllProducts`, as a set: the order of the rows is the store's business. */
    function AllProducts(): set<Product> {
      products.Values
    }

    /** `queries.getProductsByUserId`. */
    function ProductsByUserId(u: UserId): set<Product> {
      set id | id in products && products[id].userId == u :: products[id]
    }
  }

  /**
   * The partial update `queries.updateProduct` applies: an absent field keeps the stored
   * value, a present one (even the empty string) replaces it. Id and owner are never touched.
   */
  function Patch(p: Product, title: Option<string>, description: Option<string>, imageUrl: Option<string>): (q: Product)
    ensures q.id == p.id && q.userId == p.userId
  {
    p.(title := if title.Some? then title.value else p.title,
       description := if description.Some? then description.value else p.description,
       imageUrl := if imageUrl.Some? then imageUrl.value else p.imageUrl)
  }

  /** The store as a mutable object; its methods are the mutating queries. */
  class Db {
    var users: map<UserId, User>
    var products: map<Id, Product>
    var comments: map<Id, Comment>
    var nextProductId: Id
    var nextCommentId: Id

    function State(): Tables
      reads this
    {
      Tables(users, products, comments, nextProductId, nextCommentId)
    }

    ghost predicate Valid()
      reads this
    {
      State().Valid()
    }

    constructor ()
      ensures Valid() && State() == Tables(map[], map[], map[], 0, 0)
    {
      users, products, comments := map[], map[], map[];
      nextProductId, nextCommentId := 0, 0;
    }

    /** `queries.createProduct`: inserts a row under a fresh id and returns it. */
    method CreateProduct(title: string, description: string, imageUrl: string, userId: UserId) returns (p: Product)
      requires Valid()
      modifies this
      ensures Valid()
      ensures p == Product(old(nextProductId), title, description, imageUrl, userId)
      ensures p.id !in old(products)
      ensures State() == old(State()).(products := old(products)[p.id := p], nextProductId := p.id + 1)
    {
      p := Product(nextProductId, title, description, imageUrl, userId);
      products := products[p.id := p];
      nextProductId := nextProductId + 1;
    }

    /** `queries.updateProduct`: patches the row if it exists and returns the new row. */
    method UpdateProduct(id: Id, title: Option<string>, description: Option<string>, imageUrl: Option<string>)
      returns (r: Option<Product>)
      requires Valid()
      modifies this
      ensures Valid()
      ensures id !in old(products) ==> r == None && State() == old(State())
      ensures id in old(products) ==>
        && r == Some(Patch(old(products)[id], title, description, imageUrl))
        && State() == old(State()).(products := old(products)[id := r.value])
    {
      if id !in products {
        return None;
      }
      var p := Patch(products[id], title, description, imageUrl);
      products := products[id := p];
      r := Some(p);
    }

    /** `queries.deleteProduct`. */
    method DeleteProduct(id: Id)
      requires Valid()
      modifies this
      ensures Valid()
      ensures State() == old(State()).(products := old(products) - {id})
    {
      products := products - {id};
    }

    /** `queries.createComment`: inserts a row under a fresh id and returns it. */
    method CreateComment(content: string, userId: UserId, productId: Id) returns (c: Comment)
      requires Valid()
      modifies this
      ensures Valid()
      ensures c == Comment(old(nextCommentId), content, userId, productId)
      ensures c.id !in old(comments)
      ensures State() == old(State()).(comments := old(comments)[c.id := c], nextCommentId := c.id + 1)
    {
      c := Comment(nextCommentId, content, userId, productId);
      comments := comments[c.id := c];
      nextCommentId := nextCommentId + 1;
    }

    /** `queries.deleteComment`. */
    method DeleteComment(id: Id)
      requires Valid()
      modifies this
      ensures Valid()
      ensures State() == old(State()).(comments := old(comments) - {id})
    {
      comments := comments - {id};
    }

    /** `queries.upsertUser`: inserts or overwrites the row keyed by the given id. */
    method UpsertUser(id: UserId, email: string, name: string, imageUrl: string) returns (u: User)
      requires Valid()
      modifies this
      ensures Valid()
      ensures u == User(id, email, name, imageUrl)
      ensures State() == old(State()).(users := old(users)[id := u])
    {
      u := User(id, email, name, imageUrl);
      users := users[id := u];
    }
  }
}
