# Ownership-gated CRUD for a product marketplace

A model of the backend controllers of a small marketplace: users sign in through an
identity provider, sync their profile, list, create, update and delete their own products,
and comment on products. Every handler is a short chain of guards ending in at most one
store mutation:

- no caller identity (absent or the empty string) gives 401;
- a required field that JavaScript treats as falsy gives 400;
- a missing record gives 404;
- a record whose `userId` is not the caller gives 403;
- otherwise the handler creates (201), or updates, deletes or upserts (200).

Layout:

- `wrappers.dfy`: `Option`.
- `store.dfy`: the persistence module `../db/queries` (not part of this model as source).
  `Tables` is the whole store as a value: users keyed by caller id, products and comments
  keyed by ids the store issues from counters. `Db` is the store as an object; its methods
  are the mutating queries.
- `http.dfy`: statuses and their codes, payloads, and `Present`, JavaScript truthiness of
  a string field (`None` stands for `undefined`; `Some("")` is falsy too).
- `product_spec.dfy`, `comment_spec.dfy`, `user_spec.dfy`: each mutating handler as a
  function from the store before the request to the response and the store after it. Their
  contracts state the guard order, that every error leaves the store unchanged, and what
  success adds, changes or removes.
- `product_controller.dfy`, `comment_controller.dfy`, `user_controller.dfy`: the handlers.
  The read-only product handlers are functions of the store. The mutating ones are methods
  over a `Db`, written as the same early-return guard chains as the source, each proved to
  produce exactly the response and store its specification function gives.
- `sessions.dfy`: any sequence of mutating requests run one after another, with lemmas
  that lift the per-handler guards to whole histories.
- `scenarios.dfy`: a client walk-through (one seller, one other user) checked from the
  handlers' contracts.

The caller identity that `getAuth` extracts is an `Option<UserId>` parameter of every
protected handler. Request body fields are `Option<string>` parameters. Both are tested for
JavaScript truthiness with `Present`, as the source's `!userId` and `!title` are.

Every protected handler checks the caller before it looks anything up. So an
unauthenticated update or delete of a missing id answers 401, not 404.

## Model

| member | source | states |
|---|---|---|
| ProductController.GetAllProducts | backend/src/controllers/productController.ts:7-10 | Public listing: always 200, and a product is listed exactly when it is stored. |
| ProductController.GetMyProducts | backend/src/controllers/productController.ts:18-24 | An absent or empty caller id gives 401 whatever the store holds, so the store plays no part. With a caller: 200 and exactly the stored products whose owner is the caller. |
| ProductController.GetProductById | backend/src/controllers/productController.ts:32-39 | 404 exactly when the id is not stored; otherwise 200 with exactly the stored record. |
| ProductSpec.CreateProduct | backend/src/controllers/productController.ts:47-66 | 401 without a caller, then 400 if title, description or imageUrl is falsy; both leave the store as it was. 201 exactly when every guard passes. Then exactly one record is added, under an id not currently stored, owned by the caller, with the given fields; no other product, comment or user changes. |
| ProductController.CreateProduct | backend/src/controllers/productController.ts:47-66 | The early-return handler over the store object yields exactly the response and store of ProductSpec.CreateProduct. |
| ProductSpec.UpdateProduct | backend/src/controllers/productController.ts:74-100 | Guards in the order 401, 404, 403; each leaves the store unchanged, so an unauthenticated caller gets 401 even for a missing id. 200 exactly for the owner. Then the patched record is returned and stored under the same id with the same owner, and nothing else changes. |
| ProductController.UpdateProduct | backend/src/controllers/productController.ts:74-100 | The handler over the store object agrees exactly with ProductSpec.UpdateProduct. |
| ProductSpec.DeleteProduct | backend/src/controllers/productController.ts:108-128 | Same guards in the same order, each leaving the store unchanged. 200 with a confirmation exactly for the owner. Then exactly that id is gone and every other product and table is as before. |
| ProductController.DeleteProduct | backend/src/controllers/productController.ts:108-128 | The handler over the store object agrees exactly with ProductSpec.DeleteProduct. |
| ProductSpec.UpdateAndDeleteShareGate | backend/src/controllers/productController.ts:76-125 | For every store, caller and id, update and delete answer with the same status: the two guard chains are the same gate. |
| ProductSpec.UpdateAcceptsEmptyFields | backend/src/controllers/productController.ts:79-98 | Unlike create, update checks no field: an owner's update with empty strings succeeds and stores them. |
| Store.Patch | backend/src/controllers/productController.ts:94-98 | The update payload has no owner or id, so a patched product keeps both. |
| Store.Db.CreateProduct | backend/src/controllers/productController.ts:59-64 | Inserts the new row under an unused id, owned by the given user, and changes nothing else. |
| Store.Db.UpdateProduct | backend/src/controllers/productController.ts:94-98 | Patches the row with the given id, or answers None and changes nothing when there is none. |
| Store.Db.DeleteProduct | backend/src/controllers/productController.ts:127 | Removes the product with the given id and nothing else. |
| CommentSpec.CreateComment | backend/src/controllers/commentController.ts:6-26 | 401 first, then 400 for falsy content before 404 for a missing product; each leaves the store unchanged. 201 exactly when all pass. Then exactly one comment is added under an unused id, owned by the caller, attached to the product in the path; products and users are untouched. |
| CommentController.CreateComment | backend/src/controllers/commentController.ts:6-26 | The handler over the store object agrees exactly with CommentSpec.CreateComment. |
| CommentSpec.DeleteComment | backend/src/controllers/commentController.ts:34-50 | Guards 401, 404, 403 in that order, each leaving the store unchanged. 200 exactly for the owner. Then exactly that comment is removed and every other comment and table is as before. |
| CommentController.DeleteComment | backend/src/controllers/commentController.ts:34-50 | The handler over the store object agrees exactly with CommentSpec.DeleteComment. |
| CommentSpec.DeleteCommentIgnoresProducts | backend/src/controllers/commentController.ts:42-50 | Deleting a comment never consults the product table: swapping that table changes neither the response nor the resulting comments and users. |
| Store.Db.CreateComment | backend/src/controllers/commentController.ts:20-24 | Inserts the new comment under an unused id with the given owner and product, and changes nothing else. |
| Store.Db.DeleteComment | backend/src/controllers/commentController.ts:49 | Removes the comment with the given id and nothing else. |
| UserSpec.SyncUser | backend/src/controllers/userController.ts:6-24 | 401 without a caller, then 400 if email, name or imageUrl is falsy; both leave the store unchanged. 200 exactly when all pass. Then the row under the caller's own id holds the given fields and is returned; no other user changes, and products and comments are untouched. |
| UserController.SyncUser | backend/src/controllers/userController.ts:6-24 | The handler over the store object agrees exactly with UserSpec.SyncUser. |
| UserSpec.SyncUserIdempotent | backend/src/controllers/userController.ts:17-24 | Repeating a sync with the same caller and fields leaves the store as one sync did and answers the same. |
| Store.Db.UpsertUser | backend/src/controllers/userController.ts:17-22 | Stores the user under the given id, replacing any previous row, and changes nothing else. |
| Sessions.Run | backend/src/controllers/productController.ts:47-128 | Running any sequence of mutating requests keeps the store well formed: every record sits under its own id, and id counters never go back. |
| Sessions.HandleSparesOthersRecords | backend/src/controllers/productController.ts:89-92 | One request from anyone but u leaves every product and comment u owns present and unchanged. |
| Sessions.OthersCannotTouchOwnedRecords | backend/src/controllers/productController.ts:122-125 | Only the owner can mutate or delete a record: after any sequence of requests none of which comes from u, every product and comment u owned is still stored, unchanged. |
| Sessions.RemovedIdsStayRemoved | backend/src/controllers/productController.ts:127 | A product or comment id that was issued and then deleted never reappears, whatever follows. |
| Sessions.OwnerNeverChanges | backend/src/controllers/productController.ts:94-98 | Ownership is immutable over any history: a product stored before and after has the same owner, and a comment stored before and after is the same record. |
| Sessions.NewRecordsBelongToRequester | backend/src/controllers/commentController.ts:20-24 | A created record's owner is always its creator: every product or comment that a history adds was made by a create request in it whose caller is the record's owner. |

## Left out

- The `catch` branches that answer 500 and the `console.error` logging: the model has no
  storage failures, and every query succeeds.
- Response message strings and JSON serialisation: error responses carry `ErrorBody` and
  delete confirmations `Confirmation`, without text.
- `createdAt` timestamps and how the database issues ids. The model issues product and
  comment ids from counters, so an id is never reused after its record is deleted. This is
  an assumption about the database, not something the controllers enforce.
  Sessions.RemovedIdsStayRemoved and Sessions.OwnerNeverChanges rest on it: if the store
  reused a deleted id, another user's create could give the same id a different owner. The
  per-handler contracts only use that a new id is not currently stored.
- How `getAuth` verifies tokens: the caller is a parameter.
- The partial-update semantics of `queries.updateProduct` are not in the source. The model
  takes an `undefined` field to keep the stored value and a present one, even `""`, to
  replace it. A JSON `null`, and non-string values in the request body, are not modelled.
- Path parameters are taken as already being product or comment ids; a parameter that names
  no row behaves like an unknown id.
- The race between the product-existence check and the comment insert in `createComment`:
  the model runs one request at a time.
- Comments left behind when their product is deleted: the controllers do not handle them,
  and whether the store cascades is not visible.
- `frontend/src/pages/ProfilePage.jsx`: UI rendering, navigation and a confirm dialog.
- Express routing and middleware, which map URLs to these handlers.
- ProductController.GetAllProducts: returns a set, so the order of rows is not modelled.
- ProductController.GetMyProducts: returns a set, so the order of rows is not modelled.
