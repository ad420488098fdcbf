/** The user-sync handler as a method over the `Db` object, proved against `UserSpec`. */
module UserController {
  import opened Wrappers
  import opened Store
  import opened Http
  import UserSpec

  method SyncUser(db: Db, caller: Option<UserId>, email: Field, name: Field, imageUrl: Field) returns (r: Response)
    requires db.Valid()
    modifies db
    ensures db.Valid()
    ensures Outcome(r, db.State()) == UserSpec.SyncUser(old(db.State()), caller, email, name, imageUrl)
  {
    if !Present(caller) {
      return Fail(Unauthorized);
    }
    var userId := caller.value;
    if !Present(email) || !Present(name) || !Present(imageUrl) {
      return Fail(BadRequest);
    }
    var user := db.UpsertUser(userId, email.value, name.value, imageUrl.value);
    r := Response(Ok, UserBody(user));
  }
}
