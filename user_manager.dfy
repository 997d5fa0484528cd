/**
 * Users, their role, the role gate in front of the researcher routes, and
 * the user manager's role changes.
 */
module UserManager {
  import opened Common
  import opened Enums

  datatype User = User(id: Uuid, email: string, role: Role)

  const Forbidden := HttpError(403, "Forbidden")

  /**
   * The dependency `require_role(*allowed)` builds returns the user, unchanged, when
   * their role is one of the allowed roles, and 403 otherwise.
   */
  function RequireRole(allowed: set<Role>, user: User): (r: Result<User>)
    ensures r.Ok? <==> user.role in allowed
    ensures r.Ok? ==> r.value == user
    ensures r.Err? ==> r.error == Forbidden
  {
    if user.role !in allowed then Err(Forbidden) else Ok(user)
  }

  /** The user table after `user_db.update(user, {"role": role})`. */
  function WithRole(users: map<Uuid, User>, user: User, role: Role): (m: map<Uuid, User>)
    ensures m.Keys == users.Keys + {user.id}
    ensures m[user.id].role == role
    ensures m[user.id].id == user.id && m[user.id].email == user.email
    ensures forall id :: id in users && id != user.id ==> m[id] == users[id]
  {
    users[user.id := user.(role := role)]
  }

  /** After a role change the user passes the gate for that role, and for no other role alone. */
  lemma RoleChangeGate(users: map<Uuid, User>, user: User, role: Role, other: Role)
    requires other != role
    ensures RequireRole({role}, WithRole(users, user, role)[user.id]) == Ok(user.(role := role))
    ensures RequireRole({other}, WithRole(users, user, role)[user.id]) == Err(Forbidden)
  {
  }

  /** Changing a user's role twice to the same role, the second time on the updated user, is changing it once. */
  lemma RoleChangeIdempotent(users: map<Uuid, User>, user: User, role: Role)
    ensures WithRole(WithRole(users, user, role), user.(role := role), role) == WithRole(users, user, role)
  {
  }

  /** Demoting a promoted user leaves the table as registering them would. */
  lemma PromoteThenDemote(users: map<Uuid, User>, user: User, role: Role)
    ensures WithRole(WithRole(users, user, role), user, Researcher) == WithRole(users, user, Researcher)
  {
  }

  /** The user store behind the manager (`user_db`). */
  class UserDb {
    var users: map<Uuid, User>

    constructor (initial: map<Uuid, User>)
      ensures users == initial
    {
      users := initial;
    }

    /** `user_db.update(user, {"role": role})`: stores the user with that role and returns it. */
    method SetRole(user: User, role: Role) returns (updated: User)
      modifies this
      ensures updated == user.(role := role)
      ensures users == WithRole(old(users), user, role)
    {
      updated := user.(role := role);
      users := users[user.id := updated];
    }

    /** `on_after_register`: every new user becomes a researcher. */
    method OnAfterRegister(user: User)
      modifies this
      ensures users == WithRole(old(users), user, Researcher)
    {
      var _ := SetRole(user, Researcher);
    }

    method PromoteToAdmin(user: User) returns (updated: User)
      modifies this
      ensures updated == user.(role := Admin)
      ensures users == WithRole(old(users), user, Admin)
    {
      updated := SetRole(user, Admin);
    }

    method PromoteToStaff(user: User) returns (updated: User)
      modifies this
      ensures updated == user.(role := Staff)
      ensures users == WithRole(old(users), user, Staff)
    {
      updated := SetRole(user, Staff);
    }

    /** `demote_user`: back to the researcher role. */
    method DemoteUser(user: User) returns (updated: User)
      modifies this
      ensures updated == user.(role := Researcher)
      ensures users == WithRole(old(users), user, Researcher)
    {
      updated := SetRole(user, Researcher);
    }
  }
}
