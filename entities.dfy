/** The records of the user and role tables (pkg/entities/user.go, pkg/entities/role.go). */
module Entities {
  import opened Wrappers

  /** The three role names of the fixed enumeration. */
  const ADMIN: string := "ADMIN"
  const TEACHER: string := "TEACHER"
  const STUDENT: string := "STUDENT"

  datatype Role = Role(id: string, name: string, description: string)

  /** One row of `users` together with its preloaded roles (the `user_roles` join,
      in assignment order). Times are Unix seconds; `resetToken`/`resetExpires`
      are the nullable reset columns. */
  datatype User = User(
    id: string,
    name: string,
    email: string,
    passwordHash: string,
    isActive: bool,
    resetToken: Option<string>,
    resetExpires: Option<int>,
    createdAt: int,
    updatedAt: int,
    roles: seq<Role>)

  /** The names of a role list, in order. */
  function RoleNames(roles: seq<Role>): (names: seq<string>)
    ensures |names| == |roles|
    ensures forall i :: 0 <= i < |roles| ==> names[i] == roles[i].name
  {
    seq(|roles|, i requires 0 <= i < |roles| => roles[i].name)
  }
}

/** bcrypt, abstracted: hashing may fail (with a message), and a password matches a
    stored digest exactly when hashing it gives that digest. */
module Hashing {
  import opened Wrappers

  type Hasher = string -> Result<string>

  predicate Matches(hash: Hasher, stored: string, password: string) {
    hash(password) == Ok(stored)
  }
}
