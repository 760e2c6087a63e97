/** The user table as a value: the lookups of pkg/auth/repository.go and
    pkg/user/repository.go, and the row updates they issue, as functions over the
    rows in primary-key order. */
module UserTable {
  import opened Wrappers
  import opened Lookup
  import opened Entities

  // gorm's ErrRecordNotFound
  const RecordNotFound: string := "record not found"

  ghost predicate UniqueIds(users: seq<User>) {
    forall i, j :: 0 <= i < |users| && 0 <= j < |users| && i != j ==> users[i].id != users[j].id
  }

  /** The unique index on `email`. */
  ghost predicate UniqueEmails(users: seq<User>) {
    forall i, j :: 0 <= i < |users| && 0 <= j < |users| && i != j ==> users[i].email != users[j].email
  }

  predicate HasId(users: seq<User>, id: string) {
    exists i :: 0 <= i < |users| && users[i].id == id
  }

  /** Some role row has primary key `id`. */
  predicate HasRoleId(roles: seq<Role>, id: string) {
    exists i :: 0 <= i < |roles| && roles[i].id == id
  }

  predicate HasEmail(users: seq<User>, email: string) {
    exists i :: 0 <= i < |users| && users[i].email == email
  }

  // ---------------------------------------------------------------- lookups

  /** FindByEmail: the row whose email equals the argument exactly. */
  function FindByEmail(users: seq<User>, email: string): (r: Option<User>)
    ensures r.None? <==> !HasEmail(users, email)
    ensures r.Some? ==> r.value in users && r.value.email == email
  {
    match First(users, (u: User) => u.email == email)
    case None => None
    case Some(i) => Some(users[i])
  }

  /** GetByID */
  function FindById(users: seq<User>, id: string): (r: Option<User>)
    ensures r.None? <==> !HasId(users, id)
    ensures r.Some? ==> r.value in users && r.value.id == id
  {
    match First(users, (u: User) => u.id == id)
    case None => None
    case Some(i) => Some(users[i])
  }

  /** FindRoleByName */
  function FindRoleByName(roles: seq<Role>, name: string): (r: Option<Role>)
    ensures r.None? <==> forall i :: 0 <= i < |roles| ==> roles[i].name != name
    ensures r.Some? ==> r.value in roles && r.value.name == name
  {
    match First(roles, (x: Role) => x.name == name)
    case None => None
    case Some(i) => Some(roles[i])
  }

  /** Appending a role row makes its name findable and keeps every name found before. */
  lemma AppendRoleName(roles: seq<Role>, r: Role, name: string)
    ensures FindRoleByName(roles + [r], name).Some? <==> FindRoleByName(roles, name).Some? || r.name == name
  {
    var after := roles + [r];
    if FindRoleByName(roles, name).Some? {
      var i :| 0 <= i < |roles| && roles[i] == FindRoleByName(roles, name).value;
      assert after[i] == roles[i];
    } else if r.name == name {
      assert after[|roles|] == r;
    } else {
      forall i | 0 <= i < |after| ensures after[i].name != name {
        if i < |roles| { assert after[i] == roles[i]; }
      }
    }
  }

  /** Appending a role row adds exactly its id to the ids taken. */
  lemma AppendRoleId(roles: seq<Role>, r: Role, id: string)
    ensures HasRoleId(roles + [r], id) <==> HasRoleId(roles, id) || r.id == id
  {
    var after := roles + [r];
    if HasRoleId(roles, id) {
      var i :| 0 <= i < |roles| && roles[i].id == id;
      assert after[i] == roles[i];
    } else if r.id == id {
      assert after[|roles|] == r;
    } else {
      forall i | 0 <= i < |after| ensures after[i].id != id {
        if i < |roles| { assert after[i] == roles[i]; }
      }
    }
  }

  /** With unique emails, FindByEmail finds the one row that has that email. */
  lemma FindByEmailUnique(users: seq<User>, i: nat)
    requires UniqueEmails(users) && i < |users|
    ensures FindByEmail(users, users[i].email) == Some(users[i])
  {
    var r := FindByEmail(users, users[i].email);
    var j :| 0 <= j < |users| && users[j] == r.value;
  }

  /** With unique ids, FindById finds the one row that has that id. */
  lemma FindByIdUnique(users: seq<User>, i: nat)
    requires UniqueIds(users) && i < |users|
    ensures FindById(users, users[i].id) == Some(users[i])
  {
    var r := FindById(users, users[i].id);
    var j :| 0 <= j < |users| && users[j] == r.value;
  }

  /** Row i is the first row holding `token` (the one `WHERE reset_token = ?` returns). */
  predicate FirstHolder(users: seq<User>, token: string, i: int) {
    0 <= i < |users| && users[i].resetToken == Some(token)
    && forall j :: 0 <= j < i ==> users[j].resetToken != Some(token)
  }

  predicate HoldsToken(users: seq<User>, token: string) {
    exists i :: 0 <= i < |users| && users[i].resetToken == Some(token)
  }

  /** At most one row holds the token. */
  ghost predicate SoleHolder(users: seq<User>, token: string) {
    forall i, j ::
      0 <= i < |users| && 0 <= j < |users| && users[i].resetToken == Some(token) && users[j].resetToken == Some(token)
      ==> i == j
  }

  /** FindByResetToken: the first row holding the token, rejected when its expiry
      is missing or lies strictly before `now`. */
  function FindByResetToken(users: seq<User>, token: string, now: int): (r: Result<User>)
    ensures !HoldsToken(users, token) <==> r == Err(RecordNotFound)
    ensures r.Ok? <==> exists i :: FirstHolder(users, token, i) && users[i].resetExpires.Some?
                                  && now <= users[i].resetExpires.value
    ensures r.Ok? ==> r.value in users && r.value.resetToken == Some(token)
    ensures r == Err("invalid reset token") <==>
              exists i :: FirstHolder(users, token, i) && users[i].resetExpires.None?
    ensures r == Err("reset token expired") <==>
              exists i :: FirstHolder(users, token, i) && users[i].resetExpires.Some?
                          && now > users[i].resetExpires.value
  {
    match First(users, (u: User) => u.resetToken == Some(token))
    case None => Err(RecordNotFound)
    case Some(i) =>
      assert FirstHolder(users, token, i);
      OnlyFirstHolder(users, token, i);
      var u := users[i];
      if u.resetExpires.None? then Err("invalid reset token")
      else if now > u.resetExpires.value then Err("reset token expired")
      else Ok(u)
  }

  lemma FirstHolderUnique(users: seq<User>, token: string, i: int, j: int)
    requires FirstHolder(users, token, i) && FirstHolder(users, token, j)
    ensures i == j
  {
  }

  lemma OnlyFirstHolder(users: seq<User>, token: string, i: int)
    requires FirstHolder(users, token, i)
    ensures forall k :: FirstHolder(users, token, k) ==> k == i
  {
    forall k | FirstHolder(users, token, k) ensures k == i {
      FirstHolderUnique(users, token, i, k);
    }
  }

  /** The expiry check is strict: a token is still good at its expiry instant and
      rejected one second later. */
  lemma ExpiryBoundary(users: seq<User>, token: string, i: nat, expires: int)
    requires FirstHolder(users, token, i) && users[i].resetExpires == Some(expires)
    ensures FindByResetToken(users, token, expires) == Ok(users[i])
    ensures FindByResetToken(users, token, expires + 1) == Err("reset token expired")
  {
    var r := FindByResetToken(users, token, expires);
    var k :| FirstHolder(users, token, k) && users[k].resetExpires.Some? && expires <= users[k].resetExpires.value;
    FirstHolderUnique(users, token, i, k);
    var k' :| 0 <= k' < |users| && users[k'] == r.value;
  }

  // ---------------------------------------------------------------- updates

  /** The column updates the repositories issue with `UPDATE users ... WHERE id = ?`
      (or the join-table writes, for the last two). */
  datatype Patch =
    | SetResetToken(token: string, expires: int)
    | ClearResetToken
    | SetPasswordHash(hash: string)
    | SetActive(active: bool)
    | SetProfile(name: string, email: string)
    | ClearRoles
    | AddRole(role: Role)

  function Apply(p: Patch, u: User): (v: User)
    ensures v.id == u.id && v.createdAt == u.createdAt && v.updatedAt == u.updatedAt
    ensures !p.SetProfile? ==> v.name == u.name && v.email == u.email
    ensures !p.SetPasswordHash? ==> v.passwordHash == u.passwordHash
    ensures !p.SetActive? ==> v.isActive == u.isActive
    ensures !(p.SetResetToken? || p.ClearResetToken?) ==>
              v.resetToken == u.resetToken && v.resetExpires == u.resetExpires
    ensures !(p.ClearRoles? || p.AddRole?) ==> v.roles == u.roles
  {
    match p
    case SetResetToken(t, e) => u.(resetToken := Some(t), resetExpires := Some(e))
    case ClearResetToken => u.(resetToken := None, resetExpires := None)
    case SetPasswordHash(h) => u.(passwordHash := h)
    case SetActive(b) => u.(isActive := b)
    case SetProfile(n, e) => u.(name := n, email := e)
    case ClearRoles => u.(roles := [])
    case AddRole(r) => u.(roles := u.roles + [r])
  }

  /** Applies a patch to every row with that id, and to no other row. */
  function UpdateWhere(users: seq<User>, id: string, p: Patch): (r: seq<User>)
    ensures |r| == |users|
    ensures forall i :: 0 <= i < |users| && users[i].id != id ==> r[i] == users[i]
    ensures forall i :: 0 <= i < |users| && users[i].id == id ==> r[i] == Apply(p, users[i])
  {
    seq(|users|, i requires 0 <= i < |users| => if users[i].id == id then Apply(p, users[i]) else users[i])
  }

  /** An update that matches no row changes nothing (and is not an error). */
  lemma UpdateUnknownId(users: seq<User>, id: string, p: Patch)
    requires !HasId(users, id)
    ensures UpdateWhere(users, id, p) == users
  {
  }

  lemma UpdateKeepsIds(users: seq<User>, id: string, p: Patch)
    requires UniqueIds(users)
    ensures UniqueIds(UpdateWhere(users, id, p))
    ensures forall x :: HasId(UpdateWhere(users, id, p), x) <==> HasId(users, x)
  {
    var r := UpdateWhere(users, id, p);
    assert forall i :: 0 <= i < |users| ==> r[i].id == users[i].id;
  }

  /** Every patch except a profile change leaves the emails alone; a profile change keeps
      them unique when no other row has the new email. */
  lemma UpdateKeepsEmails(users: seq<User>, id: string, p: Patch)
    requires UniqueIds(users) && UniqueEmails(users)
    requires p.SetProfile? ==> forall i :: 0 <= i < |users| && users[i].id != id ==> users[i].email != p.email
    ensures UniqueEmails(UpdateWhere(users, id, p))
  {
    var r := UpdateWhere(users, id, p);
    forall i, j | 0 <= i < |r| && 0 <= j < |r| && i != j
      ensures r[i].email != r[j].email
    {
      if p.SetProfile? {
        assert users[i].id == id ==> users[j].id != id;
      }
    }
  }

  /** The row with that id after an update is the patched old row. */
  lemma FindAfterUpdate(users: seq<User>, id: string, p: Patch)
    requires UniqueIds(users) && HasId(users, id)
    ensures FindById(UpdateWhere(users, id, p), id) == Some(Apply(p, FindById(users, id).value))
  {
    var i :| 0 <= i < |users| && users[i].id == id;
    FindByIdUnique(users, i);
    UpdateKeepsIds(users, id, p);
    FindByIdUnique(UpdateWhere(users, id, p), i);
  }

  /** Looking a user up by email after a patch that leaves emails alone finds the
      patched row. */
  lemma FindByEmailAfterUpdate(users: seq<User>, email: string, p: Patch)
    requires UniqueIds(users) && UniqueEmails(users) && HasEmail(users, email) && !p.SetProfile?
    ensures var u := FindByEmail(users, email).value;
            FindByEmail(UpdateWhere(users, u.id, p), email) == Some(Apply(p, u))
  {
    var u := FindByEmail(users, email).value;
    var i :| 0 <= i < |users| && users[i] == u;
    UpdateKeepsEmails(users, u.id, p);
    FindByEmailUnique(UpdateWhere(users, u.id, p), i);
  }

  // ------------------------------------------------- reset-token lifecycle

  /** A freshly saved token leads back to its row until it expires. */
  lemma SavedTokenFound(users: seq<User>, i: nat, token: string, expires: int, now: int)
    requires UniqueIds(users) && i < |users|
    requires forall j :: 0 <= j < |users| && users[j].id != users[i].id ==> users[j].resetToken != Some(token)
    requires now <= expires
    ensures FindByResetToken(UpdateWhere(users, users[i].id, SetResetToken(token, expires)), token, now)
            == Ok(Apply(SetResetToken(token, expires), users[i]))
  {
    var r := UpdateWhere(users, users[i].id, SetResetToken(token, expires));
    assert FirstHolder(r, token, i);
    var f := FindByResetToken(r, token, now);
    var k :| FirstHolder(r, token, k) && r[k].resetExpires.Some? && now <= r[k].resetExpires.value;
    FirstHolderUnique(r, token, i, k);
    var k' :| 0 <= k' < |r| && r[k'] == f.value;
  }

  /** Re-issuing overwrites: once a user gets a new token, the old one (which only that
      user held) no longer finds anything. */
  lemma ReissueInvalidatesOld(users: seq<User>, id: string, previous: string, next: string, expires: int, now: int)
    requires previous != next
    requires forall j :: 0 <= j < |users| && users[j].resetToken == Some(previous) ==> users[j].id == id
    ensures FindByResetToken(UpdateWhere(users, id, SetResetToken(next, expires)), previous, now) == Err(RecordNotFound)
  {
    var r := UpdateWhere(users, id, SetResetToken(next, expires));
    assert !HoldsToken(r, previous) by {
      forall j | 0 <= j < |r| ensures r[j].resetToken != Some(previous) {
        if users[j].id == id { assert r[j].resetToken == Some(next); }
      }
    }
  }

  /** Clearing the token of its only holder makes it unusable. */
  lemma ClearedTokenUnusable(users: seq<User>, id: string, token: string, now: int)
    requires forall j :: 0 <= j < |users| && users[j].resetToken == Some(token) ==> users[j].id == id
    ensures FindByResetToken(UpdateWhere(users, id, ClearResetToken), token, now) == Err(RecordNotFound)
  {
    var r := UpdateWhere(users, id, ClearResetToken);
    assert !HoldsToken(r, token) by {
      forall j | 0 <= j < |r| ensures r[j].resetToken != Some(token) {
        if users[j].id == id { assert r[j].resetToken == None; }
      }
    }
  }

  /** A successful reset (new hash, then clear) burns the token: using it a second
      time fails at any time. */
  lemma ResetBurnsToken(users: seq<User>, i: nat, token: string, hash: string, later: int)
    requires UniqueIds(users) && FirstHolder(users, token, i)
    requires forall j :: 0 <= j < |users| && users[j].resetToken == Some(token) ==> j == i
    ensures var after := UpdateWhere(UpdateWhere(users, users[i].id, SetPasswordHash(hash)), users[i].id, ClearResetToken);
            FindByResetToken(after, token, later) == Err(RecordNotFound)
            && FindById(after, users[i].id).value.passwordHash == hash
  {
    var id := users[i].id;
    var mid := UpdateWhere(users, id, SetPasswordHash(hash));
    forall j | 0 <= j < |mid| && mid[j].resetToken == Some(token) ensures mid[j].id == id {
      assert users[j].resetToken == Some(token);
    }
    ClearedTokenUnusable(mid, id, token, later);
    assert HasId(users, id);
    FindAfterUpdate(users, id, SetPasswordHash(hash));
    UpdateKeepsIds(users, id, SetPasswordHash(hash));
    FindAfterUpdate(mid, id, ClearResetToken);
  }

  /** A successful reset, with `before` the table it started from: the user found has
      the new hash, and a token only that user held now finds nothing at any time. */
  lemma ResetOutcome(before: seq<User>, token: string, now: int, hash: string)
    requires UniqueIds(before) && FindByResetToken(before, token, now).Ok?
    ensures var id := FindByResetToken(before, token, now).value.id;
            var after := UpdateWhere(UpdateWhere(before, id, SetPasswordHash(hash)), id, ClearResetToken);
            FindById(after, id).value.passwordHash == hash
            && (SoleHolder(before, token) ==> forall later :: FindByResetToken(after, token, later) == Err(RecordNotFound))
  {
    var user := FindByResetToken(before, token, now).value;
    var i :| 0 <= i < |before| && before[i] == user;
    FindAfterUpdate(before, user.id, SetPasswordHash(hash));
    UpdateKeepsIds(before, user.id, SetPasswordHash(hash));
    FindAfterUpdate(UpdateWhere(before, user.id, SetPasswordHash(hash)), user.id, ClearResetToken);
    if SoleHolder(before, token) {
      assert FirstHolder(before, token, i);
      forall later ensures FindByResetToken(UpdateWhere(UpdateWhere(before, user.id, SetPasswordHash(hash)), user.id, ClearResetToken), token, later) == Err(RecordNotFound) {
        ResetBurnsToken(before, i, token, hash, later);
      }
    }
  }

  // ---------------------------------------------------------- activation

  /** Deactivating twice is deactivating once. */
  lemma DeactivateIdempotent(users: seq<User>, id: string)
    ensures UpdateWhere(UpdateWhere(users, id, SetActive(false)), id, SetActive(false))
            == UpdateWhere(users, id, SetActive(false))
  {
    var once := UpdateWhere(users, id, SetActive(false));
    var twice := UpdateWhere(once, id, SetActive(false));
    forall i | 0 <= i < |users| ensures twice[i] == once[i] {
      assert once[i].id == users[i].id;
    }
  }

  /** Deactivating and then activating an active user restores the table. */
  lemma DeactivateActivateRestores(users: seq<User>, id: string)
    requires forall i :: 0 <= i < |users| && users[i].id == id ==> users[i].isActive
    ensures UpdateWhere(UpdateWhere(users, id, SetActive(false)), id, SetActive(true)) == users
  {
    var once := UpdateWhere(users, id, SetActive(false));
    var twice := UpdateWhere(once, id, SetActive(true));
    forall i | 0 <= i < |users| ensures twice[i] == users[i] {
      assert once[i].id == users[i].id;
    }
  }

  // --------------------------------------------------------------- roles

  /** Replacing roles (remove all, then insert one) leaves exactly the new role,
      whatever the user held before. */
  lemma ReplaceRolesLeavesOne(users: seq<User>, id: string, role: Role)
    requires UniqueIds(users) && HasId(users, id)
    ensures var after := UpdateWhere(UpdateWhere(users, id, ClearRoles), id, AddRole(role));
            FindById(after, id) == Some(FindById(users, id).value.(roles := [role]))
            && |after| == |users|
            && forall i :: 0 <= i < |users| && users[i].id != id ==> after[i] == users[i]
  {
    FindAfterUpdate(users, id, ClearRoles);
    UpdateKeepsIds(users, id, ClearRoles);
    FindAfterUpdate(UpdateWhere(users, id, ClearRoles), id, AddRole(role));
    assert [] + [role] == [role];
  }

  /** The roles a new account ends up with: STUDENT when that role exists and linking
      it succeeds, otherwise none. */
  function StudentLink(roles: seq<Role>, assignFault: Option<string>): (link: seq<Role>)
    ensures |link| <= 1
    ensures link != [] <==> FindRoleByName(roles, STUDENT).Some? && assignFault.None?
    ensures link != [] ==> link[0] in roles && link[0].name == STUDENT
  {
    match FindRoleByName(roles, STUDENT)
    case Some(s) => if assignFault.None? then [s] else []
    case None => []
  }

  /** A row appended with an email no other row has is what the email lookup then finds. */
  lemma FindAppended(users: seq<User>, u: User)
    requires UniqueEmails(users) && !HasEmail(users, u.email)
    ensures FindByEmail(users + [u], u.email) == Some(u)
  {
    var after := users + [u];
    forall i, j | 0 <= i < |after| && 0 <= j < |after| && i != j ensures after[i].email != after[j].email {
      if i < |users| && j < |users| {
        assert after[i] == users[i] && after[j] == users[j];
      } else if i < |users| {
        assert after[i] == users[i];
      } else if j < |users| {
        assert after[j] == users[j];
      }
    }
    assert after[|users|] == u;
    FindByEmailUnique(after, |users|);
  }

  /** Linking a role to a row just appended with a fresh id extends that row's roles only. */
  lemma AddRoleToAppended(users: seq<User>, u: User, role: Role)
    requires !HasId(users, u.id)
    ensures UpdateWhere(users + [u], u.id, AddRole(role)) == users + [u.(roles := u.roles + [role])]
  {
    var r := UpdateWhere(users + [u], u.id, AddRole(role));
    forall i | 0 <= i < |users| ensures r[i] == users[i] {
      assert (users + [u])[i] == users[i];
    }
  }

  // ---------------------------------------------------------- pagination

  datatype PageResult = PageResult(items: seq<User>, total: int)

  function Min(a: int, b: int): int { if a <= b then a else b }

  /** Go's `int`, 64 bits wide on the server's platforms. */
  const MinInt64: int := -0x8000_0000_0000_0000
  const MaxInt64: int := 0x7fff_ffff_ffff_ffff
  const TwoTo64: int := 0x1_0000_0000_0000_0000

  predicate IsInt64(x: int) {
    MinInt64 <= x <= MaxInt64
  }

  /** Two's-complement wrap-around of an exact result to a Go `int`. */
  function WrapInt64(x: int): (w: int)
    ensures IsInt64(w)
    ensures (x - w) % TwoTo64 == 0
    ensures IsInt64(x) ==> w == x
  {
    var m := x % TwoTo64;
    if m > MaxInt64 then m - TwoTo64 else m
  }

  /** The OFFSET of a page: `(page - 1) * perPage`, each step in Go `int` arithmetic. */
  function Offset(page: int, perPage: int): (off: int)
    ensures IsInt64(off)
    ensures page >= 1 && perPage >= 1 && (page - 1) * perPage <= MaxInt64 ==>
              off == (page - 1) * perPage && off >= 0
  {
    if page >= 1 && perPage >= 1 && (page - 1) * perPage <= MaxInt64 then
      assert page - 1 <= (page - 1) * perPage;
      WrapInt64(WrapInt64(page - 1) * perPage)
    else
      WrapInt64(WrapInt64(page - 1) * perPage)
  }

  /** While nothing wraps, consecutive pages start perPage rows apart. */
  lemma OffsetNext(page: int, perPage: int)
    requires page >= 1 && perPage >= 1 && page * perPage <= MaxInt64
    ensures Offset(page + 1, perPage) == Offset(page, perPage) + perPage
    ensures Offset(page + 1, perPage) == page * perPage
  {
    assert (page - 1) * perPage == page * perPage - perPage;
  }

  /** Where a page starts: gorm writes no OFFSET for a non-positive offset. */
  function PageStart(off: int, n: nat): (start: nat)
    ensures start <= n
    ensures off > 0 ==> start == Min(off, n)
    ensures off <= 0 ==> start == 0
  {
    if off > 0 then Min(off, n) else 0
  }

  /** GetAll: the total row count and the rows from OFFSET (page-1)*perPage, at most
      perPage of them. A non-positive offset means no OFFSET and a negative limit
      means no LIMIT, as the ORM builds the query. */
  function GetAll(users: seq<User>, page: int, perPage: int): (r: PageResult)
    ensures r.total == |users|
    ensures perPage >= 0 ==> |r.items| <= perPage
    ensures page >= 1 && perPage >= 1 && (page - 1) * perPage <= MaxInt64 ==>
              var off := Offset(page, perPage);
              off == (page - 1) * perPage
              && |r.items| == (if off >= |users| then 0 else Min(perPage, |users| - off))
              && forall i :: 0 <= i < |r.items| ==> r.items[i] == users[off + i]
  {
    var off := Offset(page, perPage);
    var start := PageStart(off, |users|);
    var end := if perPage >= 0 then Min(start + perPage, |users|) else |users|;
    var items := users[start..end];
    assert forall i :: 0 <= i < |items| ==> items[i] == users[start + i];
    assert off >= 0 && off < |users| ==> start == off;
    PageResult(items, |users|)
  }

  /** Every page, also one whose offset wrapped, is one contiguous run of rows starting
      at the wrapped offset (or at the first row when that is not positive). */
  lemma PageSlice(users: seq<User>, page: int, perPage: int)
    requires perPage >= 1
    ensures var start := PageStart(Offset(page, perPage), |users|);
            GetAll(users, page, perPage).items == users[start..Min(start + perPage, |users|)]
  {
  }

  /** The wrap is reachable: with 4 rows a page, page 2^62 + 1 has offset 2^64, which wraps
      to 0, so it repeats the first page; with 3 rows a page the offset wraps negative and
      the first page is repeated too. */
  lemma OffsetWrapRepeatsFirstPage(users: seq<User>)
    ensures Offset(0x4000_0000_0000_0001, 4) == 0
    ensures Offset(0x4000_0000_0000_0001, 3) < 0
    ensures GetAll(users, 0x4000_0000_0000_0001, 4) == GetAll(users, 1, 4)
    ensures GetAll(users, 0x4000_0000_0000_0001, 3) == GetAll(users, 1, 3)
  {
    assert WrapInt64(0x4000_0000_0000_0000) == 0x4000_0000_0000_0000;
    assert WrapInt64(0x1_0000_0000_0000_0000) == 0;
    assert WrapInt64(0xc000_0000_0000_0000) == -0x4000_0000_0000_0000;
  }

  /** The first k pages, concatenated. */
  function FirstPages(users: seq<User>, perPage: int, k: nat): seq<User>
  {
    if k == 0 then [] else FirstPages(users, perPage, k - 1) + GetAll(users, k, perPage).items
  }

  /** Pages tile the table: as long as no page's offset wraps, pages 1..k together are
      exactly its first k*perPage rows, with nothing skipped or repeated. */
  /** Page k, k >= 1, while its offset fits: the rows from (k-1)*perPage up to k*perPage. */
  lemma PageK(users: seq<User>, perPage: int, k: int)
    requires k >= 1 && perPage >= 1 && (k - 1) * perPage <= MaxInt64
    ensures GetAll(users, k, perPage).items == users[Min((k - 1) * perPage, |users|)..Min(k * perPage, |users|)]
    ensures (k - 2) * perPage <= MaxInt64
  {
    assert (k - 2) * perPage == (k - 1) * perPage - perPage;
    assert k * perPage == (k - 1) * perPage + perPage;
    PageSlice(users, k, perPage);
  }

  lemma PrefixSplit(s: seq<User>, a: int, b: int)
    requires 0 <= a <= b <= |s|
    ensures s[..a] + s[a..b] == s[..b]
  {
  }

  lemma {:induction false} FirstPagesArePrefix(users: seq<User>, perPage: int, k: nat)
    requires perPage >= 1 && (k - 1) * perPage <= MaxInt64
    ensures FirstPages(users, perPage, k) == users[..Min(k * perPage, |users|)]
  {
    if k == 0 {
      assert k * perPage == 0;
    } else {
      PageK(users, perPage, k);
      FirstPagesArePrefix(users, perPage, k - 1);
      var a := Min((k - 1) * perPage, |users|);
      var b := Min(k * perPage, |users|);
      assert FirstPages(users, perPage, k) == users[..a] + users[a..b];
      PrefixSplit(users, a, b);
    }
  }
}
