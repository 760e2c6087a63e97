/** Start-up seeding of the roles table (seedRoles in pkg/config/database.go): each of the
    three default roles is created when, and only when, looking it up by name reports
    that no such row exists. */
module Seed {
  import opened Wrappers
  import opened Entities
  import opened UserTable
  import opened Store

  /** What the database does for one default role: the id it would give a new row, an
      error other than "not found" from the lookup, and an error from the insert. */
  datatype Attempt = Attempt(id: string, lookupFault: Option<string>, createFault: Option<string>)

  /** The name of the k-th default role, in seeding order. */
  function DefaultName(k: nat): (name: string)
    requires k < 3
    ensures name in {ADMIN, TEACHER, STUDENT}
  {
    [ADMIN, TEACHER, STUDENT][k]
  }

  /** The k-th default role (0 ADMIN, 1 TEACHER, 2 STUDENT) with the id the database gives it. */
  function DefaultRole(k: nat, id: string): (r: Role)
    requires k < 3
    ensures r.id == id
    ensures r.name == DefaultName(k)
  {
    if k == 0 then Role(id, ADMIN, "Administrator dengan akses penuh")
    else if k == 1 then Role(id, TEACHER, "Guru yang dapat mengelola materi dan nilai")
    else Role(id, STUDENT, "Siswa yang dapat mengakses pembelajaran")
  }

  /** One iteration: create the role when the lookup succeeded in finding nothing and the
      insert goes through; in every other case the table is left as it was. */
  function SeedStep(roles: seq<Role>, role: Role, a: Attempt): (r: seq<Role>)
    ensures r == roles || r == roles + [role]
    ensures r == roles + [role] <==>
              a.lookupFault.None? && FindRoleByName(roles, role.name).None? && a.createFault.None?
              && !HasRoleId(roles, role.id)
  {
    if a.lookupFault.Some? then roles
    else if FindRoleByName(roles, role.name).Some? then roles
    else if a.createFault.Some? || HasRoleId(roles, role.id) then roles
    else roles + [role]
  }

  /** The roles table after the first k iterations. */
  function SeedFirst(roles: seq<Role>, attempts: seq<Attempt>, k: nat): seq<Role>
    requires k <= |attempts| && k <= 3
  {
    if k == 0 then roles
    else SeedStep(SeedFirst(roles, attempts, k - 1), DefaultRole(k - 1, attempts[k - 1].id), attempts[k - 1])
  }

  /** SeedRoles: the loop over ADMIN, TEACHER and STUDENT, in that order. A lookup error or
      a failed insert only skips that role. */
  method SeedRoles(db: Database, attempts: seq<Attempt>)
    requires |attempts| == 3 && db.Valid()
    modifies db
    ensures db.Valid() && db.users == old(db.users)
    ensures db.roles == SeedFirst(old(db.roles), attempts, 3)
  {
    var k := 0;
    while k < 3
      invariant 0 <= k <= 3
      invariant db.Valid() && db.users == old(db.users)
      invariant db.roles == SeedFirst(old(db.roles), attempts, k)
    {
      var role := DefaultRole(k, attempts[k].id);
      var a := attempts[k];
      ghost var next := SeedStep(db.roles, role, a);
      if a.lookupFault.None? {
        var existing := FindRoleByName(db.roles, role.name);
        if existing.None? {
          var _ := db.CreateRole(role, a.createFault);
        }
      }
      assert db.roles == next;
      k := k + 1;
    }
  }

  /** Seeding only ever appends: existing roles are neither changed nor removed. */
  lemma {:induction false} SeedOnlyAppends(roles: seq<Role>, attempts: seq<Attempt>, k: nat)
    requires k <= |attempts| && k <= 3
    ensures |SeedFirst(roles, attempts, k)| >= |roles|
    ensures SeedFirst(roles, attempts, k)[..|roles|] == roles
  {
    if k > 0 {
      SeedOnlyAppends(roles, attempts, k - 1);
      var before := SeedFirst(roles, attempts, k - 1);
      var role := DefaultRole(k - 1, attempts[k - 1].id);
      var after := SeedFirst(roles, attempts, k);
      assert after == SeedStep(before, role, attempts[k - 1]);
      if after != before {
        assert after == before + [role];
        assert after[..|roles|] == before[..|roles|];
      }
    }
  }

  /** A role name already present stays present. */
  lemma NamePersists(roles: seq<Role>, attempts: seq<Attempt>, k: nat, name: string)
    requires k <= |attempts| && k <= 3
    requires FindRoleByName(roles, name).Some?
    ensures FindRoleByName(SeedFirst(roles, attempts, k), name).Some?
  {
    SeedOnlyAppends(roles, attempts, k);
    var after := SeedFirst(roles, attempts, k);
    var r := FindRoleByName(roles, name).value;
    var i :| 0 <= i < |roles| && roles[i] == r;
    assert after[i] == r;
  }

  /** When every default name already exists, seeding changes nothing, whatever the
      database does; in particular a second run after a full one creates nothing. */
  lemma {:induction false} SeedIdempotent(roles: seq<Role>, attempts: seq<Attempt>, k: nat)
    requires k <= |attempts| && k <= 3
    requires forall j :: 0 <= j < 3 ==> FindRoleByName(roles, DefaultName(j)).Some?
    ensures SeedFirst(roles, attempts, k) == roles
  {
    if k > 0 {
      SeedIdempotent(roles, attempts, k - 1);
      assert FindRoleByName(roles, DefaultName(k - 1)).Some?;
    }
  }

  /** A run in which the database reports no error leaves all three names present. */
  lemma {:induction false} CleanRunSeedsAll(roles: seq<Role>, attempts: seq<Attempt>, k: nat)
    requires k <= |attempts| && k <= 3
    requires forall j :: 0 <= j < |attempts| ==> attempts[j].lookupFault.None? && attempts[j].createFault.None?
    requires forall j :: 0 <= j < |attempts| ==> !HasRoleId(roles, attempts[j].id)
    requires forall i, j :: 0 <= i < j < |attempts| ==> attempts[i].id != attempts[j].id
    ensures forall j :: 0 <= j < k ==> FindRoleByName(SeedFirst(roles, attempts, k), DefaultName(j)).Some?
    ensures forall j :: k <= j < |attempts| ==> !HasRoleId(SeedFirst(roles, attempts, k), attempts[j].id)
  {
    if k > 0 {
      CleanRunSeedsAll(roles, attempts, k - 1);
      var before := SeedFirst(roles, attempts, k - 1);
      var role := DefaultRole(k - 1, attempts[k - 1].id);
      var after := SeedFirst(roles, attempts, k);
      assert after == SeedStep(before, role, attempts[k - 1]);
      assert !HasRoleId(before, role.id);
      forall j | 0 <= j < k
        ensures FindRoleByName(after, DefaultName(j)).Some?
      {
        var name := DefaultName(j);
        if after == before {
          if j == k - 1 {
            assert name == role.name;
          }
        } else {
          assert after == before + [role];
          AppendRoleName(before, role, name);
        }
      }
      forall j | k <= j < |attempts|
        ensures !HasRoleId(after, attempts[j].id)
      {
        if after != before {
          assert after == before + [role];
          AppendRoleId(before, role, attempts[j].id);
        }
      }
    }
  }

  /** The three default names are pairwise distinct. */
  lemma DefaultNamesDistinct(i: nat, j: nat)
    requires i < 3 && j < 3 && i != j
    ensures DefaultName(i) != DefaultName(j)
  {
    assert TEACHER[0] != STUDENT[0];
  }

  /** A table made of `roles` followed by the first k defaults holds neither the name nor
      the id of the next default, when `roles` held none of them and the ids are distinct. */
  lemma NextDefaultFresh(roles: seq<Role>, attempts: seq<Attempt>, before: seq<Role>, k: nat)
    requires k < |attempts| == 3
    requires forall j :: 0 <= j < 3 ==>
               FindRoleByName(roles, DefaultName(j)).None? && !HasRoleId(roles, attempts[j].id)
    requires attempts[0].id != attempts[1].id && attempts[0].id != attempts[2].id && attempts[1].id != attempts[2].id
    requires |before| == |roles| + k && before[..|roles|] == roles
    requires forall j :: 0 <= j < k ==> before[|roles| + j] == DefaultRole(j, attempts[j].id)
    ensures FindRoleByName(before, DefaultName(k)).None?
    ensures !HasRoleId(before, attempts[k].id)
  {
    var role := DefaultRole(k, attempts[k].id);
    assert FindRoleByName(roles, role.name).None? && !HasRoleId(roles, role.id);
    forall i | 0 <= i < |before|
      ensures before[i].name != role.name && before[i].id != role.id
    {
      if i < |roles| {
        assert before[i] == before[..|roles|][i] == roles[i];
      } else {
        var j := i - |roles|;
        assert before[|roles| + j] == DefaultRole(j, attempts[j].id);
        DefaultNamesDistinct(j, k);
      }
    }
  }

  /** Appending the next default to a table laid out as `roles` then the first k defaults
      gives `roles` then the first k + 1 defaults. */
  lemma AppendedLayout(roles: seq<Role>, attempts: seq<Attempt>, before: seq<Role>, k: nat)
    requires k < |attempts| == 3
    requires |before| == |roles| + k && before[..|roles|] == roles
    requires forall j :: 0 <= j < k ==> before[|roles| + j] == DefaultRole(j, attempts[j].id)
    ensures var after := before + [DefaultRole(k, attempts[k].id)];
            |after| == |roles| + k + 1 && after[..|roles|] == roles
            && forall j :: 0 <= j < k + 1 ==> after[|roles| + j] == DefaultRole(j, attempts[j].id)
  {
    var after := before + [DefaultRole(k, attempts[k].id)];
    assert after[..|roles|] == before[..|roles|];
    forall j | 0 <= j < k + 1 ensures after[|roles| + j] == DefaultRole(j, attempts[j].id) {
      if j < k {
        assert after[|roles| + j] == before[|roles| + j];
      }
    }
  }

  /** A run with no database error over a table holding none of the default names and
      none of the new ids appends exactly the three roles, in order, after the old ones. */
  lemma {:induction false} CleanRunAppendsAll(roles: seq<Role>, attempts: seq<Attempt>, k: nat)
    requires k <= |attempts| == 3
    requires forall j :: 0 <= j < 3 ==> attempts[j].lookupFault.None? && attempts[j].createFault.None?
    requires forall j :: 0 <= j < 3 ==>
               FindRoleByName(roles, DefaultName(j)).None? && !HasRoleId(roles, attempts[j].id)
    requires attempts[0].id != attempts[1].id && attempts[0].id != attempts[2].id && attempts[1].id != attempts[2].id
    ensures |SeedFirst(roles, attempts, k)| == |roles| + k
    ensures SeedFirst(roles, attempts, k)[..|roles|] == roles
    ensures forall j :: 0 <= j < k ==> SeedFirst(roles, attempts, k)[|roles| + j] == DefaultRole(j, attempts[j].id)
  {
    if k > 0 {
      CleanRunAppendsAll(roles, attempts, k - 1);
      var before := SeedFirst(roles, attempts, k - 1);
      NextDefaultFresh(roles, attempts, before, k - 1);
      AppendedLayout(roles, attempts, before, k - 1);
      var role := DefaultRole(k - 1, attempts[k - 1].id);
      assert attempts[k - 1].lookupFault.None? && attempts[k - 1].createFault.None?;
      assert SeedFirst(roles, attempts, k) == before + [role];
    }
  }
}
