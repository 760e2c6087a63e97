/** The static role-to-capability table (pkg/utils/permission.go). It is informational:
    login returns it, nothing enforces it. */
module Permission {
  import opened Entities

  const UserManagement: string := "management user (crud, activate user, deactivate user, set role)"

  /** GetPermissionsByRole: an exact, case-sensitive match on the three role names;
      anything else has no permissions. */
  function GetPermissionsByRole(role: string): (perms: seq<string>)
    ensures role !in {ADMIN, TEACHER, STUDENT} <==> perms == []
    ensures role == ADMIN ==> |perms| == 5 && perms[0] == UserManagement
    ensures role == TEACHER || role == STUDENT ==> |perms| == 4
    ensures role != ADMIN ==> UserManagement !in perms
  {
    match role
    case "ADMIN" => [
      UserManagement,
      "management course (crud)",
      "log book management (crud)",
      "feedback management (crud)",
      "quiz management (crud)"]
    case "TEACHER" => [
      "management course (crud)",
      "log book management (crud)",
      "feedback management (crud)",
      "quiz management (crud)"]
    case "STUDENT" => [
      "course (read)",
      "answer (create)",
      "feedback (create, read)",
      "log book (read)"]
    case _ => []
  }

  /** An administrator can do everything a teacher can, plus user management. */
  lemma AdminExtendsTeacher()
    ensures GetPermissionsByRole(ADMIN) == [UserManagement] + GetPermissionsByRole(TEACHER)
  {
  }

  /** Teachers and students share no capability. */
  lemma TeacherStudentDisjoint(p: string)
    ensures !(p in GetPermissionsByRole(TEACHER) && p in GetPermissionsByRole(STUDENT))
  {
  }

  /** The match is exact: the lower-case spelling, or the empty role a user without roles
      logs in with, grants nothing. */
  lemma LowercaseRoleHasNoPermissions()
    ensures GetPermissionsByRole("admin") == [] && GetPermissionsByRole("teacher") == []
    ensures GetPermissionsByRole("student") == [] && GetPermissionsByRole("") == []
  {
  }
}
