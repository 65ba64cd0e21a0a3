/** Role-based authorisation: the static role -> permission table and the
    membership check built on it. */
module Permissions {

  datatype Permission =
    | PasswordRead | PasswordWrite | PasswordDelete | HistoryRead
    | CategoryRead | CategoryWrite | AdminRead | AdminWrite
  {
    /** The permission's wire name, e.g. "password:read". */
    function Name(): string {
      match this
      case PasswordRead => "password:read"
      case PasswordWrite => "password:write"
      case PasswordDelete => "password:delete"
      case HistoryRead => "history:read"
      case CategoryRead => "category:read"
      case CategoryWrite => "category:write"
      case AdminRead => "admin:read"
      case AdminWrite => "admin:write"
    }
  }

  /** `ROLE_PERMISSIONS`, keyed by role name. */
  const RolePermissions: map<string, seq<Permission>> := map[
    "admin" := [PasswordRead, PasswordWrite, PasswordDelete, HistoryRead,
                CategoryRead, CategoryWrite, AdminRead, AdminWrite],
    "father" := [PasswordRead, PasswordWrite, PasswordDelete, HistoryRead, CategoryRead],
    "mother" := [PasswordRead, PasswordWrite, PasswordDelete, HistoryRead, CategoryRead],
    "son" := [PasswordRead, PasswordWrite, HistoryRead, CategoryRead],
    "daughter" := [PasswordRead, PasswordWrite, HistoryRead, CategoryRead]
  ]

  /** `getUserPermissions`: the role's list, or the empty list for a role not in the table. */
  function GetUserPermissions(role: string): (ps: seq<Permission>)
    ensures role !in RolePermissions ==> ps == []
  {
    if role in RolePermissions then RolePermissions[role] else []
  }

  /** `hasPermission`: membership of the permission in the role's list. */
  predicate HasPermission(role: string, p: Permission)
    ensures HasPermission(role, p) ==> role in RolePermissions && p in RolePermissions["admin"]
  {
    p in GetUserPermissions(role)
  }

  /** The table, permission by permission: admin holds all eight; father and
      mother lack category:write and the admin pair; son and daughter also lack
      password:delete; any other role holds nothing. */
  lemma PermissionTable(p: Permission)
    ensures HasPermission("admin", p)
    ensures HasPermission("father", p) <==> p !in {CategoryWrite, AdminRead, AdminWrite}
    ensures HasPermission("mother", p) <==> HasPermission("father", p)
    ensures HasPermission("son", p) <==> p !in {PasswordDelete, CategoryWrite, AdminRead, AdminWrite}
    ensures HasPermission("daughter", p) <==> HasPermission("son", p)
  {
  }

  /** A role outside the table is granted nothing. */
  lemma UnknownRoleDenied(role: string, p: Permission)
    requires role !in {"admin", "father", "mother", "son", "daughter"}
    ensures !HasPermission(role, p)
  {
  }

  /** The roles are ordered by privilege: child <= parent <= admin. */
  lemma RolesNested(p: Permission)
    ensures HasPermission("son", p) ==> HasPermission("father", p)
    ensures HasPermission("father", p) ==> HasPermission("admin", p)
  {
  }
}
