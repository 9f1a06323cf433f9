/** The roles table of server.js: roles.json maps user ids to roles.
    `GET /api/user/:userId/role` reads it, defaulting to `'user'`; the
    guarded `POST /api/user/:userId/role` checks the role against the three
    allowed values and rewrites the whole file with one entry changed.
    `JSON.parse` is abstracted into the three states the file can be in. */
module Roles {
  import opened Js
  import opened BasicAuth

  /** roles.json as `loadRoles` finds it: missing, not parseable, or an
      object of role names by user id. */
  datatype RolesFile = Missing | Corrupt | Stored(roles: map<string, string>)

  /** The three roles the role-change route accepts. */
  const AllowedRoles: seq<string> := ["admin", "moderator", "user"]

  /** `['admin', 'moderator', 'user'].includes(role)`. */
  predicate IsValidRole(role: string): (valid: bool)
    ensures valid <==> role == "admin" || role == "moderator" || role == "user"
    ensures valid ==> role != ""
  {
    role in AllowedRoles
  }

  /** `loadRoles()`: the stored map, or `{}` when the file is missing or
      cannot be parsed. */
  function LoadRoles(f: RolesFile): (roles: map<string, string>)
    ensures f.Stored? ==> roles == f.roles
    ensures !f.Stored? ==> roles == map[]
  {
    if f.Stored? then f.roles else map[]
  }

  /** `roles[userId] || 'user'`: the answer of `GET /api/user/:userId/role`. */
  function RoleOf(f: RolesFile, userId: string): (role: string)
    ensures role != ""
  {
    var roles := LoadRoles(f);
    if userId in roles && roles[userId] != "" then roles[userId] else "user"
  }

  /** The map `POST /api/user/:userId/role` saves: the loaded map with
      `roles[userId] = role`. */
  function WithRole(f: RolesFile, userId: string, role: string): (roles: map<string, string>)
    ensures roles.Keys == LoadRoles(f).Keys + {userId}
    ensures roles[userId] == role
    ensures forall id | id in LoadRoles(f) && id != userId :: roles[id] == LoadRoles(f)[id]
  {
    LoadRoles(f)[userId := role]
  }

  /** The answer of the role-change route. */
  datatype SetRoleResponse = RoleDenied(denial: AuthDecision) | InvalidRole | RoleSet(userId: string, role: string)

  class RolesStore {
    /** The state of roles.json. */
    var file: RolesFile

    constructor (initial: RolesFile)
      ensures file == initial
    {
      file := initial;
    }

    /** `GET /api/user/:userId/role`. */
    method GetRole(userId: string) returns (role: string)
      ensures role == RoleOf(file, userId)
      ensures role != ""
    {
      role := RoleOf(file, userId);
    }

    /** `POST /api/user/:userId/role` behind the guard: `requireAuth`
        decides on the request's Authorization header; a role outside the
        three allowed ones is answered 400 and nothing is written; a valid
        one is stored with a read-modify-write of the whole map. */
    method SetRole(authorization: Option<string>, decodeBase64: string -> seq<CodeUnit>, admin: AdminCredentials,
                   userId: string, role: string) returns (r: SetRoleResponse)
      modifies this
      ensures var auth := RequireAuth(authorization, decodeBase64, admin);
        && (auth.Deny? ==> r == RoleDenied(auth) && file == old(file))
        && (auth.Grant? && !IsValidRole(role) ==> r == InvalidRole && file == old(file))
        && (auth.Grant? && IsValidRole(role) ==>
              r == RoleSet(userId, role) && file == Stored(WithRole(old(file), userId, role)))
    {
      var auth := RequireAuth(authorization, decodeBase64, admin);
      if auth.Deny? {
        return RoleDenied(auth);
      }
      if !(role in AllowedRoles) {
        return InvalidRole;
      }
      var roles := LoadRoles(file);
      roles := roles[userId := role];
      file := Stored(roles);
      r := RoleSet(userId, role);
    }
  }

  /** After a successful change, reading the user's role gives the new role. */
  lemma ReadYourWrite(f: RolesFile, userId: string, role: string)
    requires IsValidRole(role)
    ensures RoleOf(Stored(WithRole(f, userId, role)), userId) == role
  {
  }

  /** A change touches no other user's role, whatever state the file was in
      (a missing or corrupt file reads as `'user'` for everybody, and so do
      the other users of the rewritten one). */
  lemma {:induction false} OtherUsersUnchanged(f: RolesFile, userId: string, role: string, other: string)
    requires other != userId
    ensures RoleOf(Stored(WithRole(f, userId, role)), other) == RoleOf(f, other)
  {
  }

  /** Setting the same role twice leaves the same file as setting it once. */
  lemma SetRoleIdempotent(f: RolesFile, userId: string, role: string)
    ensures WithRole(Stored(WithRole(f, userId, role)), userId, role) == WithRole(f, userId, role)
  {
  }

  /** Users without an entry, and every user while the file is missing or
      corrupt, read as `'user'`. */
  lemma DefaultRole(f: RolesFile, userId: string)
    requires !f.Stored? || userId !in f.roles
    ensures RoleOf(f, userId) == "user"
  {
  }

  /** Saving over a corrupt file keeps only the one entry being set: the
      unreadable content is lost. */
  lemma CorruptFileIsReplaced(userId: string, role: string)
    ensures WithRole(Corrupt, userId, role) == map[userId := role]
  {
  }

  /** Every role in the file is one of the allowed three. */
  predicate AllRolesValid(f: RolesFile) {
    f.Stored? ==> forall u | u in f.roles :: IsValidRole(f.roles[u])
  }

  /** When roles.json is only ever written by the role-change route, every
      role it answers with is one of the allowed three. */
  lemma {:induction false} ValidRolesStayValid(f: RolesFile, userId: string, role: string, reader: string)
    requires AllRolesValid(f)
    requires IsValidRole(role)
    ensures AllRolesValid(Stored(WithRole(f, userId, role)))
    ensures IsValidRole(RoleOf(f, reader))
  {
    if f.Stored? && reader in f.roles && f.roles[reader] != "" {
      assert IsValidRole(f.roles[reader]);
    }
  }
}
