/** Users, roles and who holds which role, under the user and role handlers. `Directory` holds the three tables;
    `Tables` is their value. Fresh identifiers are parameters; a handler runs as one transaction. */
module AdminGuard {
  import opened Wrappers

  datatype Status = Active | Suspended | Deleted

  datatype User = User(email: string, status: Status)

  datatype Tables = Tables(users: map<string, User>, roles: map<string, string>, grants: set<(string, string)>)

  datatype Outcome = Done | Noop | NotFound | BadRequest | Conflict | LastAdmin | DatabaseError

  const ADMIN := "admin"
  const STATIC_ROLE_NAMES: set<string> := {"admin", "editor", "member"}

  /** What the database itself enforces: unique role names, and no grant without its user and its role. */
  ghost predicate Consistent(d: Tables) {
    && (forall r, s :: r in d.roles && s in d.roles && d.roles[r] == d.roles[s] ==> r == s)
    && (forall g :: g in d.grants ==> g.0 in d.users && g.1 in d.roles)
  }

  ghost predicate IsAdmin(d: Tables, u: string) {
    exists r :: r in d.roles && d.roles[r] == ADMIN && (u, r) in d.grants
  }

  ghost predicate ActiveAdmin(d: Tables, u: string) {
    u in d.users && d.users[u].status == Active && IsAdmin(d, u)
  }

  ghost predicate HasActiveAdmin(d: Tables) {
    exists u :: ActiveAdmin(d, u)
  }

  ghost predicate OtherActiveAdmin(d: Tables, u: string) {
    exists v :: v != u && ActiveAdmin(d, v)
  }

  /** An active holder of the role other than `u`. */
  ghost predicate OtherActiveHolder(d: Tables, u: string, r: string) {
    exists v :: v != u && v in d.users && d.users[v].status == Active && (v, r) in d.grants
  }

  ghost predicate EmailTaken(d: Tables, email: string) {
    exists v :: v in d.users && d.users[v].email == email
  }

  ghost predicate RoleHeld(d: Tables, r: string) {
    exists v :: (v, r) in d.grants
  }

  ghost predicate NameTaken(d: Tables, name: string) {
    exists r :: r in d.roles && d.roles[r] == name
  }

  ghost function RoleNamed(d: Tables, name: string): Option<string> {
    if NameTaken(d, name) then
      var r :| r in d.roles && d.roles[r] == name;
      Some(r)
    else None
  }

  // ----- the handlers as transitions -----

  ghost function SetStatus(d: Tables, u: string, status: Status): Tables {
    if u in d.users then d.(users := d.users[u := d.users[u].(status := status)]) else d
  }

  ghost function UpdateUser(d: Tables, u: string, status: Option<Status>): (Tables, Outcome) {
    if u !in d.users then (d, NotFound)
    else if status.Some? && status.value != Active && IsAdmin(d, u) && !OtherActiveAdmin(d, u) then (d, LastAdmin)
    else if status.Some? then (SetStatus(d, u, status.value), Done)
    else (d, Done)
  }

  ghost function SoftDelete(d: Tables, u: string): (Tables, Outcome) {
    if u !in d.users then (d, NotFound)
    else if IsAdmin(d, u) && !OtherActiveAdmin(d, u) then (d, LastAdmin)
    else (SetStatus(d, u, Deleted), Done)
  }

  ghost function RevokeRole(d: Tables, u: string, r: string): (Tables, Outcome) {
    if r !in d.roles then (d, NotFound)
    else if d.roles[r] == ADMIN && !OtherActiveHolder(d, u, r) then (d, LastAdmin)
    else (d.(grants := d.grants - {(u, r)}), Done)
  }

  ghost function AssignRole(d: Tables, u: string, roleId: string, roleName: string): (Tables, Outcome) {
    if roleId == "" && roleName == "" then (d, BadRequest)
    else
      var role := if roleId != "" then (if roleId in d.roles then Some(roleId) else None) else RoleNamed(d, roleName);
      if role.None? || u !in d.users then (d, NotFound)
      else if (u, role.value) in d.grants then (d, Noop)
      else (d.(grants := d.grants + {(u, role.value)}), Done)
  }

  /** The roles an invitation asks for; none means member. */
  function InvitedRoles(names: seq<string>): seq<string> {
    if names == [] then ["member"] else names
  }

  ghost predicate Repeated(names: seq<string>) {
    exists i, j :: 0 <= i < j < |names| && names[i] == names[j]
  }

  ghost function InviteUser(d: Tables, id: string, email: string, names: seq<string>): (Tables, Outcome) {
    if EmailTaken(d, email) then (d, Conflict)
    else if exists i :: 0 <= i < |names| && !NameTaken(d, names[i]) then (d, BadRequest)
    else if id in d.users || Repeated(names) || (names == [] && !NameTaken(d, "member")) then (d, DatabaseError)
    else
      var asked := InvitedRoles(names);
      (d.(users := d.users[id := User(email, Active)],
          grants := d.grants + Asked(d, id, asked)), Done)
  }

  /** The grants of the named roles to user `u`. */
  ghost function Asked(d: Tables, u: string, names: seq<string>): set<(string, string)> {
    set r | r in d.roles && d.roles[r] in names :: (u, r)
  }

  lemma AskedGrows(d: Tables, u: string, names: seq<string>, i: nat, r: string)
    requires Consistent(d) && i < |names| && r in d.roles && d.roles[r] == names[i]
    ensures Asked(d, u, names[..i + 1]) == Asked(d, u, names[..i]) + {(u, r)}
  {
    assert names[..i + 1] == names[..i] + [names[i]];
  }

  ghost function CreateRole(d: Tables, id: string, name: string, permissionsKnown: bool): (Tables, Outcome) {
    if !permissionsKnown then (d, BadRequest)
    else if NameTaken(d, name) then (d, Conflict)
    else if id in d.roles then (d, DatabaseError)
    else (d.(roles := d.roles[id := name]), Done)
  }

  ghost function UpdateRole(d: Tables, r: string, name: Option<string>, permissionsKnown: bool): (Tables, Outcome) {
    if r !in d.roles then (d, NotFound)
    else if name.Some? && name.value != d.roles[r]
            && (d.roles[r] in STATIC_ROLE_NAMES || NameTaken(d, name.value)) then (d, Conflict)
    else if !permissionsKnown then (d, BadRequest)
    else if name.Some? then (d.(roles := d.roles[r := name.value]), Done)
    else (d, Done)
  }

  ghost function DeleteRole(d: Tables, r: string): (Tables, Outcome) {
    if r !in d.roles then (d, NotFound)
    else if RoleHeld(d, r) then (d, Conflict)
    else (d.(roles := d.roles - {r}), Done)
  }

  // ----- the handlers as written -----

  class Directory {
    var users: map<string, User>
    var roles: map<string, string>
    var userRoles: set<(string, string)>

    function Look(): Tables
      reads this
    {
      Tables(users, roles, userRoles)
    }

    constructor (users: map<string, User>, roles: map<string, string>, userRoles: set<(string, string)>)
      ensures Look() == Tables(users, roles, userRoles)
    {
      this.users, this.roles, this.userRoles := users, roles, userRoles;
    }

    /** `_user_role_names`. */
    method UserRoleNames(u: string) returns (names: set<string>)
      ensures ADMIN in names <==> IsAdmin(Look(), u)
    {
      names := set r | r in roles && (u, r) in userRoles :: roles[r];
    }

    /** The count query of the guards: active users other than `u` holding a role named admin. */
    method ActiveAdminsBesides(u: string) returns (found: set<string>)
      ensures found == {} <==> !OtherActiveAdmin(Look(), u)
    {
      found := set v, r | v in users && r in roles && users[v].status == Active && v != u && roles[r] == ADMIN
                          && (v, r) in userRoles :: v;
      if OtherActiveAdmin(Look(), u) {
        ghost var v :| v != u && ActiveAdmin(Look(), v);
        assert v in found;
      }
      if found != {} {
        ghost var v :| v in found;
        assert ActiveAdmin(Look(), v);
      }
    }

    method UpdateUser(u: string, status: Option<Status>) returns (outcome: Outcome)
      modifies this
      ensures (Look(), outcome) == Apply(old(Look()), OpUpdateUser(u, status))
    {
      if u !in users {
        return NotFound;
      }
      var currentRoles := UserRoleNames(u);
      if status.Some? && status.value in {Suspended, Deleted} && ADMIN in currentRoles {
        var activeAdmins := ActiveAdminsBesides(u);
        if activeAdmins == {} {
          return LastAdmin;
        }
      }
      if status.Some? {
        users := users[u := users[u].(status := status.value)];
      }
      outcome := Done;
    }

    method SoftDeleteUser(u: string) returns (outcome: Outcome)
      modifies this
      ensures (Look(), outcome) == Apply(old(Look()), OpSoftDelete(u))
    {
      if u !in users {
        return NotFound;
      }
      var names := UserRoleNames(u);
      if ADMIN in names {
        var activeAdmins := ActiveAdminsBesides(u);
        if activeAdmins == {} {
          return LastAdmin;
        }
      }
      users := users[u := users[u].(status := Deleted)];
      outcome := Done;
    }

    method RevokeRole(u: string, r: string) returns (outcome: Outcome)
      modifies this
      ensures (Look(), outcome) == Apply(old(Look()), OpRevoke(u, r))
    {
      if r !in roles {
        return NotFound;
      }
      if roles[r] == ADMIN {
        var activeAdmins := set v | v in users && users[v].status == Active && v != u && (v, r) in userRoles;
        if activeAdmins == {} {
          assert forall v :: v in users && users[v].status == Active && v != u && v !in activeAdmins ==>
              (v, r) !in userRoles;
          return LastAdmin;
        }
        ghost var v :| v in activeAdmins;
      }
      userRoles := userRoles - {(u, r)};
      outcome := Done;
    }

    method AssignRole(u: string, roleId: string, roleName: string) returns (outcome: Outcome)
      requires Consistent(Look())
      modifies this
      ensures (Look(), outcome) == Apply(old(Look()), OpAssign(u, roleId, roleName))
    {
      if roleId == "" && roleName == "" {
        return BadRequest;
      }
      var role: string;
      if roleId != "" {
        if roleId !in roles {
          return NotFound;
        }
        role := roleId;
      } else {
        if roleName !in roles.Values {
          return NotFound;
        }
        role :| role in roles && roles[role] == roleName;
      }
      if u !in users {
        return NotFound;
      }
      if (u, role) in userRoles {
        return Noop;
      }
      userRoles := userRoles + {(u, role)};
      outcome := Done;
    }

    method InviteUser(id: string, email: string, names: seq<string>) returns (outcome: Outcome)
      requires Consistent(Look())
      modifies this
      ensures (Look(), outcome) == Apply(old(Look()), OpInvite(id, email, names))
    {
      var same := set v | v in users && users[v].email == email;
      if same != {} {
        ghost var v :| v in same;
        return Conflict;
      }
      assert forall v :: v in users && users[v].email == email ==> v in same;
      if exists i :: 0 <= i < |names| && names[i] !in roles.Values {
        ghost var i :| 0 <= i < |names| && names[i] !in roles.Values;
        assert !NameTaken(Look(), names[i]);
        return BadRequest;
      }
      assert forall i :: 0 <= i < |names| ==> NameTaken(Look(), names[i]);
      if id in users {
        return DatabaseError;
      }
      var added, stored := AddUserRoles(id, InvitedRoles(names));
      if !stored {
        assert names == [] ==> !Repeated(InvitedRoles(names));
        return DatabaseError;
      }
      assert names == [] ==> NameTaken(Look(), InvitedRoles(names)[0]);
      assert !EmailTaken(Look(), email) && !Repeated(names);
      users := users[id := User(email, Active)];
      userRoles := userRoles + added;
      outcome := Done;
    }

    /** The grants of a new user, one by one: a role that does not exist or a second grant of the same one fails. */
    method AddUserRoles(id: string, names: seq<string>) returns (added: set<(string, string)>, stored: bool)
      requires Consistent(Look())
      ensures stored <==> (forall i :: 0 <= i < |names| ==> NameTaken(Look(), names[i])) && !Repeated(names)
      ensures stored ==> added == Asked(Look(), id, names)
    {
      added := {};
      for i := 0 to |names|
        invariant added == Asked(Look(), id, names[..i])
        invariant forall j :: 0 <= j < i ==> NameTaken(Look(), names[j])
        invariant forall j, k :: 0 <= j < k < i ==> names[j] != names[k]
      {
        if names[i] !in roles.Values {
          assert !NameTaken(Look(), names[i]);
          return added, false;
        }
        var r :| r in roles && roles[r] == names[i];
        if (id, r) in added {
          assert names[i] in names[..i];
          return added, false;
        }
        AskedGrows(Look(), id, names, i, r);
        added := added + {(id, r)};
      }
      assert names[..|names|] == names;
      stored := true;
    }

    method UpdateRole(r: string, name: Option<string>, permissionsKnown: bool) returns (outcome: Outcome)
      modifies this
      ensures (Look(), outcome) == Apply(old(Look()), OpUpdateRole(r, name, permissionsKnown))
    {
      if r !in roles {
        return NotFound;
      }
      var renamed := roles;
      if name.Some? && name.value != roles[r] {
        if roles[r] in STATIC_ROLE_NAMES {
          return Conflict;
        }
        var dup := set s | s in roles && roles[s] == name.value && s != r;
        if dup != {} {
          ghost var s :| s in dup;
          return Conflict;
        }
        assert forall s :: s in roles && roles[s] == name.value ==> s in dup;
        renamed := roles[r := name.value];
      }
      if !permissionsKnown {
        return BadRequest;
      }
      assert name.Some? && name.value == roles[r] ==> roles[r := name.value] == roles;
      roles := renamed;
      outcome := Done;
    }

    method CreateRole(id: string, name: string, permissionsKnown: bool) returns (outcome: Outcome)
      modifies this
      ensures (Look(), outcome) == Apply(old(Look()), OpCreateRole(id, name, permissionsKnown))
    {
      if !permissionsKnown {
        return BadRequest;
      }
      if name in roles.Values {
        return Conflict;
      }
      if id in roles {
        return DatabaseError;
      }
      roles := roles[id := name];
      outcome := Done;
    }

    method DeleteRole(r: string) returns (outcome: Outcome)
      modifies this
      ensures (Look(), outcome) == Apply(old(Look()), OpDeleteRole(r))
    {
      if r !in roles {
        return NotFound;
      }
      var holders := set g | g in userRoles && g.1 == r;
      if holders != {} {
        ghost var g :| g in holders;
        assert (g.0, r) in userRoles;
        return Conflict;
      }
      assert forall v :: (v, r) in userRoles ==> (v, r) in holders;
      roles := roles - {r};
      outcome := Done;
    }
  }

  // ----- every run keeps an active admin -----

  datatype Op =
    | OpUpdateUser(user: string, status: Option<Status>)
    | OpSoftDelete(user: string)
    | OpRevoke(user: string, role: string)
    | OpAssign(user: string, roleId: string, roleName: string)
    | OpInvite(id: string, email: string, names: seq<string>)
    | OpCreateRole(id: string, name: string, permissionsKnown: bool)
    | OpUpdateRole(role: string, newName: Option<string>, permissionsKnown: bool)
    | OpDeleteRole(role: string)

  ghost function Apply(d: Tables, op: Op): (Tables, Outcome) {
    match op
    case OpUpdateUser(u, status) => UpdateUser(d, u, status)
    case OpSoftDelete(u) => SoftDelete(d, u)
    case OpRevoke(u, r) => RevokeRole(d, u, r)
    case OpAssign(u, id, name) => AssignRole(d, u, id, name)
    case OpInvite(id, email, names) => InviteUser(d, id, email, names)
    case OpCreateRole(id, name, known) => CreateRole(d, id, name, known)
    case OpUpdateRole(r, name, known) => UpdateRole(d, r, name, known)
    case OpDeleteRole(r) => DeleteRole(d, r)
  }

  ghost function Run(d: Tables, ops: seq<Op>): Tables
    decreases |ops|
  {
    if ops == [] then d else Run(Apply(d, ops[0]).0, ops[1..])
  }

  ghost predicate Safe(d: Tables) {
    Consistent(d) && HasActiveAdmin(d)
  }

  /** An active admin stays one when its row, its grant and the role's name stay. */
  lemma StaysAdmin(d: Tables, e: Tables, u: string, r: string)
    requires u in d.users && d.users[u].status == Active && r in d.roles && d.roles[r] == ADMIN && (u, r) in d.grants
    requires u in e.users && e.users[u] == d.users[u] && r in e.roles && e.roles[r] == ADMIN && (u, r) in e.grants
    ensures HasActiveAdmin(e)
  {
    assert ActiveAdmin(e, u);
  }

  lemma StatusKeepsAdmin(d: Tables, u: string, status: Status)
    requires HasActiveAdmin(d) && u in d.users && (status == Active || !IsAdmin(d, u) || OtherActiveAdmin(d, u))
    ensures HasActiveAdmin(SetStatus(d, u, status))
  {
    var e := SetStatus(d, u, status);
    var v :| ActiveAdmin(d, v) && (v != u || status == Active);
    var r :| r in d.roles && d.roles[r] == ADMIN && (v, r) in d.grants;
    assert IsAdmin(e, v);
    assert ActiveAdmin(e, v);
  }

  lemma StepKeepsConsistent(d: Tables, op: Op)
    requires Consistent(d)
    ensures Consistent(Apply(d, op).0)
  {
  }

  lemma StepKeepsAdmin(d: Tables, op: Op)
    requires Safe(d)
    ensures HasActiveAdmin(Apply(d, op).0)
  {
    var e := Apply(d, op).0;
    match op
    case OpUpdateUser(u, status) =>
      if u in d.users && status.Some? && e != d {
        StatusKeepsAdmin(d, u, status.value);
      }
    case OpSoftDelete(u) =>
      if u in d.users && e != d {
        StatusKeepsAdmin(d, u, Deleted);
      }
    case OpRevoke(u, r) =>
      if e != d {
        if d.roles[r] == ADMIN {
          var v :| v != u && v in d.users && d.users[v].status == Active && (v, r) in d.grants;
          StaysAdmin(d, e, v, r);
        } else {
          var v :| ActiveAdmin(d, v);
          var s :| s in d.roles && d.roles[s] == ADMIN && (v, s) in d.grants;
          StaysAdmin(d, e, v, s);
        }
      }
    case _ =>
      var v :| ActiveAdmin(d, v);
      var s :| s in d.roles && d.roles[s] == ADMIN && (v, s) in d.grants;
      StaysAdmin(d, e, v, s);
  }

  /** From an active admin on, every sequence of user and role operations keeps one. */
  lemma {:induction false} EveryRunKeepsAdmin(d: Tables, ops: seq<Op>)
    requires Safe(d)
    ensures Safe(Run(d, ops))
    decreases |ops|
  {
    if ops != [] {
      StepKeepsConsistent(d, ops[0]);
      StepKeepsAdmin(d, ops[0]);
      EveryRunKeepsAdmin(Apply(d, ops[0]).0, ops[1..]);
    }
  }

  // ----- the guards refuse exactly what they must -----

  /** The guarded operations without their guards. */
  ghost function Unguarded(d: Tables, op: Op): Tables
    requires op.OpUpdateUser? || op.OpSoftDelete? || op.OpRevoke?
  {
    match op
    case OpUpdateUser(u, status) => if status.Some? then SetStatus(d, u, status.value) else d
    case OpSoftDelete(u) => SetStatus(d, u, Deleted)
    case OpRevoke(u, r) => d.(grants := d.grants - {(u, r)})
  }

  lemma StatusLeavesNone(d: Tables, u: string, status: Status)
    requires u in d.users && status != Active && !OtherActiveAdmin(d, u)
    ensures !HasActiveAdmin(SetStatus(d, u, status))
  {
    var e := SetStatus(d, u, status);
    forall v ensures !ActiveAdmin(e, v) {
      assert IsAdmin(e, v) == IsAdmin(d, v);
      assert v != u ==> !ActiveAdmin(d, v);
    }
  }

  lemma RevokeLeavesNone(d: Tables, u: string, r: string)
    requires Consistent(d) && r in d.roles && d.roles[r] == ADMIN && !OtherActiveHolder(d, u, r)
    ensures !HasActiveAdmin(d.(grants := d.grants - {(u, r)}))
  {
    var e := d.(grants := d.grants - {(u, r)});
    forall v ensures !ActiveAdmin(e, v) {
      if IsAdmin(e, v) {
        var s :| s in e.roles && e.roles[s] == ADMIN && (v, s) in e.grants;
        assert s == r && v != u;
      }
    }
  }

  /** Each guard refuses exactly when performing the step would leave no active admin, and otherwise the step is
      performed as asked, if its target exists. */
  lemma GuardIsExact(d: Tables, op: Op)
    requires Safe(d) && (op.OpUpdateUser? || op.OpSoftDelete? || op.OpRevoke?)
    ensures Apply(d, op).1 == LastAdmin <==> !HasActiveAdmin(Unguarded(d, op))
    ensures Apply(d, op).1 == Done ==> Apply(d, op).0 == Unguarded(d, op)
    ensures Apply(d, op).1 != Done ==> Apply(d, op).0 == d
  {
    StepKeepsAdmin(d, op);
    if Apply(d, op).1 == LastAdmin {
      match op
      case OpUpdateUser(u, status) => StatusLeavesNone(d, u, status.value);
      case OpSoftDelete(u) => StatusLeavesNone(d, u, Deleted);
      case OpRevoke(u, r) => RevokeLeavesNone(d, u, r);
    } else if Apply(d, op).1 == NotFound {
      if op.OpRevoke? {
        assert (op.user, op.role) !in d.grants;
        assert d.grants - {(op.user, op.role)} == d.grants;
      }
      assert Unguarded(d, op) == d;
    }
  }
}
