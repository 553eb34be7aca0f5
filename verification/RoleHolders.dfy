/** Who may sign in and who holds which role after each operation on users and roles, and when each of them is done. */
module RoleHolders {
  import opened Wrappers
  import opened AdminGuard

  /** The role that an assignment means: the one with this id, or else the one with this name. */
  ghost predicate Meant(d: Tables, roleId: string, roleName: string, r: string) {
    r in d.roles && if roleId != "" then r == roleId else roleName != "" && d.roles[r] == roleName
  }

  ghost predicate MeansSome(d: Tables, roleId: string, roleName: string) {
    exists r :: Meant(d, roleId, roleName, r)
  }

  /** An assignment gives the user the role it means, and nobody anything else; holding it already is no error. It is
      refused when there is no such user or role. */
  lemma AssignGrants(d: Tables, u: string, roleId: string, roleName: string)
    requires Consistent(d)
    ensures var (e, out) := Apply(d, OpAssign(u, roleId, roleName));
            && e.users == d.users && e.roles == d.roles
            && (forall r :: Meant(d, roleId, roleName, r) && u in d.users ==>
                  e.grants == d.grants + {(u, r)} && out == if (u, r) in d.grants then Noop else Done)
            && (!MeansSome(d, roleId, roleName) || u !in d.users ==>
                  e == d && out == if roleId == "" && roleName == "" then BadRequest else NotFound)
  {
    forall r | Meant(d, roleId, roleName, r) && u in d.users
      ensures Apply(d, OpAssign(u, roleId, roleName)).0.grants == d.grants + {(u, r)}
    {
      assert roleId == "" ==> RoleNamed(d, roleName) == Some(r);
    }
    if roleId == "" && roleName != "" && NameTaken(d, roleName) {
      var r :| r in d.roles && d.roles[r] == roleName;
      assert Meant(d, roleId, roleName, r);
    } else if roleId in d.roles {
      assert roleId != "" ==> Meant(d, roleId, roleName, roleId);
    }
  }

  ghost predicate AllTaken(d: Tables, names: seq<string>) {
    forall i :: 0 <= i < |names| ==> NameTaken(d, names[i])
  }

  ghost predicate Distinct(names: seq<string>) {
    forall i, j :: 0 <= i < j < |names| ==> names[i] != names[j]
  }

  /** An invitation adds one active user, with the roles it names and no others, or with "member" when it names none. It
      is accepted exactly when the address and the id are new, and the roles exist and are named once each. */
  lemma InviteAdds(d: Tables, id: string, email: string, names: seq<string>)
    requires Consistent(d)
    ensures var (e, out) := Apply(d, OpInvite(id, email, names));
            var asked := if names == [] then ["member"] else names;
            && (out == Done <==> !EmailTaken(d, email) && id !in d.users && AllTaken(d, asked) && Distinct(asked))
            && (out == Done ==> e.users == d.users[id := User(email, Active)] && e.roles == d.roles)
            && (out == Done ==> forall r :: (id, r) in e.grants <==> r in d.roles && d.roles[r] in asked)
            && (out == Done ==> forall v, r :: v != id ==> ((v, r) in e.grants <==> (v, r) in d.grants))
            && (out != Done ==> e == d) && (out == Conflict <==> EmailTaken(d, email))
  {
    var asked := if names == [] then ["member"] else names;
    var (e, out) := Apply(d, OpInvite(id, email, names));
    assert Distinct(asked) <==> !Repeated(names);
    assert names == [] ==> (AllTaken(d, asked) <==> NameTaken(d, asked[0]));
    if out == Done {
      forall r ensures (id, r) in e.grants <==> r in d.roles && d.roles[r] in asked {
        assert (id, r) !in d.grants;
      }
    }
  }

  /** Changing and deleting a user touches one status; revoking takes away one grant. Nothing else changes, and nothing
      at all when the answer is not "done". */
  lemma UserSteps(d: Tables, u: string, status: Option<Status>, r: string)
    ensures var (e, out) := Apply(d, OpUpdateUser(u, status));
            && (out != Done ==> e == d) && (out == NotFound <==> u !in d.users)
            && (out == Done ==>
                  e == if status.None? then d else d.(users := d.users[u := User(d.users[u].email, status.value)]))
    ensures var (e, out) := Apply(d, OpSoftDelete(u));
            && (out != Done ==> e == d) && (out == NotFound <==> u !in d.users)
            && (out == Done ==> e == d.(users := d.users[u := User(d.users[u].email, Deleted)]))
    ensures var (e, out) := Apply(d, OpRevoke(u, r));
            && (out != Done ==> e == d) && (out == NotFound <==> r !in d.roles)
            && (out == Done ==> e == d.(grants := d.grants - {(u, r)}))
  {
  }

  /** A new role has the name it was given; a role keeps its holders when it is renamed; only a role that nobody holds
      can be deleted, and the three roles the system knows keep their names. */
  lemma RoleSteps(d: Tables, r: string, name: string, newName: Option<string>, known: bool)
    ensures var (e, out) := Apply(d, OpCreateRole(r, name, known));
            && (out == Done <==> known && !NameTaken(d, name) && r !in d.roles) && (out != Done ==> e == d)
            && (out == Done ==> e == d.(roles := d.roles[r := name]))
    ensures var (e, out) := Apply(d, OpUpdateRole(r, newName, known));
            && (out != Done ==> e == d) && (out == NotFound <==> r !in d.roles)
            && (out == Conflict <==>
                  r in d.roles && newName.Some? && newName.value != d.roles[r]
                  && (d.roles[r] in {"admin", "editor", "member"} || NameTaken(d, newName.value)))
            && (out == Done ==> e == if newName.None? then d else d.(roles := d.roles[r := newName.value]))
    ensures var (e, out) := Apply(d, OpDeleteRole(r));
            && (out == Done <==> r in d.roles && forall v :: (v, r) !in d.grants) && (out != Done ==> e == d)
            && (out == Done ==> e == d.(roles := d.roles - {r}))
  {
  }
}
