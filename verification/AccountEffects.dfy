/** What every administrator operation does to the stored accounts, told on the accounts and the
    members of the groups: what is new, what is gone, what stays, and when a call is refused. */
module AccountEffects {
  import opened Sequences
  import opened Accounts

  /** Nothing but the accounts of `names` differs. */
  ghost predicate OtherUsersStay(s: Storage, t: Storage, names: set<string>) {
    forall u :: u !in names ==> (u in t.users <==> u in s.users) && (u in s.users ==> t.users[u] == s.users[u])
  }

  ghost predicate OtherGroupsStay(s: Storage, t: Storage, names: set<string>) {
    forall g :: g !in names ==> (g in t.groups <==> g in s.groups) && (g in s.groups ==> t.groups[g] == s.groups[g])
  }

  ghost predicate Member(s: Storage, u: string, g: string) {
    g in s.groups && u in s.groups[g].members
  }

  /** The groups are the same, with the same grants, and memberships differ for `name` alone: it is a
      member of `group` and of no other, or of none. */
  ghost predicate MovesMember(s: Storage, t: Storage, name: string, group: Option<string>) {
    && t.groups.Keys == s.groups.Keys
    && (forall g :: g in s.groups ==> t.groups[g].grants == s.groups[g].grants)
    && (forall u, g :: u != name ==> (Member(t, u, g) <==> Member(s, u, g)))
    && (forall g :: Member(t, name, g) <==> g in s.groups && Some(g) == group && g != "")
  }

  ghost predicate SameGroups(s: Storage, t: Storage) {
    t.groups == s.groups
  }

  /** Whatever is stored, it is read without the members that are no users, and otherwise as it is. */
  lemma LoadedIs(s: Storage)
    ensures Loaded(s).users == s.users && Loaded(s).groups.Keys == s.groups.Keys
    ensures forall g :: g in s.groups ==> Loaded(s).groups[g].grants == s.groups[g].grants
    ensures forall u, g :: Member(Loaded(s), u, g) <==> Member(s, u, g) && u in s.users
  {
  }

  /** A call that does not finish saves nothing. */
  lemma RefusedSavesNothing(s: Storage, op: Op)
    requires Step(s, op).0.Refused?
    ensures Step(s, op).1 == s
  {
  }

  lemma CreateUserEffect(s: Storage, name: string, account: Account, group: Option<string>, fieldsOk: bool)
    requires Inv(s)
    ensures var (answer, t) := Step(s, CreateUser(name, account, group, fieldsOk));
      && (answer == Refused(BadFields) <==> name == "" || !fieldsOk)
      && (answer == Refused(UserExists) <==> name != "" && fieldsOk && name in s.users)
      && (answer == Refused(GroupUnknown) <==>
            && name != "" && fieldsOk && name !in s.users
            && group.Some? && group.value != "" && group.value !in s.groups)
      && (answer == Done <==>
            && name != "" && fieldsOk && name !in s.users
            && (group.Some? && group.value != "" ==> group.value in s.groups))
      && (answer == Done ==>
            && name in t.users && t.users[name] == Account(account.role, true, account.details)
            && OtherUsersStay(s, t, {name}) && MovesMember(s, t, name, group))
  {
    LoadedIsSaved(s);
    assert forall g :: g in s.groups ==> name !in s.users ==> name !in s.groups[g].members;
  }

  // ----- update of a user -----

  /** The account after an update: what was asked for, and the rest as it was. */
  function UpdatedAs(a: Account, details: Option<string>, role: Option<RoleArg>, active: Option<bool>): Account {
    Account(if role.Some? && role.value.Known? then role.value.role else a.role,
            if active.Some? then active.value else a.active,
            if details.Some? then details.value else a.details)
  }

  lemma EditedIs(users: map<string, Account>, name: string, details: Option<string>, role: Option<RoleArg>,
                 active: Option<bool>)
    requires name in users && Edited(users, name, details, role, active).0.None?
    ensures Edited(users, name, details, role, active).1 ==
      users[name := UpdatedAs(users[name], details, role, active)]
    ensures role.Some? ==> role.value.Known?
  {
  }

  lemma RegroupedMoves(s: Storage, users: map<string, Account>, name: string, group: Option<string>)
    requires Regrouped(s.groups, name, group).0.None?
    ensures MovesMember(s, Storage(users, Regrouped(s.groups, name, group).1), name, group)
  {
  }

  /** A finished update gives the account exactly what was asked for, moves the user to the group asked
      for if there is such a wish, and changes nothing else. */
  lemma UpdateUserEffect(s: Storage, op: Op)
    requires Inv(s) && op.UpdateUser? && Step(s, op).0 == Done
    ensures var t := Step(s, op).1;
      && op.name in s.users && op.name in t.users
      && t.users[op.name] == UpdatedAs(s.users[op.name], op.details, op.role, op.active)
      && OtherUsersStay(s, t, {op.name})
      && (if op.setGroup then MovesMember(s, t, op.name, op.group) else SameGroups(s, t))
  {
    LoadedIsSaved(s);
    EditedIs(s.users, op.name, op.details, op.role, op.active);
    if op.setGroup {
      RegroupedMoves(s, Edited(s.users, op.name, op.details, op.role, op.active).1, op.name, op.group);
    }
  }

  /** The administrator changes that would touch the actor's own account. */
  predicate OwnHarm(op: Op)
    requires op.UpdateUser?
  {
    && op.actor != "" && op.actor == op.name
    && (op.active == Some(false) || (op.role.Some? && op.role.value != BlankRole && op.role.value != Known(Admin)))
  }

  predicate FieldsBad(op: Op)
    requires op.UpdateUser?
  {
    !op.fieldsOk || (op.role.Some? && !op.role.value.Known?)
  }

  /** The guards: with one active administrator or none, no administrator is given another role, and
      nobody who is one after the change of role is deactivated. */
  ghost predicate Guarded(s: Storage, op: Op)
    requires op.UpdateUser? && op.name in s.users
  {
    var admins := set u | u in s.users && s.users[u].role == Admin && s.users[u].active;
    var a := s.users[op.name];
    var role := if op.role.Some? && op.role.value.Known? then op.role.value.role else a.role;
    || (a.role == Admin && role != Admin && |admins| <= 1)
    || (role == Admin && op.active == Some(false) && |if a.active then admins + {op.name} else admins| <= 1)
  }

  lemma AdminsAfter(users: map<string, Account>, name: string, details: Option<string>, role: Role)
    requires name in users
    ensures var admins := set u | u in users && users[u].role == Admin && users[u].active;
      var renamed := Renamed(users, name, details);
      && name in renamed && renamed[name].role == users[name].role && renamed[name].active == users[name].active
      && ActiveAdmins(renamed) == admins
      && (role == Admin ==>
            ActiveAdmins(renamed[name := renamed[name].(role := role)]) ==
              if users[name].active then admins + {name} else admins)
  {
  }

  lemma EditedIsGuarded(s: Storage, op: Op)
    requires op.UpdateUser? && op.name in s.users && !FieldsBad(op)
    ensures Edited(s.users, op.name, op.details, op.role, op.active).0 ==
      if Guarded(s, op) then Some(LastAdmin) else None
  {
    var a := s.users[op.name];
    var renamed := Renamed(s.users, op.name, op.details);
    AdminsAfter(s.users, op.name, op.details, if op.role.Some? then op.role.value.role else a.role);
    assert renamed[op.name := renamed[op.name].(role := a.role)] == renamed;
  }

  /** What an update answers. */
  lemma UpdateUserAnswer(s: Storage, op: Op)
    requires Inv(s) && op.UpdateUser?
    ensures Step(s, op).0 ==
      if op.name !in s.users then Refused(UserUnknown)
      else if OwnHarm(op) then Refused(OwnAccount)
      else if FieldsBad(op) then Refused(BadFields)
      else if Guarded(s, op) then Refused(LastAdmin)
      else if op.setGroup && op.group.Some? && op.group.value != "" && op.group.value !in s.groups
        then Refused(GroupUnknown)
      else Done
  {
    LoadedIsSaved(s);
    if op.name in s.users && !FieldsBad(op) {
      EditedIsGuarded(s, op);
    }
  }

  // ----- deletion of a user -----

  lemma DeleteUserEffect(s: Storage, name: string, actor: string)
    requires Inv(s)
    ensures var (answer, t) := Step(s, DeleteUser(name, actor));
      && (answer == Refused(UserUnknown) <==> name !in s.users)
      && (answer == Refused(OwnAccount) <==> name in s.users && name == actor && actor != "")
      && (answer == Done ==> name !in t.users && OtherUsersStay(s, t, {name}) && MovesMember(s, t, name, None))
      && (answer == Done || answer == Refused(UserUnknown) || answer == Refused(OwnAccount) ||
          answer == Refused(LastAdmin))
  {
    LoadedIsSaved(s);
  }

  // ----- groups -----

  /** Somebody among the members is in another group. */
  ghost predicate Shared(s: Storage, members: set<string>, name: string) {
    exists u, h :: u in members && h != name && Member(s, u, h)
  }

  lemma SharedIff(s: Storage, members: set<string>, name: string)
    ensures name != "" ==> (InOtherGroup(members, s.groups, name) <==> Shared(s, members, name))
    ensures name !in s.groups ==> (InOtherGroup(members, s.groups, "") <==> Shared(s, members, name))
  {
    if u, h :| u in members && h != name && Member(s, u, h) {
      assert u in s.groups[h].members * members;
    }
    forall g | g in s.groups && !(s.groups[g].members !! members) ensures exists u :: u in members && Member(s, u, g) {
      var u :| u in s.groups[g].members && u in members;
      assert Member(s, u, g);
    }
  }

  lemma CreateGroupEffect(s: Storage, name: string, nameOk: bool, members: set<string>, grants: Grants)
    requires Inv(s)
    ensures var (answer, t) := Step(s, CreateGroup(name, nameOk, members, grants));
      && (answer == Refused(BadFields) <==> name == "" || !nameOk)
      && (answer == Refused(GroupExists) <==> name != "" && nameOk && name in s.groups)
      && (answer == Done <==>
            name != "" && nameOk && name !in s.groups && members <= s.users.Keys && !Shared(s, members, name))
      && (answer == Done ==>
            && t.users == s.users && OtherGroupsStay(s, t, {name})
            && name in t.groups && t.groups[name] == Group(members, grants))
  {
    LoadedIsSaved(s);
    SharedIff(s, members, name);
  }

  /** A finished change of a group gives it the name, members and grants asked for; the old name is gone
      if it is another. */
  lemma UpdateGroupEffect(s: Storage, op: Op)
    requires Inv(s) && op.UpdateGroup?
    ensures var (answer, t) := Step(s, op);
      var target := if op.newName.Some? then op.newName.value else op.name;
      && (answer == Refused(GroupUnknown) <==> op.name !in s.groups)
      && (answer == Done ==>
            && op.name in s.groups && t.users == s.users && OtherGroupsStay(s, t, {op.name, target})
            && (target != op.name ==> op.name !in t.groups && target !in s.groups)
            && target in t.groups
            && t.groups[target] ==
               Group(if op.newMembers.Some? then op.newMembers.value else s.groups[op.name].members, op.grants))
  {
    LoadedIsSaved(s);
  }

  /** When it is refused. */
  lemma UpdateGroupAnswer(s: Storage, op: Op)
    requires Inv(s) && op.UpdateGroup? && op.name in s.groups && op.name != ""
    ensures var answer := Step(s, op).0;
      var target := if op.newName.Some? then op.newName.value else op.name;
      var members := if op.newMembers.Some? then op.newMembers.value else s.groups[op.name].members;
      && (answer == Refused(BadFields) <==> op.newName.Some? && (target == "" || !op.nameOk))
      && (answer == Done <==>
            && !(op.newName.Some? && (target == "" || !op.nameOk)) && (target == op.name || target !in s.groups)
            && members <= s.users.Keys && !Shared(s, members, op.name))
  {
    LoadedIsSaved(s);
    var members := if op.newMembers.Some? then op.newMembers.value else s.groups[op.name].members;
    SharedIff(s, members, op.name);
  }

  lemma DeleteGroupEffect(s: Storage, name: string)
    requires Inv(s)
    ensures var (answer, t) := Step(s, DeleteGroup(name));
      && (answer == Done <==> name in s.groups) && (answer == Refused(GroupUnknown) <==> name !in s.groups)
      && (answer == Done ==> name !in t.groups && t.users == s.users && OtherGroupsStay(s, t, {name}))
  {
    LoadedIsSaved(s);
  }
}
