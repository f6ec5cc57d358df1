/** Users and groups: the administrator operations on the stored accounts, and the invariants that
    every run of them keeps. Names are already trimmed and lower-cased; lists that the code sorts and
    deduplicates are sets. */
module Accounts {
  import opened Sequences

  datatype Role = User | GroupAdmin | Admin

  datatype Account = Account(role: Role, active: bool, details: string)

  datatype Permission = Permission(vm: string, labs: set<string>)

  datatype Grants = Grants(description: string, vmIds: set<string>, permissions: seq<Permission>)

  datatype Group = Group(members: set<string>, grants: Grants)

  datatype Storage = Storage(users: map<string, Account>, groups: map<string, Group>)

  datatype Refusal =
    | BadFields
    | UserExists
    | UserUnknown
    | GroupExists
    | GroupUnknown
    | OwnAccount
    | LastAdmin
    | SecondGroup

  datatype Answer = Done | Refused(why: Refusal)

  datatype RoleArg = BlankRole | UnknownRole | Known(role: Role)

  /** `fieldsOk`, `nameOk`: the remaining arguments, or the group name, pass their format checks.
      In `UpdateUser`, `details` is what the account would hold after the name and email changes. */
  datatype Op =
    | CreateUser(name: string, account: Account, group: Option<string>, fieldsOk: bool)
    | UpdateUser(name: string, details: Option<string>, fieldsOk: bool, role: Option<RoleArg>, active: Option<bool>,
                 setGroup: bool, group: Option<string>, actor: string)
    | DeleteUser(name: string, actor: string)
    | CreateGroup(name: string, nameOk: bool, members: set<string>, grants: Grants)
    | UpdateGroup(name: string, newName: Option<string>, nameOk: bool, newMembers: Option<set<string>>, grants: Grants)
    | DeleteGroup(name: string)

  // ----- what the operations consult -----

  function ActiveAdmins(users: map<string, Account>): set<string> {
    set u | u in users && users[u].role == Admin && users[u].active
  }

  /** Somebody among `members` is in a group other than `ignored`. */
  predicate InOtherGroup(members: set<string>, groups: map<string, Group>, ignored: string) {
    exists g :: g in groups && !(ignored != "" && g == ignored) && !(groups[g].members !! members)
  }

  function WithoutMember(groups: map<string, Group>, user: string): map<string, Group> {
    map g | g in groups :: groups[g].(members := groups[g].members - {user})
  }

  /** `_assign_user_to_group` */
  function Assign(user: string, group: string, groups: map<string, Group>): (Option<Refusal>, map<string, Group>) {
    if group == "" then (None, groups)
    else if group !in groups then (Some(GroupUnknown), groups)
    else if InOtherGroup({user}, groups, group) then (Some(SecondGroup), groups)
    else (None, groups[group := groups[group].(members := groups[group].members + {user})])
  }

  /** The storage as it is read back: members that are no users are dropped. */
  function Loaded(s: Storage): Storage {
    Storage(s.users, map g | g in s.groups :: s.groups[g].(members := s.groups[g].members * s.users.Keys))
  }

  // ----- the operations -----

  function CreatedUser(s: Storage, name: string, account: Account, group: Option<string>, fieldsOk: bool)
    : (Answer, Storage)
  {
    if name == "" || !fieldsOk then (Refused(BadFields), s)
    else if name in s.users then (Refused(UserExists), s)
    else
      var users := s.users[name := account.(active := true)];
      if group.None? then (Done, Storage(users, s.groups))
      else
        var (refusal, groups) := Assign(name, group.value, s.groups);
        if refusal.Some? then (Refused(refusal.value), s) else (Done, Storage(users, groups))
  }

  /** The role change, with its guard on the number of active administrators. */
  function Reroled(users: map<string, Account>, name: string, role: Option<RoleArg>)
    : (Option<Refusal>, map<string, Account>)
    requires name in users
  {
    if role.None? then (None, users)
    else if !role.value.Known? then (Some(BadFields), users)
    else if users[name].role == Admin && role.value.role != Admin && |ActiveAdmins(users)| <= 1 then
      (Some(LastAdmin), users)
    else (None, users[name := users[name].(role := role.value.role)])
  }

  function Reactivated(users: map<string, Account>, name: string, active: Option<bool>)
    : (Option<Refusal>, map<string, Account>)
    requires name in users
  {
    if active.None? then (None, users)
    else if users[name].role == Admin && active == Some(false) && |ActiveAdmins(users)| <= 1 then
      (Some(LastAdmin), users)
    else (None, users[name := users[name].(active := active.value)])
  }

  function Renamed(users: map<string, Account>, name: string, details: Option<string>): map<string, Account>
    requires name in users
  {
    if details.Some? then users[name := users[name].(details := details.value)] else users
  }

  /** The changes of one account, in the order of the code; the first refusal wins. */
  function Edited(users: map<string, Account>, name: string, details: Option<string>, role: Option<RoleArg>,
                  active: Option<bool>)
    : (Option<Refusal>, map<string, Account>)
    requires name in users
  {
    var (refusal, reroled) := Reroled(Renamed(users, name, details), name, role);
    if refusal.Some? then (refusal, reroled) else Reactivated(reroled, name, active)
  }

  /** `_set_user_group_membership` */
  function Regrouped(groups: map<string, Group>, name: string, group: Option<string>)
    : (Option<Refusal>, map<string, Group>)
  {
    if group.None? then (None, WithoutMember(groups, name)) else Assign(name, group.value, WithoutMember(groups, name))
  }

  predicate HarmsSelf(name: string, role: Option<RoleArg>, active: Option<bool>, actor: string) {
    actor != "" && name == actor &&
      (active == Some(false) || (role.Some? && role.value != BlankRole && role.value != Known(Admin)))
  }

  function UpdatedUser(s: Storage, op: Op): (Answer, Storage)
    requires op.UpdateUser?
  {
    var name := op.name;
    if name !in s.users then (Refused(UserUnknown), s)
    else if HarmsSelf(name, op.role, op.active, op.actor) then (Refused(OwnAccount), s)
    else if !op.fieldsOk then (Refused(BadFields), s)
    else
      var (refusal, users) := Edited(s.users, name, op.details, op.role, op.active);
      if refusal.Some? then (Refused(refusal.value), s)
      else if !op.setGroup then (Done, Storage(users, s.groups))
      else
        var (refusal, groups) := Regrouped(s.groups, name, op.group);
        if refusal.Some? then (Refused(refusal.value), s) else (Done, Storage(users, groups))
  }

  function DeletedUser(s: Storage, name: string, actor: string): (Answer, Storage) {
    if name !in s.users then (Refused(UserUnknown), s)
    else if actor != "" && name == actor then (Refused(OwnAccount), s)
    else if s.users[name].role == Admin && s.users[name].active && |ActiveAdmins(s.users)| <= 1 then
      (Refused(LastAdmin), s)
    else (Done, Storage(s.users - {name}, WithoutMember(s.groups, name)))
  }

  function CreatedGroup(s: Storage, name: string, nameOk: bool, members: set<string>, grants: Grants)
    : (Answer, Storage)
  {
    if name == "" || !nameOk then (Refused(BadFields), s)
    else if name in s.groups then (Refused(GroupExists), s)
    else if !(members <= s.users.Keys) then (Refused(UserUnknown), s)
    else if InOtherGroup(members, s.groups, "") then (Refused(SecondGroup), s)
    else (Done, s.(groups := s.groups[name := Group(members, grants)]))
  }

  function UpdatedGroup(s: Storage, op: Op): (Answer, Storage)
    requires op.UpdateGroup?
  {
    var target := if op.newName.Some? then op.newName.value else op.name;
    if op.name !in s.groups then (Refused(GroupUnknown), s)
    else if op.newName.Some? && (target == "" || !op.nameOk) then (Refused(BadFields), s)
    else if target != op.name && target in s.groups then (Refused(GroupExists), s)
    else
      var members := if op.newMembers.Some? then op.newMembers.value else s.groups[op.name].members;
      if !(members <= s.users.Keys) then (Refused(UserUnknown), s)
      else if InOtherGroup(members, s.groups, op.name) then (Refused(SecondGroup), s)
      else (Done, s.(groups := (s.groups - {op.name})[target := Group(members, op.grants)]))
  }

  function DeletedGroup(s: Storage, name: string): (Answer, Storage) {
    if name !in s.groups then (Refused(GroupUnknown), s) else (Done, s.(groups := s.groups - {name}))
  }

  function Applied(s: Storage, op: Op): (Answer, Storage) {
    match op
    case CreateUser(name, account, group, fieldsOk) => CreatedUser(s, name, account, group, fieldsOk)
    case UpdateUser(_, _, _, _, _, _, _, _) => UpdatedUser(s, op)
    case DeleteUser(name, actor) => DeletedUser(s, name, actor)
    case CreateGroup(name, nameOk, members, grants) => CreatedGroup(s, name, nameOk, members, grants)
    case UpdateGroup(_, _, _, _, _) => UpdatedGroup(s, op)
    case DeleteGroup(name) => DeletedGroup(s, name)
  }

  /** Load, change, save; nothing is saved when an error is raised. */
  function Step(s: Storage, op: Op): (Answer, Storage) {
    var (answer, after) := Applied(Loaded(s), op);
    if answer.Refused? then (answer, s) else (answer, after)
  }

  function Run(s: Storage, ops: seq<Op>): Storage
    decreases |ops|
  {
    if ops == [] then s else Run(Step(s, ops[0]).1, ops[1..])
  }

  // ----- the store -----

  /** The saved file; every method works on what it loaded and saves at its end. */
  class Store {
    var saved: Storage

    constructor (initial: Storage)
      ensures saved == initial
    {
      saved := initial;
    }

    method CreateUser(name: string, account: Account, group: Option<string>, fieldsOk: bool) returns (answer: Answer)
      modifies this
      ensures (answer, saved) == Step(old(saved), Op.CreateUser(name, account, group, fieldsOk))
    {
      if name == "" || !fieldsOk {
        return Refused(BadFields);
      }
      var storage := Loaded(saved);
      var users, groups := storage.users, storage.groups;
      if name in users {
        return Refused(UserExists);
      }
      users := users[name := account.(active := true)];
      if group.Some? {
        var refusal;
        refusal, groups := AssignUserToGroup(name, group.value, groups);
        if refusal.Some? {
          return Refused(refusal.value);
        }
      }
      saved := Storage(users, groups);
      return Done;
    }

    method UpdateUser(name: string, details: Option<string>, fieldsOk: bool, role: Option<RoleArg>,
                      active: Option<bool>, setGroup: bool, group: Option<string>, actor: string)
      returns (answer: Answer)
      modifies this
      ensures (answer, saved) ==
        Step(old(saved), Op.UpdateUser(name, details, fieldsOk, role, active, setGroup, group, actor))
    {
      var after;
      answer, after := UpdateLoadedUser(Loaded(saved), name, details, fieldsOk, role, active, setGroup, group, actor);
      if answer.Done? {
        saved := after;
      }
    }

    method DeleteUser(name: string, actor: string) returns (answer: Answer)
      modifies this
      ensures (answer, saved) == Step(old(saved), Op.DeleteUser(name, actor))
    {
      var storage := Loaded(saved);
      if name !in storage.users {
        return Refused(UserUnknown);
      }
      if actor != "" && name == actor {
        return Refused(OwnAccount);
      }
      if storage.users[name].role == Admin && storage.users[name].active && |ActiveAdmins(storage.users)| <= 1 {
        return Refused(LastAdmin);
      }
      saved := Storage(storage.users - {name}, WithoutMember(storage.groups, name));
      return Done;
    }

    method CreateGroup(name: string, nameOk: bool, members: set<string>, grants: Grants) returns (answer: Answer)
      modifies this
      ensures (answer, saved) == Step(old(saved), Op.CreateGroup(name, nameOk, members, grants))
    {
      if name == "" || !nameOk {
        return Refused(BadFields);
      }
      var storage := Loaded(saved);
      if name in storage.groups {
        return Refused(GroupExists);
      }
      if !(members <= storage.users.Keys) {
        return Refused(UserUnknown);
      }
      var second := ValidateSingleGroup(members, storage.groups, "");
      if second {
        return Refused(SecondGroup);
      }
      saved := storage.(groups := storage.groups[name := Group(members, grants)]);
      return Done;
    }

    method UpdateGroup(name: string, newName: Option<string>, nameOk: bool, members: Option<set<string>>,
                       grants: Grants)
      returns (answer: Answer)
      modifies this
      ensures (answer, saved) == Step(old(saved), Op.UpdateGroup(name, newName, nameOk, members, grants))
    {
      var storage := Loaded(saved);
      var groups := storage.groups;
      if name !in groups {
        return Refused(GroupUnknown);
      }
      var target := name;
      if newName.Some? {
        target := newName.value;
        if target == "" || !nameOk {
          return Refused(BadFields);
        }
        if target != name && target in groups {
          return Refused(GroupExists);
        }
      }
      var chosen := if members.Some? then members.value else groups[name].members;
      if !(chosen <= storage.users.Keys) {
        return Refused(UserUnknown);
      }
      var second := ValidateSingleGroup(chosen, groups, name);
      if second {
        return Refused(SecondGroup);
      }
      if target != name {
        groups := groups - {name};
      }
      groups := groups[target := Group(chosen, grants)];
      assert groups == (storage.groups - {name})[target := Group(chosen, grants)];
      saved := storage.(groups := groups);
      return Done;
    }

    method DeleteGroup(name: string) returns (answer: Answer)
      modifies this
      ensures (answer, saved) == Step(old(saved), Op.DeleteGroup(name))
    {
      var storage := Loaded(saved);
      if name !in storage.groups {
        return Refused(GroupUnknown);
      }
      saved := storage.(groups := storage.groups - {name});
      return Done;
    }
  }

  /** `_validate_single_group_membership`, true when it would raise. The groups are visited in an
      unknown order. */
  method ValidateSingleGroup(members: set<string>, groups: map<string, Group>, ignored: string) returns (second: bool)
    ensures second == InOtherGroup(members, groups, ignored)
  {
    var taken: set<string> := {};
    var rest := groups.Keys;
    while rest != {}
      invariant rest <= groups.Keys
      invariant taken == {} ==>
        forall g :: g in groups && g !in rest && !(ignored != "" && g == ignored) ==> groups[g].members !! members
      invariant taken != {} ==> InOtherGroup(members, groups, ignored)
      decreases |rest|
    {
      var g :| g in rest;
      rest := rest - {g};
      if !(ignored != "" && g == ignored) {
        var both := groups[g].members * members;
        taken := taken + both;
        assert both <= taken && forall u :: u in groups[g].members && u in members ==> u in both;
      }
    }
    return taken != {};
  }

  /** What `update_user` does between loading and saving. */
  method UpdateLoadedUser(storage: Storage, name: string, details: Option<string>, fieldsOk: bool,
                          role: Option<RoleArg>, active: Option<bool>, setGroup: bool, group: Option<string>,
                          actor: string)
    returns (answer: Answer, after: Storage)
    ensures (answer, after) ==
      UpdatedUser(storage, Op.UpdateUser(name, details, fieldsOk, role, active, setGroup, group, actor))
  {
    var users, groups := storage.users, storage.groups;
    after := storage;
    if name !in users {
      return Refused(UserUnknown), after;
    }
    if actor != "" && name == actor {
      if active == Some(false) || (role.Some? && role.value != BlankRole && role.value != Known(Admin)) {
        return Refused(OwnAccount), after;
      }
    }
    if !fieldsOk {
      return Refused(BadFields), after;
    }
    var refusal;
    refusal, users := EditAccount(users, name, details, role, active);
    if refusal.Some? {
      return Refused(refusal.value), after;
    }
    if setGroup {
      refusal, groups := SetUserGroupMembership(groups, name, group);
      if refusal.Some? {
        return Refused(refusal.value), after;
      }
    }
    return Done, Storage(users, groups);
  }

  method EditAccount(before: map<string, Account>, name: string, details: Option<string>, role: Option<RoleArg>,
                     active: Option<bool>)
    returns (refusal: Option<Refusal>, users: map<string, Account>)
    requires name in before
    ensures (refusal, users) == Edited(before, name, details, role, active)
  {
    users := before;
    if details.Some? {
      users := users[name := users[name].(details := details.value)];
    }
    if role.Some? {
      if !role.value.Known? {
        return Some(BadFields), users;
      }
      if users[name].role == Admin && role.value.role != Admin && |ActiveAdmins(users)| <= 1 {
        return Some(LastAdmin), users;
      }
      users := users[name := users[name].(role := role.value.role)];
    }
    if active.Some? {
      if users[name].role == Admin && !active.value && |ActiveAdmins(users)| <= 1 {
        return Some(LastAdmin), users;
      }
      users := users[name := users[name].(active := active.value)];
    }
    return None, users;
  }

  method SetUserGroupMembership(before: map<string, Group>, name: string, group: Option<string>)
    returns (refusal: Option<Refusal>, groups: map<string, Group>)
    ensures (refusal, groups) == Regrouped(before, name, group)
  {
    groups := WithoutMember(before, name);
    if group.None? {
      return None, groups;
    }
    refusal, groups := AssignUserToGroup(name, group.value, groups);
  }

  method AssignUserToGroup(user: string, group: string, groups: map<string, Group>)
    returns (refusal: Option<Refusal>, after: map<string, Group>)
    ensures (refusal, after) == Assign(user, group, groups)
  {
    if group == "" {
      return None, groups;
    }
    if group !in groups {
      return Some(GroupUnknown), groups;
    }
    var second := ValidateSingleGroup({user}, groups, group);
    if second {
      return Some(SecondGroup), groups;
    }
    return None, groups[group := groups[group].(members := groups[group].members + {user})];
  }

  // ----- the invariant -----

  ghost predicate MembersAreUsers(s: Storage) {
    forall g :: g in s.groups ==> s.groups[g].members <= s.users.Keys
  }

  ghost predicate OneGroupEach(groups: map<string, Group>) {
    forall g, h :: g in groups && h in groups && g != h ==> groups[g].members !! groups[h].members
  }

  ghost predicate Inv(s: Storage) {
    ActiveAdmins(s.users) != {} && MembersAreUsers(s) && OneGroupEach(s.groups)
  }

  lemma LoadedIsSaved(s: Storage)
    requires MembersAreUsers(s)
    ensures Loaded(s) == s
  {
    forall g | g in s.groups ensures Loaded(s).groups[g] == s.groups[g] {
      assert s.groups[g].members * s.users.Keys == s.groups[g].members;
    }
  }

  /** Another active administrator than `name` exists. */
  lemma AnotherAdmin(users: map<string, Account>, name: string) returns (other: string)
    requires |ActiveAdmins(users)| > 1
    ensures other != name && other in ActiveAdmins(users)
  {
    var admins := ActiveAdmins(users);
    if admins <= {name} {
      SubsetSize(admins, {name});
      assert false;
    }
    other :| other in admins && other != name;
  }

  lemma OneAdminAtMost(users: map<string, Account>, name: string)
    requires |ActiveAdmins(users)| <= 1 && name in ActiveAdmins(users)
    ensures ActiveAdmins(users) == {name}
  {
    SubsetSize({name}, ActiveAdmins(users));
    if other :| other in ActiveAdmins(users) && other != name {
      SubsetSize({name, other}, ActiveAdmins(users));
    }
  }

  lemma ReroledKeepsAdmins(users: map<string, Account>, name: string, role: Option<RoleArg>)
    requires name in users && ActiveAdmins(users) != {} && Reroled(users, name, role).0.None?
    ensures ActiveAdmins(Reroled(users, name, role).1) != {}
    ensures Reroled(users, name, role).1.Keys == users.Keys
  {
    var users' := Reroled(users, name, role).1;
    if role.Some? && users[name].role == Admin && role.value.role != Admin {
      var other := AnotherAdmin(users, name);
      assert other in ActiveAdmins(users');
    } else {
      var admin :| admin in ActiveAdmins(users);
      assert admin in ActiveAdmins(users');
    }
  }

  lemma ReactivatedKeepsAdmins(users: map<string, Account>, name: string, active: Option<bool>)
    requires name in users && ActiveAdmins(users) != {} && Reactivated(users, name, active).0.None?
    ensures ActiveAdmins(Reactivated(users, name, active).1) != {}
    ensures Reactivated(users, name, active).1.Keys == users.Keys
  {
    var users' := Reactivated(users, name, active).1;
    if users[name].role == Admin && active == Some(false) {
      var other := AnotherAdmin(users, name);
      assert other in ActiveAdmins(users');
    } else {
      var admin :| admin in ActiveAdmins(users);
      assert admin in ActiveAdmins(users');
    }
  }

  lemma AssignKeepsGroups(user: string, group: string, groups: map<string, Group>, users: set<string>)
    requires OneGroupEach(groups) && user in users && forall g :: g in groups ==> groups[g].members <= users
    requires Assign(user, group, groups).0.None?
    ensures OneGroupEach(Assign(user, group, groups).1)
    ensures forall g :: g in Assign(user, group, groups).1 ==> Assign(user, group, groups).1[g].members <= users
  {
  }

  lemma CreateUserKeepsInv(s: Storage, name: string, account: Account, group: Option<string>, fieldsOk: bool)
    requires Inv(s)
    ensures Inv(CreatedUser(s, name, account, group, fieldsOk).1)
  {
  }

  lemma UpdateUserKeepsInv(s: Storage, op: Op)
    requires Inv(s) && op.UpdateUser?
    ensures Inv(UpdatedUser(s, op).1)
  {
    var (answer, t) := UpdatedUser(s, op);
    if answer.Done? {
      var renamed := Renamed(s.users, op.name, op.details);
      assert ActiveAdmins(renamed) == ActiveAdmins(s.users);
      ReroledKeepsAdmins(renamed, op.name, op.role);
      ReactivatedKeepsAdmins(Reroled(renamed, op.name, op.role).1, op.name, op.active);
      if op.setGroup && op.group.Some? {
        AssignKeepsGroups(op.name, op.group.value, WithoutMember(s.groups, op.name), s.users.Keys);
      }
    }
  }

  lemma DeleteUserKeepsInv(s: Storage, name: string, actor: string)
    requires Inv(s)
    ensures Inv(DeletedUser(s, name, actor).1)
  {
    var (answer, t) := DeletedUser(s, name, actor);
    if answer.Done? {
      var kept: string;
      if name in ActiveAdmins(s.users) {
        kept := AnotherAdmin(s.users, name);
      } else {
        kept :| kept in ActiveAdmins(s.users);
      }
      assert kept in ActiveAdmins(t.users);
    }
  }

  lemma UpdateGroupKeepsInv(s: Storage, op: Op)
    requires Inv(s) && op.UpdateGroup?
    ensures Inv(UpdatedGroup(s, op).1)
  {
  }

  lemma CreateGroupKeepsInv(s: Storage, name: string, nameOk: bool, members: set<string>, grants: Grants)
    requires Inv(s)
    ensures Inv(CreatedGroup(s, name, nameOk, members, grants).1)
  {
  }

  lemma StepKeepsInv(s: Storage, op: Op)
    requires Inv(s)
    ensures Inv(Step(s, op).1)
  {
    LoadedIsSaved(s);
    match op
    case CreateUser(name, account, group, fieldsOk) => CreateUserKeepsInv(s, name, account, group, fieldsOk);
    case UpdateUser(_, _, _, _, _, _, _, _) => UpdateUserKeepsInv(s, op);
    case DeleteUser(name, actor) => DeleteUserKeepsInv(s, name, actor);
    case CreateGroup(name, nameOk, members, grants) => CreateGroupKeepsInv(s, name, nameOk, members, grants);
    case UpdateGroup(_, _, _, _, _) => UpdateGroupKeepsInv(s, op);
    case DeleteGroup(name) =>
  }

  /** After every run an active administrator is left, everybody is in at most one group, and groups
      hold nobody but users. */
  lemma {:induction false} RunKeepsInv(s: Storage, ops: seq<Op>)
    requires Inv(s)
    ensures Inv(Run(s, ops))
    decreases |ops|
  {
    if ops != [] {
      StepKeepsInv(s, ops[0]);
      RunKeepsInv(Step(s, ops[0]).1, ops[1..]);
    }
  }

  // ----- how exact the guards are -----

  /** Deleting somebody else's account is refused for the sake of the last administrator exactly when
      it would leave none. */
  lemma DeletionGuardIsExact(s: Storage, name: string, actor: string)
    requires Inv(s) && name in s.users && name != actor
    ensures DeletedUser(s, name, actor).0 == Refused(LastAdmin) <==> ActiveAdmins(s.users - {name}) == {}
  {
    var left := ActiveAdmins(s.users - {name});
    assert left == ActiveAdmins(s.users) - {name};
    if |ActiveAdmins(s.users)| <= 1 && name in ActiveAdmins(s.users) {
      OneAdminAtMost(s.users, name);
    } else if name in ActiveAdmins(s.users) {
      var other := AnotherAdmin(s.users, name);
      assert other in left;
    } else {
      var admin :| admin in ActiveAdmins(s.users);
      assert admin in left;
    }
  }

  /** What is left when `name` no longer counts as an active administrator. */
  lemma OneLess(users: map<string, Account>, name: string)
    requires name in users && ActiveAdmins(users) != {}
    ensures |ActiveAdmins(users)| <= 1 <==>
            || ActiveAdmins(users) - {name} == {}
            || (name !in ActiveAdmins(users) && |ActiveAdmins(users)| == 1)
  {
    if |ActiveAdmins(users)| <= 1 {
      if name in ActiveAdmins(users) {
        OneAdminAtMost(users, name);
      }
    } else {
      var other := AnotherAdmin(users, name);
      assert other in ActiveAdmins(users) - {name};
    }
  }

  /** The guard on role changes is coarser: it refuses exactly the demotions that would leave no active
      administrator and, with one active administrator, the demotion of an inactive one too. */
  lemma DemotionGuardIff(s: Storage, name: string, role: Role)
    requires Inv(s) && name in s.users && s.users[name].role == Admin && role != Admin
    ensures Reroled(s.users, name, Some(Known(role))).0 == Some(LastAdmin) <==>
            || ActiveAdmins(s.users[name := s.users[name].(role := role)]) == {}
            || (!s.users[name].active && |ActiveAdmins(s.users)| == 1)
  {
    assert ActiveAdmins(s.users[name := s.users[name].(role := role)]) == ActiveAdmins(s.users) - {name};
    OneLess(s.users, name);
  }

  /** So is the guard on deactivations, which then refuses to deactivate an inactive administrator. */
  lemma DeactivationGuardIff(s: Storage, name: string)
    requires Inv(s) && name in s.users && s.users[name].role == Admin
    ensures Reactivated(s.users, name, Some(false)).0 == Some(LastAdmin) <==>
            || ActiveAdmins(s.users[name := s.users[name].(active := false)]) == {}
            || (!s.users[name].active && |ActiveAdmins(s.users)| == 1)
  {
    assert ActiveAdmins(s.users[name := s.users[name].(active := false)]) == ActiveAdmins(s.users) - {name};
    OneLess(s.users, name);
  }

  /** The failing input of both: an active administrator, and the demotion or deactivation of another
      one who is not active. */
  lemma GuardsRefuseTheInactive()
    ensures exists s: Storage, name ::
      && Inv(s) && name in s.users && ActiveAdmins(s.users - {name}) != {}
      && Reroled(s.users, name, Some(Known(User))).0 == Some(LastAdmin)
      && Reactivated(s.users, name, Some(false)).0 == Some(LastAdmin)
  {
    var s := Storage(map["ann" := Account(Admin, true, ""), "bob" := Account(Admin, false, "")], map[]);
    assert ActiveAdmins(s.users) == {"ann"};
    assert "ann" in ActiveAdmins(s.users - {"bob"});
    assert Reroled(s.users, "bob", Some(Known(User))).0 == Some(LastAdmin);
  }
}
