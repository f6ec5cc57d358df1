/** What a user may see: the access sets built from the groups, and the filter over VMs and labs. */
module Access {
  import opened Sequences
  import opened Accounts

  /** `lab_access` maps a VM to the labs granted on it. */
  datatype Viewer = Viewer(admin: bool, fullVms: set<string>, labAccess: map<string, set<string>>) {
    predicate CanAccessVm(vm: string) {
      admin || vm in fullVms || vm in labAccess
    }

    predicate CanAccessLab(vm: string, lab: string) {
      admin || vm in fullVms || lab in Labs(labAccess, vm)
    }
  }

  function Labs(access: map<string, set<string>>, vm: string): set<string> {
    if vm in access then access[vm] else {}
  }

  // ----- what the groups grant -----

  ghost predicate GrantsVm(groups: seq<Grants>, vm: string) {
    exists g :: g in groups && vm in g.vmIds
  }

  ghost predicate Permits(permissions: seq<Permission>, vm: string, lab: string) {
    vm != "" && exists p :: p in permissions && p.vm == vm && lab in p.labs
  }

  ghost predicate GrantsLab(groups: seq<Grants>, vm: string, lab: string) {
    exists g :: g in groups && Permits(g.permissions, vm, lab)
  }

  /** Adds one group's permissions, skipping VMs that are known to be fully accessible. */
  method AddPermissions(permissions: seq<Permission>, full: set<string>, before: map<string, set<string>>)
    returns (access: map<string, set<string>>)
    ensures forall vm, lab :: lab in Labs(access, vm) <==>
      lab in Labs(before, vm) || (vm !in full && Permits(permissions, vm, lab))
  {
    access := before;
    for i := 0 to |permissions|
      invariant forall vm, lab ::
        lab in Labs(access, vm) <==> lab in Labs(before, vm) || (vm !in full && Permits(permissions[..i], vm, lab))
    {
      var p := permissions[i];
      PermitsSnoc(permissions[..i], p);
      assert permissions[..i + 1] == permissions[..i] + [p];
      if p.vm != "" && p.vm !in full {
        access := access[p.vm := Labs(access, p.vm) + p.labs];
      }
    }
    assert permissions[..|permissions|] == permissions;
  }

  lemma PermitsSnoc(permissions: seq<Permission>, p: Permission)
    ensures forall vm, lab ::
      Permits(permissions + [p], vm, lab) <==>
        Permits(permissions, vm, lab) || (vm != "" && p.vm == vm && lab in p.labs)
  {
  }

  lemma GrantsSnoc(groups: seq<Grants>, g: Grants)
    ensures forall vm :: GrantsVm(groups + [g], vm) <==> GrantsVm(groups, vm) || vm in g.vmIds
    ensures forall vm, lab :: GrantsLab(groups + [g], vm, lab) <==>
      GrantsLab(groups, vm, lab) || Permits(g.permissions, vm, lab)
  {
  }

  /** `_build_authenticated_user`: the skipped permissions depend on the order in which the groups
      come, but the access that results does not. */
  method BuildViewer(admin: bool, groups: seq<Grants>) returns (v: Viewer)
    ensures v.admin == admin
    ensures forall vm :: vm in v.fullVms <==> GrantsVm(groups, vm)
    ensures forall vm, lab :: v.CanAccessLab(vm, lab) <==> admin || GrantsVm(groups, vm) || GrantsLab(groups, vm, lab)
  {
    var full: set<string> := {};
    var access: map<string, set<string>> := map[];
    for i := 0 to |groups|
      invariant forall vm :: vm in full <==> GrantsVm(groups[..i], vm)
      invariant forall vm, lab :: lab in Labs(access, vm) ==> GrantsLab(groups[..i], vm, lab)
      invariant forall vm, lab :: vm !in full && GrantsLab(groups[..i], vm, lab) ==> lab in Labs(access, vm)
    {
      GrantsSnoc(groups[..i], groups[i]);
      assert groups[..i + 1] == groups[..i] + [groups[i]];
      full := full + groups[i].vmIds;
      access := AddPermissions(groups[i].permissions, full, access);
    }
    assert groups[..|groups|] == groups;
    v := Viewer(admin, full, access);
  }

  // ----- the filter -----

  datatype Item = Item(vm: string, labs: seq<string>)

  function Visible(v: Viewer, vm: string): string -> bool {
    (lab: string) => v.CanAccessLab(vm, lab)
  }

  function Kept(v: Viewer, item: Item): seq<Item> {
    if !v.CanAccessVm(item.vm) then []
    else if item.vm in v.fullVms then [item]
    else
      var labs := Filter(item.labs, Visible(v, item.vm));
      if labs == [] then [] else [item.(labs := labs)]
  }

  function Filtered(v: Viewer, items: seq<Item>): seq<Item> {
    if v.admin then items
    else if items == [] then []
    else Filtered(v, items[..|items| - 1]) + Kept(v, items[|items| - 1])
  }

  /** `filter_items_for_user` */
  method FilterItems(v: Viewer, items: seq<Item>) returns (filtered: seq<Item>)
    ensures filtered == Filtered(v, items)
  {
    if v.admin {
      return items;
    }
    filtered := [];
    for i := 0 to |items|
      invariant filtered == Filtered(v, items[..i])
    {
      var item := items[i];
      assert items[..i + 1][..i] == items[..i];
      if v.CanAccessVm(item.vm) {
        var labs := if item.vm in v.fullVms then item.labs else Filter(item.labs, Visible(v, item.vm));
        if item.vm in v.fullVms || labs != [] {
          filtered := filtered + [item.(labs := labs)];
        }
      }
    }
    assert items[..|items|] == items;
  }

  ghost predicate Shows(items: seq<Item>, vm: string, lab: string) {
    exists item :: item in items && item.vm == vm && lab in item.labs
  }

  lemma KeptShows(v: Viewer, item: Item, vm: string, lab: string)
    requires !v.admin
    ensures Shows(Kept(v, item), vm, lab) <==> item.vm == vm && lab in item.labs && v.CanAccessLab(vm, lab)
  {
    FilterMember(item.labs, Visible(v, item.vm), lab);
    if item.vm == vm && lab in item.labs && v.CanAccessLab(vm, lab) {
      assert Kept(v, item)[0] in Kept(v, item);
    }
  }

  /** The filter shows a lab exactly when it was there and the user may access it. */
  lemma {:induction false} FilterIsExact(v: Viewer, items: seq<Item>, vm: string, lab: string)
    ensures Shows(Filtered(v, items), vm, lab) <==> Shows(items, vm, lab) && v.CanAccessLab(vm, lab)
  {
    if !v.admin && items != [] {
      var init, last := items[..|items| - 1], items[|items| - 1];
      FilterIsExact(v, init, vm, lab);
      KeptShows(v, last, vm, lab);
      ShowsAppend(init, [last], vm, lab);
      ShowsAppend(Filtered(v, init), Kept(v, last), vm, lab);
      assert items == init + [last];
      assert last in [last];
    }
  }

  lemma ShowsAppend(a: seq<Item>, b: seq<Item>, vm: string, lab: string)
    ensures Shows(a + b, vm, lab) <==> Shows(a, vm, lab) || Shows(b, vm, lab)
  {
  }

  // ----- which VMs are left -----

  /** A lab the viewer may see: as an administrator, with the whole VM, or by a grant on the lab. */
  function MaySee(v: Viewer, vm: string): string -> bool {
    (lab: string) => v.admin || vm in v.fullVms || (vm in v.labAccess && lab in v.labAccess[vm])
  }

  /** What is left of a VM: it goes if it is not fully granted and none of its labs may be seen; otherwise
      it keeps exactly the labs that may be seen, in their order. */
  function LeftOf(v: Viewer, item: Item): seq<Item> {
    var labs := Filter(item.labs, MaySee(v, item.vm));
    if !v.admin && item.vm !in v.fullVms && labs == [] then [] else [Item(item.vm, labs)]
  }

  lemma KeptIsLeft(v: Viewer, item: Item)
    requires !v.admin
    ensures Kept(v, item) == LeftOf(v, item)
  {
    FilterSame(item.labs, Visible(v, item.vm), MaySee(v, item.vm));
    if item.vm in v.fullVms {
      FilterAll(item.labs, MaySee(v, item.vm));
    }
    if !v.CanAccessVm(item.vm) {
      FilterNone(item.labs, MaySee(v, item.vm));
    }
  }

  lemma {:induction false} FilterSame(labs: seq<string>, p: string -> bool, q: string -> bool)
    requires forall x :: p(x) <==> q(x)
    ensures Filter(labs, p) == Filter(labs, q)
  {
    if labs != [] {
      FilterSame(labs[1..], p, q);
    }
  }

  lemma {:induction false} FilterNone(labs: seq<string>, p: string -> bool)
    requires forall x :: !p(x)
    ensures Filter(labs, p) == []
  {
    if labs != [] {
      FilterNone(labs[1..], p);
    }
  }

  /** The VMs come in their order, each with what is left of it. */
  ghost function AllLeft(v: Viewer, items: seq<Item>): seq<Item> {
    if items == [] then [] else LeftOf(v, items[0]) + AllLeft(v, items[1..])
  }

  lemma {:induction false} AllLeftAppend(v: Viewer, a: seq<Item>, b: seq<Item>)
    ensures AllLeft(v, a + b) == AllLeft(v, a) + AllLeft(v, b)
  {
    if a == [] {
      assert a + b == b;
    } else {
      assert (a + b)[1..] == a[1..] + b;
      AllLeftAppend(v, a[1..], b);
    }
  }

  lemma {:induction false} FilteredIsAllLeft(v: Viewer, items: seq<Item>)
    ensures Filtered(v, items) == AllLeft(v, items)
  {
    if v.admin {
      AdminSeesAll(v, items);
    } else if items != [] {
      var init, last := items[..|items| - 1], items[|items| - 1];
      FilteredIsAllLeft(v, init);
      KeptIsLeft(v, last);
      AllLeftAppend(v, init, [last]);
      assert items == init + [last] && [last][1..] == [];
      assert AllLeft(v, [last]) == LeftOf(v, last) + AllLeft(v, []);
    }
  }

  lemma {:induction false} AdminSeesAll(v: Viewer, items: seq<Item>)
    requires v.admin
    ensures AllLeft(v, items) == items
  {
    if items != [] {
      AdminSeesAll(v, items[1..]);
      FilterAll(items[0].labs, MaySee(v, items[0].vm));
      assert items == [items[0]] + items[1..];
    }
  }
}
