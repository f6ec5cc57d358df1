/** Calendar and firewall together: the reservations are attached to the inventory, and the rules are
    compiled from it. At each moment the jump host lets a user through to exactly the routers of the
    labs the calendar gives him. */
module FirewallCalendar {
  import opened Sequences
  import opened Reservations
  import opened ReservationSafety
  import opened ReservationViews
  import F = JumpFirewall

  // ----- attaching owners to the inventory -----

  datatype PlainLab = PlainLab(name: string, routers: seq<F.Router>)

  datatype PlainVm = PlainVm(id: string, labs: seq<PlainLab>)

  /** The owner of the entry that `attach_reservations` shows for a lab; nobody if it shows none. */
  function OwnerAt(d: Data, key: Key, now: Time): F.User {
    var shown := LastActive(Entries(d, key), now);
    if shown.Some? then shown.value.owner else ""
  }

  function LabsWithOwners(id: string, labs: seq<PlainLab>, d: Data, now: Time): (r: seq<F.Lab>)
    ensures |r| == |labs|
    ensures forall i :: 0 <= i < |r| ==> r[i] == F.Lab(OwnerAt(d, KeyOf(id, labs[i].name), now), labs[i].routers)
  {
    if labs == [] then []
    else
      var lab := labs[|labs| - 1];
      LabsWithOwners(id, labs[..|labs| - 1], d, now) + [F.Lab(OwnerAt(d, KeyOf(id, lab.name), now), lab.routers)]
  }

  function WithOwners(vms: seq<PlainVm>, d: Data, now: Time): (r: seq<F.Vm>)
    ensures |r| == |vms|
    ensures forall i :: 0 <= i < |r| ==> r[i] == F.Vm(LabsWithOwners(vms[i].id, vms[i].labs, d, now))
  {
    if vms == [] then []
    else
      var vm := vms[|vms| - 1];
      WithOwners(vms[..|vms| - 1], d, now) + [F.Vm(LabsWithOwners(vm.id, vm.labs, d, now))]
  }

  /** It is the owner of the entry in the answer of the attach call. */
  lemma OwnerIsAttached(d: Data, key: Key, now: Time)
    ensures var shown := Step(d, now, Attach(key)).1.current;
      OwnerAt(d, key, now) == if shown.Some? then shown.value.owner else ""
  {
    PickedAfterPruning(d, key, now);
  }

  /** The loops of `attach_reservations` over the labs of a VM ... */
  method AttachToLabs(id: string, labs: seq<PlainLab>, d: Data, now: Time) returns (out: seq<F.Lab>)
    ensures out == LabsWithOwners(id, labs, d, now)
  {
    out := [];
    for j := 0 to |labs|
      invariant out == LabsWithOwners(id, labs[..j], d, now)
    {
      assert labs[..j + 1][..j] == labs[..j];
      out := out + [F.Lab(OwnerAt(d, KeyOf(id, labs[j].name), now), labs[j].routers)];
    }
    assert labs[..|labs|] == labs;
  }

  /** ... and over the VMs. */
  method AttachOwners(vms: seq<PlainVm>, d: Data, now: Time) returns (items: seq<F.Vm>)
    ensures items == WithOwners(vms, d, now)
  {
    items := [];
    for i := 0 to |vms|
      invariant items == WithOwners(vms[..i], d, now)
    {
      assert vms[..i + 1][..i] == vms[..i];
      var labs := AttachToLabs(vms[i].id, vms[i].labs, d, now);
      items := items + [F.Vm(labs)];
    }
    assert vms[..|vms|] == vms;
  }

  // ----- whose lab it is -----

  /** The user holds the lab: one of his entries is active and not just ending as somebody else's
      begins. */
  ghost predicate Holds(d: Data, key: Key, user: F.User, now: Time) {
    exists e :: e in Entries(d, key) && e.owner == user && ActiveAt(now)(e) && !HandedOver(d, key, e, now)
  }

  ghost predicate HandedOver(d: Data, key: Key, e: Entry, now: Time) {
    e.end == now && exists f :: f in Entries(d, key) && f.owner != e.owner && f.start == now
  }

  /** The entry shown is one that nobody is taking over. */
  lemma ShownIsNotHandedOver(d: Data, key: Key, now: Time)
    requires Safe(d) && LastActive(Entries(d, key), now).Some?
    ensures var shown := LastActive(Entries(d, key), now).value;
      shown in Entries(d, key) && ActiveAt(now)(shown) && !HandedOver(d, key, shown, now)
  {
    var es := Entries(d, key);
    LastActiveIs(es, now);
    var l :| 0 <= l < |es| && es[l] == LastActive(es, now).value && ActiveAt(now)(es[l]) &&
             forall j :: l < j < |es| ==> !ActiveAt(now)(es[j]);
    assert DurationExact(es[l]);
    forall f | f in es && f.start == now ensures es[l].start == now {
      var j :| 0 <= j < |es| && es[j] == f;
      assert DurationExact(f);
      assert j <= l;
      assert j < l ==> StartOf()(es[j]) <= StartOf()(es[l]);
    }
  }

  /** Nobody else holds the lab. */
  lemma HolderIsShown(d: Data, key: Key, e: Entry, now: Time)
    requires Safe(d) && e in Entries(d, key) && ActiveAt(now)(e) && !HandedOver(d, key, e, now)
    ensures LastActive(Entries(d, key), now).Some? && LastActive(Entries(d, key), now).value.owner == e.owner
  {
    var es := Entries(d, key);
    LastActiveIs(es, now);
    var i :| 0 <= i < |es| && es[i] == e;
    var l :| 0 <= l < |es| && es[l] == LastActive(es, now).value && ActiveAt(now)(es[l]) &&
             forall j :: l < j < |es| ==> !ActiveAt(now)(es[j]);
    assert i <= l;
    assert i < l ==> StartOf()(es[i]) <= StartOf()(es[l]);
    assert DurationExact(e) && DurationExact(es[l]);
    if es[l].owner != e.owner {
      TwoActiveOwnersTouch(d, key, e, es[l], now);
    }
  }

  lemma HoldsIff(d: Data, key: Key, user: F.User, now: Time)
    requires Safe(d) && user != ""
    ensures Holds(d, key, user, now) <==> OwnerAt(d, key, now) == user
  {
    if OwnerAt(d, key, now) == user {
      ShownIsNotHandedOver(d, key, now);
    }
    if Holds(d, key, user, now) {
      var e :| e in Entries(d, key) && e.owner == user && ActiveAt(now)(e) && !HandedOver(d, key, e, now);
      HolderIsShown(d, key, e, now);
    }
  }

  /** At no moment do two users hold a lab. */
  lemma OneHolder(d: Data, key: Key, user: F.User, user': F.User, now: Time)
    requires Safe(d) && user != "" && user' != ""
    requires Holds(d, key, user, now) && Holds(d, key, user', now)
    ensures user == user'
  {
    HoldsIff(d, key, user, now);
    HoldsIff(d, key, user', now);
  }

  // ----- who reaches what -----

  ghost predicate ListsIt(lab: PlainLab, ip: F.Ip) {
    exists r :: r in lab.routers && r.mgmt == Some(ip)
  }

  /** The user holds a lab that lists the address. */
  ghost predicate HoldsLabWith(vms: seq<PlainVm>, d: Data, user: F.User, ip: F.Ip, now: Time) {
    exists vm, lab :: vm in vms && lab in vm.labs && ListsIt(lab, ip) && Holds(d, KeyOf(vm.id, lab.name), user, now)
  }

  ghost predicate AnyLabWith(vms: seq<PlainVm>, ip: F.Ip) {
    exists vm, lab :: vm in vms && lab in vm.labs && ListsIt(lab, ip)
  }

  lemma LabOfPlain(vms: seq<PlainVm>, d: Data, now: Time, vm: PlainVm, lab: PlainLab)
    requires vm in vms && lab in vm.labs
    ensures exists v, l :: v in WithOwners(vms, d, now) && l in v.labs &&
              l == F.Lab(OwnerAt(d, KeyOf(vm.id, lab.name), now), lab.routers)
  {
    var i :| 0 <= i < |vms| && vms[i] == vm;
    var j :| 0 <= j < |vm.labs| && vm.labs[j] == lab;
    assert WithOwners(vms, d, now)[i] in WithOwners(vms, d, now);
    assert LabsWithOwners(vm.id, vm.labs, d, now)[j] in LabsWithOwners(vm.id, vm.labs, d, now);
  }

  lemma PlainOfLab(vms: seq<PlainVm>, d: Data, now: Time, v: F.Vm, l: F.Lab) returns (vm: PlainVm, lab: PlainLab)
    requires v in WithOwners(vms, d, now) && l in v.labs
    ensures vm in vms && lab in vm.labs && l == F.Lab(OwnerAt(d, KeyOf(vm.id, lab.name), now), lab.routers)
  {
    var i :| 0 <= i < |vms| && WithOwners(vms, d, now)[i] == v;
    vm := vms[i];
    var j :| 0 <= j < |v.labs| && v.labs[j] == l;
    lab := vm.labs[j];
  }

  lemma ReachIff(vms: seq<PlainVm>, d: Data, user: F.User, ip: F.Ip, now: Time)
    requires Safe(d)
    ensures F.MayReach(WithOwners(vms, d, now), user, ip) <==> user != "" && HoldsLabWith(vms, d, user, ip, now)
  {
    var items := WithOwners(vms, d, now);
    if F.MayReach(items, user, ip) {
      var v, l :| v in items && l in v.labs && l.owner == user && F.Lists(l, ip);
      var vm, lab := PlainOfLab(vms, d, now, v, l);
      HoldsIff(d, KeyOf(vm.id, lab.name), user, now);
    }
    if user != "" && HoldsLabWith(vms, d, user, ip, now) {
      var vm, lab :| vm in vms && lab in vm.labs && ListsIt(lab, ip) && Holds(d, KeyOf(vm.id, lab.name), user, now);
      HoldsIff(d, KeyOf(vm.id, lab.name), user, now);
      LabOfPlain(vms, d, now, vm, lab);
      var v, l :| v in items && l in v.labs && l == F.Lab(OwnerAt(d, KeyOf(vm.id, lab.name), now), lab.routers);
      assert F.Lists(l, ip);
    }
  }

  lemma RouterIff(vms: seq<PlainVm>, d: Data, ip: F.Ip, now: Time)
    ensures F.IsRouter(WithOwners(vms, d, now), ip) <==> AnyLabWith(vms, ip)
  {
    var items := WithOwners(vms, d, now);
    if F.IsRouter(items, ip) {
      var v, l :| v in items && l in v.labs && F.Lists(l, ip);
      var vm, lab := PlainOfLab(vms, d, now, v, l);
      assert ListsIt(lab, ip);
    }
    if AnyLabWith(vms, ip) {
      var vm, lab :| vm in vms && lab in vm.labs && ListsIt(lab, ip);
      LabOfPlain(vms, d, now, vm, lab);
      var v, l :| v in items && l in v.labs && l == F.Lab(OwnerAt(d, KeyOf(vm.id, lab.name), now), lab.routers);
      assert F.Lists(l, ip);
    }
  }

  /** A new connection from a managed non-root account to a router of some lab, without a lab held by
      its user that lists the router. */
  ghost predicate Uninvited(vms: seq<PlainVm>, d: Data, accounts: seq<F.Account>, p: F.Packet, now: Time) {
    && !p.established && p.uid != 0 && AnyLabWith(vms, p.destination)
    && exists a ::
         a in accounts && a.uid == p.uid && !(a.user != "" && HoldsLabWith(vms, d, a.user, p.destination, now))
  }

  /** From the calendar to the rules: with a safe calendar and distinct uids, exactly the uninvited
      connections are rejected. */
  method ReconcileNow(vms: seq<PlainVm>, d: Data, accounts: seq<F.Account>, now: Time) returns (table: F.Table)
    ensures Safe(d) && F.UidsDistinct(accounts) ==>
              forall p :: F.Evaluate(table.sets, table.chain, p) == F.Reject <==> Uninvited(vms, d, accounts, p, now)
  {
    var items := AttachOwners(vms, d, now);
    table := F.Reconcile(items, accounts);
    if Safe(d) && F.UidsDistinct(accounts) {
      forall p ensures F.Forbidden(items, accounts, p) <==> Uninvited(vms, d, accounts, p, now) {
        RouterIff(vms, d, p.destination, now);
        forall a | a in accounts
          ensures F.MayReach(items, a.user, p.destination) <==>
            a.user != "" && HoldsLabWith(vms, d, a.user, p.destination, now)
        {
          ReachIff(vms, d, a.user, p.destination, now);
        }
      }
    }
  }
}
