/** The jump-host filter: reservations are gathered into per-user address sets and compiled into an
    ordered chain of rules. The chain is given its first-match meaning, and the compilation is
    proved to reject exactly the connections it is meant to reject. */
module JumpFirewall {
  import opened Sequences

  type User = string
  type Ip = nat

  // ----- the inventory, after attaching reservations -----

  /** `mgmt` is the router's IPv4 address if it has a usable one. */
  datatype Router = Router(mgmt: Option<Ip>)

  /** `owner` holds the active reservation; the empty name counts as no owner. */
  datatype Lab = Lab(owner: User, routers: seq<Router>)

  datatype Vm = Vm(labs: seq<Lab>)

  ghost predicate Lists(lab: Lab, ip: Ip) {
    exists r :: r in lab.routers && r.mgmt == Some(ip)
  }

  ghost predicate IsRouter(items: seq<Vm>, ip: Ip) {
    exists vm, lab :: vm in items && lab in vm.labs && Lists(lab, ip)
  }

  /** The user owns the active reservation of a lab that lists the address. */
  ghost predicate MayReach(items: seq<Vm>, user: User, ip: Ip) {
    user != "" && exists vm, lab :: vm in items && lab in vm.labs && lab.owner == user && Lists(lab, ip)
  }

  method RouterAddresses(lab: Lab) returns (ips: set<Ip>)
    ensures forall ip :: ip in ips <==> Lists(lab, ip)
  {
    ips := {};
    for i := 0 to |lab.routers|
      invariant forall ip :: ip in ips <==> exists r :: r in lab.routers[..i] && r.mgmt == Some(ip)
    {
      var mgmt := lab.routers[i].mgmt;
      assert lab.routers[..i + 1] == lab.routers[..i] + [lab.routers[i]];
      if mgmt.Some? {
        ips := ips + {mgmt.value};
      }
    }
    assert lab.routers[..|lab.routers|] == lab.routers;
  }

  method GatherRouterIps(items: seq<Vm>) returns (ips: set<Ip>)
    ensures forall ip :: ip in ips <==> IsRouter(items, ip)
  {
    ips := {};
    for i := 0 to |items|
      invariant forall ip :: ip in ips <==> exists vm, lab :: vm in items[..i] && lab in vm.labs && Lists(lab, ip)
    {
      var vm := items[i];
      assert items[..i + 1] == items[..i] + [vm];
      ghost var before := ips;
      for j := 0 to |vm.labs|
        invariant forall ip :: ip in ips <==> ip in before || exists lab :: lab in vm.labs[..j] && Lists(lab, ip)
      {
        assert vm.labs[..j + 1] == vm.labs[..j] + [vm.labs[j]];
        var more := RouterAddresses(vm.labs[j]);
        ips := ips + more;
      }
      assert vm.labs[..|vm.labs|] == vm.labs;
    }
    assert items[..|items|] == items;
  }

  function AllowedOf(allowed: map<User, set<Ip>>, user: User): set<Ip> {
    if user in allowed then allowed[user] else {}
  }

  ghost predicate GrantedBy(labs: seq<Lab>, user: User, ip: Ip) {
    user != "" && exists lab :: lab in labs && lab.owner == user && Lists(lab, ip)
  }

  method GatherAllowedIps(items: seq<Vm>) returns (allowed: map<User, set<Ip>>)
    ensures forall user, ip :: ip in AllowedOf(allowed, user) <==> MayReach(items, user, ip)
  {
    allowed := map[];
    for i := 0 to |items|
      invariant forall user, ip :: ip in AllowedOf(allowed, user) <==>
        exists vm :: vm in items[..i] && GrantedBy(vm.labs, user, ip)
    {
      var vm := items[i];
      assert items[..i + 1] == items[..i] + [vm];
      ghost var before := allowed;
      for j := 0 to |vm.labs|
        invariant forall user, ip :: ip in AllowedOf(allowed, user) <==>
          ip in AllowedOf(before, user) || GrantedBy(vm.labs[..j], user, ip)
      {
        var lab := vm.labs[j];
        assert vm.labs[..j + 1] == vm.labs[..j] + [lab];
        if lab.owner == "" {
          continue;
        }
        var more := RouterAddresses(lab);
        if more != {} {
          allowed := allowed[lab.owner := AllowedOf(allowed, lab.owner) + more];
        }
      }
      assert vm.labs[..|vm.labs|] == vm.labs;
    }
    assert items[..|items|] == items;
    forall user, ip ensures ip in AllowedOf(allowed, user) <==> MayReach(items, user, ip) {
      assert ip in AllowedOf(allowed, user) <==> exists vm :: vm in items && GrantedBy(vm.labs, user, ip);
    }
  }

  // ----- the rule chain and its meaning -----

  /** Names of address sets in the table: `routers_all` and `user_<uid>`. */
  datatype SetName = RoutersAll | UserSet(uid: nat)

  datatype Verdict = Accept | Reject

  datatype Match =
    | Established
    | FromUid(uid: nat)
    | FromUidTo(uid: nat, destination: SetName)

  datatype Rule = Rule(match_: Match, verdict: Verdict)

  /** The rendered table: its named sets and the output chain, whose policy is accept. */
  datatype Table = Table(sets: map<SetName, set<Ip>>, chain: seq<Rule>)

  datatype Packet = Packet(established: bool, uid: nat, destination: Ip)

  predicate Matches(sets: map<SetName, set<Ip>>, m: Match, p: Packet) {
    match m
    case Established => p.established
    case FromUid(uid) => p.uid == uid
    case FromUidTo(uid, name) => p.uid == uid && name in sets && p.destination in sets[name]
  }

  /** First match wins; a packet no rule matches falls to the policy. */
  function Evaluate(sets: map<SetName, set<Ip>>, chain: seq<Rule>, p: Packet): Verdict {
    if chain == [] then Accept
    else if Matches(sets, chain[0].match_, p) then chain[0].verdict
    else Evaluate(sets, chain[1..], p)
  }

  // ----- rendering -----

  datatype Account = Account(user: User, uid: nat)

  function UidOf(): Account -> int { (a: Account) => a.uid }

  function RulesFor(uid: nat): seq<Rule> {
    [Rule(FromUidTo(uid, UserSet(uid)), Accept), Rule(FromUidTo(uid, RoutersAll), Reject)]
  }

  const HEAD: seq<Rule> := [Rule(Established, Accept), Rule(FromUid(0), Accept)]

  ghost predicate UidsDistinct(accounts: seq<Account>) {
    forall i, j :: 0 <= i < j < |accounts| ==> accounts[i].uid != accounts[j].uid
  }

  /** The chain of the managed accounts, in the order given. */
  ghost function UserRules(accounts: seq<Account>): seq<Rule> {
    if accounts == [] then [] else UserRules(accounts[..|accounts| - 1]) + RulesFor(accounts[|accounts| - 1].uid)
  }

  method RenderRules(routerIps: set<Ip>, accounts: seq<Account>, allowed: map<User, set<Ip>>) returns (table: Table)
    ensures table.chain == HEAD + UserRules(SortBy(accounts, UidOf()))
    ensures RoutersAll in table.sets && table.sets[RoutersAll] == routerIps
    ensures UidsDistinct(accounts) ==>
              forall a :: a in accounts ==>
                UserSet(a.uid) in table.sets && table.sets[UserSet(a.uid)] == AllowedOf(allowed, a.user)
  {
    var ordered := SortBy(accounts, UidOf());
    if UidsDistinct(accounts) {
      SortedUidsDistinct(accounts);
    }
    SortMember(accounts, UidOf());
    var sets := RenderSets(routerIps, ordered, allowed);
    var chain := RenderChain(ordered);
    table := Table(sets, chain);
    if UidsDistinct(accounts) {
      forall a | a in accounts ensures UserSet(a.uid) in sets && sets[UserSet(a.uid)] == AllowedOf(allowed, a.user) {
        assert a in ordered;
      }
    }
  }

  /** The address sets; of accounts with the same uid the last one wins. */
  method RenderSets(routerIps: set<Ip>, ordered: seq<Account>, allowed: map<User, set<Ip>>)
    returns (sets: map<SetName, set<Ip>>)
    ensures RoutersAll in sets && sets[RoutersAll] == routerIps
    ensures UidsDistinct(ordered) ==>
              forall a :: a in ordered ==> UserSet(a.uid) in sets && sets[UserSet(a.uid)] == AllowedOf(allowed, a.user)
  {
    sets := map[RoutersAll := routerIps];
    for i := 0 to |ordered|
      invariant RoutersAll in sets && sets[RoutersAll] == routerIps
      invariant UidsDistinct(ordered) ==> forall j :: 0 <= j < i ==>
        UserSet(ordered[j].uid) in sets && sets[UserSet(ordered[j].uid)] == AllowedOf(allowed, ordered[j].user)
    {
      sets := sets[UserSet(ordered[i].uid) := AllowedOf(allowed, ordered[i].user)];
    }
  }

  method RenderChain(ordered: seq<Account>) returns (chain: seq<Rule>)
    ensures chain == HEAD + UserRules(ordered)
  {
    chain := HEAD;
    for i := 0 to |ordered|
      invariant chain == HEAD + UserRules(ordered[..i])
    {
      assert ordered[..i + 1][..i] == ordered[..i];
      chain := chain + [Rule(FromUidTo(ordered[i].uid, UserSet(ordered[i].uid)), Accept)];
      chain := chain + [Rule(FromUidTo(ordered[i].uid, RoutersAll), Reject)];
    }
    assert ordered[..|ordered|] == ordered;
  }

  lemma SortedUidsDistinct(accounts: seq<Account>)
    requires UidsDistinct(accounts)
    ensures UidsDistinct(SortBy(accounts, UidOf()))
  {
    var sorted := SortBy(accounts, UidOf());
    SortSorted(accounts, UidOf());
    forall i, j | 0 <= i < j < |sorted| ensures sorted[i].uid != sorted[j].uid {
      UidOnce(accounts, sorted[i].uid);
      UidTwice(sorted, i, j);
      UidCountOfSorted(accounts, sorted[i].uid);
    }
  }

  ghost function UidCount(accounts: seq<Account>, uid: nat): nat {
    if accounts == [] then 0
    else UidCount(accounts[..|accounts| - 1], uid) + if accounts[|accounts| - 1].uid == uid then 1 else 0
  }

  lemma {:induction false} UidCountOfSorted(accounts: seq<Account>, uid: nat)
    ensures UidCount(SortBy(accounts, UidOf()), uid) == UidCount(accounts, uid)
  {
    if accounts != [] {
      var init, last := accounts[..|accounts| - 1], accounts[|accounts| - 1];
      UidCountOfSorted(init, uid);
      UidCountInsert(SortBy(init, UidOf()), last, uid);
    }
  }

  lemma {:induction false} UidCountInsert(accounts: seq<Account>, a: Account, uid: nat)
    ensures UidCount(InsertBy(accounts, a, UidOf()), uid) == UidCount(accounts, uid) + if a.uid == uid then 1 else 0
  {
    var r := InsertBy(accounts, a, UidOf());
    assert r[..|r| - 1] == if accounts == [] || UidOf()(accounts[|accounts| - 1]) <= UidOf()(a)
                           then accounts else InsertBy(accounts[..|accounts| - 1], a, UidOf());
    if accounts != [] && UidOf()(accounts[|accounts| - 1]) > UidOf()(a) {
      UidCountInsert(accounts[..|accounts| - 1], a, uid);
    }
  }

  lemma {:induction false} UidOnce(accounts: seq<Account>, uid: nat)
    requires UidsDistinct(accounts)
    ensures UidCount(accounts, uid) <= 1
    ensures (forall a :: a in accounts ==> a.uid != uid) ==> UidCount(accounts, uid) == 0
  {
    if accounts != [] {
      UidOnce(accounts[..|accounts| - 1], uid);
    }
  }

  lemma {:induction false} UidTwice(accounts: seq<Account>, i: nat, j: nat)
    requires i < j < |accounts|
    ensures accounts[i].uid == accounts[j].uid ==> UidCount(accounts, accounts[i].uid) >= 2
    ensures UidCount(accounts, accounts[j].uid) >= 1
  {
    var init := accounts[..|accounts| - 1];
    if j < |init| {
      UidTwice(init, i, j);
    } else if i > 0 {
      UidTwice(init, 0, i);
    } else {
      UidFirst(init);
    }
  }

  lemma {:induction false} UidFirst(accounts: seq<Account>)
    requires accounts != []
    ensures UidCount(accounts, accounts[0].uid) >= 1
  {
    if |accounts| > 1 {
      UidFirst(accounts[..|accounts| - 1]);
    }
  }

  // ----- correctness of the compilation -----

  lemma {:induction false} EvaluateAppend(sets: map<SetName, set<Ip>>, a: seq<Rule>, b: seq<Rule>, p: Packet)
    requires forall r :: r in a ==> !Matches(sets, r.match_, p)
    ensures Evaluate(sets, a + b, p) == Evaluate(sets, b, p)
  {
    if a == [] {
      assert a + b == b;
    } else {
      assert (a + b)[1..] == a[1..] + b;
      EvaluateAppend(sets, a[1..], b, p);
    }
  }

  lemma {:induction false} OtherUsersRulesDoNotMatch(sets: map<SetName, set<Ip>>, accounts: seq<Account>, p: Packet)
    requires forall a :: a in accounts ==> a.uid != p.uid
    ensures forall r :: r in UserRules(accounts) ==> !Matches(sets, r.match_, p)
  {
    if accounts != [] {
      OtherUsersRulesDoNotMatch(sets, accounts[..|accounts| - 1], p);
    }
  }

  /** What the user rules do with a packet of the account at position `i`. */
  lemma {:induction false} OwnRulesDecide(sets: map<SetName, set<Ip>>, accounts: seq<Account>, i: nat, p: Packet)
    requires UidsDistinct(accounts) && i < |accounts| && accounts[i].uid == p.uid
    requires RoutersAll in sets && UserSet(p.uid) in sets
    ensures Evaluate(sets, UserRules(accounts), p) ==
            if p.destination in sets[RoutersAll] && p.destination !in sets[UserSet(p.uid)] then Reject else Accept
  {
    var init, last := accounts[..|accounts| - 1], accounts[|accounts| - 1];
    if i == |accounts| - 1 {
      OtherUsersRulesDoNotMatch(sets, init, p);
      EvaluateAppend(sets, UserRules(init), RulesFor(p.uid), p);
      var own := RulesFor(p.uid);
      assert own[1..][0] == own[1] && own[1..][1..] == [];
      assert Evaluate(sets, own[1..], p) == if p.destination in sets[RoutersAll] then Reject else Accept;
    } else {
      OwnRulesDecide(sets, init, i, p);
      assert last.uid != p.uid;
      LaterRulesDoNotMatter(sets, UserRules(init), RulesFor(last.uid), p);
    }
  }

  /** Rules that do not match the packet can be appended without effect. */
  lemma {:induction false} LaterRulesDoNotMatter(sets: map<SetName, set<Ip>>, a: seq<Rule>, b: seq<Rule>, p: Packet)
    requires forall r :: r in b ==> !Matches(sets, r.match_, p)
    ensures Evaluate(sets, a + b, p) == Evaluate(sets, a, p)
  {
    if a == [] {
      EvaluateAppend(sets, b, [], p);
      assert a + b == b && b + [] == b;
    } else {
      assert (a + b)[1..] == a[1..] + b;
      LaterRulesDoNotMatter(sets, a[1..], b, p);
    }
  }

  lemma HeadDecides(sets: map<SetName, set<Ip>>, rest: seq<Rule>, p: Packet)
    ensures Evaluate(sets, HEAD + rest, p) == if p.established || p.uid == 0 then Accept else Evaluate(sets, rest, p)
  {
  }

  /** The rendered chain rejects a packet exactly when it opens a new connection from a managed
      non-root account to a known router outside that account's own set. */
  lemma ChainMeaning(table: Table, routerIps: set<Ip>, accounts: seq<Account>, allowed: map<User, set<Ip>>, p: Packet)
    requires UidsDistinct(accounts)
    requires table.chain == HEAD + UserRules(SortBy(accounts, UidOf()))
    requires RoutersAll in table.sets && table.sets[RoutersAll] == routerIps
    requires forall a :: a in accounts ==>
      UserSet(a.uid) in table.sets && table.sets[UserSet(a.uid)] == AllowedOf(allowed, a.user)
    ensures Evaluate(table.sets, table.chain, p) == Reject <==>
            && !p.established && p.uid != 0
            && p.destination in routerIps
            && exists a :: a in accounts && a.uid == p.uid && p.destination !in AllowedOf(allowed, a.user)
  {
    var sorted := SortBy(accounts, UidOf());
    SortedUidsDistinct(accounts);
    SortMember(accounts, UidOf());
    HeadDecides(table.sets, UserRules(sorted), p);
    if i :| 0 <= i < |sorted| && sorted[i].uid == p.uid {
      assert sorted[i] in accounts;
      OwnRulesDecide(table.sets, sorted, i, p);
      forall a | a in accounts && a.uid == p.uid ensures a == sorted[i] {
        var j :| 0 <= j < |sorted| && sorted[j] == a;
        assert i == j;
      }
    } else {
      OtherUsersRulesDoNotMatch(table.sets, sorted, p);
      EvaluateAppend(table.sets, UserRules(sorted), [], p);
      assert UserRules(sorted) + [] == UserRules(sorted);
      forall a | a in accounts ensures a.uid != p.uid {
        assert a in sorted;
      }
    }
  }

  /** Gathering and rendering together: a managed non-root account opens a connection to a router
      exactly when its user owns the active reservation of a lab that lists the router; nobody
      else and nothing else is filtered. */
  method Reconcile(items: seq<Vm>, accounts: seq<Account>) returns (table: Table)
    ensures UidsDistinct(accounts) ==> forall p :: Evaluate(table.sets, table.chain, p) == Reject <==>
      Forbidden(items, accounts, p)
  {
    var routerIps := GatherRouterIps(items);
    var allowed := GatherAllowedIps(items);
    table := RenderRules(routerIps, accounts, allowed);
    if UidsDistinct(accounts) {
      forall p ensures Evaluate(table.sets, table.chain, p) == Reject <==> Forbidden(items, accounts, p) {
        ChainMeaning(table, routerIps, accounts, allowed, p);
      }
    }
  }

  /** A new connection to a router from a managed non-root account whose user may not reach it. */
  ghost predicate Forbidden(items: seq<Vm>, accounts: seq<Account>, p: Packet) {
    && !p.established && p.uid != 0
    && IsRouter(items, p.destination)
    && exists a :: a in accounts && a.uid == p.uid && !MayReach(items, a.user, p.destination)
  }
}
