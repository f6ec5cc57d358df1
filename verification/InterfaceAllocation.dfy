/** Interface names for the links of a generated topology: the naming patterns of the router
    families, the search for a free name, the link loop, and the re-insertion of passthrough links. */
module InterfaceAllocation {
  import opened Sequences
  import D = Decimals
  import V = TopologyValidator

  // ----- naming patterns -----

  /** `prefix{n}`, or `prefix{slot}/{n}` with four ports to a slot. */
  datatype Pattern = Indexed(prefix: string) | Slotted(prefix: string)

  datatype Family = Family(pattern: Pattern, max: nat, start: nat)

  function FamilyOf(id: string): Family {
    match id
    case "iosxr" => Family(Indexed("Gi0-0-0-"), 32, 0)
    case "junos" => Family(Indexed("ge-0/0/"), 16, 0)
    case "ios" => Family(Slotted("Ethernet"), 16, 0)
    case "crpd" => Family(Indexed("eth"), 8, 0)
    case "sros" => Family(Indexed("ethernet-1/"), 32, 1)
    case "srl" => Family(Indexed("ethernet-1/"), 32, 1)
    case "ceos" => Family(Indexed("Ethernet"), 32, 0)
    case "vjunos" => Family(Indexed("et-0/0/"), 12, 0)
    case _ => Family(Indexed("eth"), 8, 0)
  }

  function Name(pattern: Pattern, i: nat): string {
    match pattern
    case Indexed(prefix) => prefix + D.Dec(i)
    case Slotted(prefix) => prefix + (D.Dec(i / 4) + ['/'] + D.Dec(i % 4))
  }

  lemma PrefixCancels(prefix: string, a: string, b: string)
    requires prefix + a == prefix + b
    ensures a == b
  {
    assert (prefix + a)[|prefix|..] == a && (prefix + b)[|prefix|..] == b;
  }

  /** Different indices have different names, also where the name is split into slot and port. */
  lemma NamesAreInjective(pattern: Pattern, i: nat, j: nat)
    requires Name(pattern, i) == Name(pattern, j)
    ensures i == j
  {
    match pattern
    case Indexed(prefix) =>
      PrefixCancels(prefix, D.Dec(i), D.Dec(j));
      D.DecIsInjective(i, j);
    case Slotted(prefix) =>
      var slot, slot', port, port' := D.Dec(i / 4), D.Dec(j / 4), D.Dec(i % 4), D.Dec(j % 4);
      PrefixCancels(prefix, slot + ['/'] + port, slot' + ['/'] + port');
      V.FindSkips(slot, '/', port);
      V.FindSkips(slot', '/', port');
      assert (slot + ['/'] + port)[..|slot|] == slot && (slot' + ['/'] + port')[..|slot'|] == slot';
      PrefixCancels(slot + ['/'], port, port');
      D.DecIsInjective(i / 4, j / 4);
      D.DecIsInjective(i % 4, j % 4);
  }

  // ----- the search for a free name -----

  /** The smallest index from `i` on whose name is free, or `max`. */
  function FreeIndex(f: Family, used: seq<string>, i: nat): (k: nat)
    requires i <= f.max
    ensures i <= k <= f.max
    ensures forall m :: i <= m < k ==> Name(f.pattern, m) in used
    ensures k < f.max ==> Name(f.pattern, k) !in used
    decreases f.max - i
  {
    if i == f.max || Name(f.pattern, i) !in used then i else FreeIndex(f, used, i + 1)
  }

  function Assigned(f: Family, link: nat, used: seq<string>): string {
    var k := FreeIndex(f, used, 0);
    if k < f.max then Name(f.pattern, k) else Fallback(link)
  }

  function Fallback(link: nat): string {
    "eth" + D.Dec(link)
  }

  /** `_auto_assign_interfaces`, with the node's own list of used names. */
  method AutoAssign(f: Family, link: nat, usedBefore: seq<string>) returns (name: string, used: seq<string>)
    ensures name == Assigned(f, link, usedBefore)
    ensures used == usedBefore + [name]
  {
    for i := 0 to f.max
      invariant FreeIndex(f, usedBefore, 0) == FreeIndex(f, usedBefore, i)
    {
      name := Name(f.pattern, i);
      if name !in usedBefore {
        return name, usedBefore + [name];
      }
    }
    name := "eth" + D.Dec(link);
    used := usedBefore + [name];
  }

  ghost function NameSet(pattern: Pattern, n: nat): set<string> {
    set i: nat | i < n :: Name(pattern, i)
  }

  lemma NameIsNotAmong(pattern: Pattern, n: nat)
    ensures Name(pattern, n) !in NameSet(pattern, n)
  {
    forall i: nat | i < n ensures Name(pattern, i) != Name(pattern, n) {
      if Name(pattern, i) == Name(pattern, n) {
        NamesAreInjective(pattern, i, n);
      }
    }
  }

  lemma NameSetSnoc(pattern: Pattern, n: nat)
    ensures NameSet(pattern, n + 1) == NameSet(pattern, n) + {Name(pattern, n)}
  {
  }

  lemma {:induction false} NameSetSize(pattern: Pattern, n: nat)
    ensures |NameSet(pattern, n)| == n
  {
    if n == 0 {
      assert NameSet(pattern, 0) == {};
    } else {
      NameSetSize(pattern, n - 1);
      NameSetSnoc(pattern, n - 1);
      NameIsNotAmong(pattern, n - 1);
    }
  }

  ghost function UsedSet(used: seq<string>): set<string> {
    set name | name in used
  }

  lemma {:induction false} UsedSetSize(used: seq<string>)
    ensures |UsedSet(used)| <= |used|
  {
    if used == [] {
      assert UsedSet(used) == {};
    } else {
      UsedSetSize(used[1..]);
      assert used == [used[0]] + used[1..];
      assert UsedSet(used) == UsedSet(used[1..]) + {used[0]};
    }
  }

  /** By the pigeonhole principle a name is free as long as fewer than `max` are in use; the
      assigned name is then new, and the first of the pattern that is. */
  lemma SearchSucceeds(f: Family, link: nat, used: seq<string>)
    requires |UsedSet(used)| < f.max
    ensures Assigned(f, link, used) !in used
    ensures exists k: nat :: k < f.max && Assigned(f, link, used) == Name(f.pattern, k) &&
              forall m: nat :: m < k ==> Name(f.pattern, m) in used
  {
    var k := FreeIndex(f, used, 0);
    if k == f.max {
      NameSetSize(f.pattern, f.max);
      assert NameSet(f.pattern, f.max) <= UsedSet(used);
      SubsetSize(NameSet(f.pattern, f.max), UsedSet(used));
    }
  }

  // ----- the link loop -----

  /** An endpoint as the user describes it; an empty interface asks for an assignment. */
  datatype Wish = Wish(node: string, iface: string)

  datatype WishedLink = WishedLink(src: Wish, dst: Wish)

  function FamilyFor(families: map<string, string>, node: string): Family {
    FamilyOf(if node in families then families[node] else "linux")
  }

  function UsedBy(used: map<string, seq<string>>, node: string): seq<string> {
    if node in used then used[node] else []
  }

  /** The wishes in the order the loop serves them: source before destination, link by link. */
  function Wishes(links: seq<WishedLink>): (w: seq<Wish>)
    ensures |w| == 2 * |links|
    ensures forall i :: 0 <= i < |links| ==> w[2 * i] == links[i].src && w[2 * i + 1] == links[i].dst
  {
    if links == [] then [] else Wishes(links[..|links| - 1]) + [links[|links| - 1].src, links[|links| - 1].dst]
  }

  /** The names given to the first wishes. */
  function Served(wishes: seq<Wish>, families: map<string, string>): (names: seq<string>)
    ensures |names| == |wishes|
  {
    if wishes == [] then []
    else
      var n := |wishes| - 1;
      var names := Served(wishes[..n], families);
      names + [Choice(wishes[n], n / 2, families, NamesOn(wishes[..n], names, wishes[n].node))]
  }

  function Choice(w: Wish, link: nat, families: map<string, string>, used: seq<string>): string {
    if w.iface != "" then w.iface else Assigned(FamilyFor(families, w.node), link, used)
  }

  /** The names on one node, in the order they were given. */
  function NamesOn(wishes: seq<Wish>, names: seq<string>, node: string): seq<string>
    requires |names| == |wishes|
  {
    if wishes == [] then []
    else
      var n := |wishes| - 1;
      if wishes[n].node == node then NamesOn(wishes[..n], names[..n], node) + [names[n]]
      else NamesOn(wishes[..n], names[..n], node)
  }

  ghost predicate Notes(used: map<string, seq<string>>, wishes: seq<Wish>, names: seq<string>)
    requires |names| == |wishes|
  {
    forall node :: UsedBy(used, node) == NamesOn(wishes, names, node)
  }

  lemma NotesSnoc(used: map<string, seq<string>>, wishes: seq<Wish>, names: seq<string>, w: Wish, name: string)
    requires |names| == |wishes| && Notes(used, wishes, names)
    ensures Notes(used[w.node := UsedBy(used, w.node) + [name]], wishes + [w], names + [name])
  {
    assert (wishes + [w])[..|wishes|] == wishes && (names + [name])[..|names|] == names;
    forall node
      ensures UsedBy(used[w.node := UsedBy(used, w.node) + [name]], node) == NamesOn(wishes + [w], names + [name], node)
    {
      assert UsedBy(used, node) == NamesOn(wishes, names, node);
    }
  }

  lemma ServedSnoc(wishes: seq<Wish>, w: Wish, families: map<string, string>)
    ensures Served(wishes + [w], families) ==
      Served(wishes, families) + [Choice(w, |wishes| / 2, families, NamesOn(wishes, Served(wishes, families), w.node))]
  {
  }

  /** The state of the loop after the wishes `done`. */
  ghost predicate Progress(done: seq<Wish>, families: map<string, string>, names: seq<string>,
                           used: map<string, seq<string>>) {
    names == Served(done, families) && Notes(used, done, names)
  }

  /** One endpoint: take the wished name or search one, and note it as used. */
  method Serve(w: Wish, link: nat, families: map<string, string>, before: map<string, seq<string>>,
               ghost done: seq<Wish>, ghost names: seq<string>)
    returns (name: string, used: map<string, seq<string>>)
    requires Progress(done, families, names, before) && link == |done| / 2
    ensures Progress(done + [w], families, names + [name], used)
  {
    if w.iface == "" {
      var list;
      name, list := AutoAssign(FamilyFor(families, w.node), link, UsedBy(before, w.node));
      used := before[w.node := list];
    } else {
      name := w.iface;
      used := before[w.node := UsedBy(before, w.node) + [name]];
    }
    ServedSnoc(done, w, families);
    NotesSnoc(before, done, names, w, name);
  }

  /** The names in pairs, one pair a link. */
  function Paired(names: seq<string>): (out: seq<(string, string)>)
    ensures |out| == |names| / 2
    ensures forall i :: 0 <= i < |out| ==> out[i] == (names[2 * i], names[2 * i + 1])
  {
    if |names| < 2 then [] else [(names[0], names[1])] + Paired(names[2..])
  }

  lemma PairedSnoc(names: seq<string>, src: string, dst: string)
    requires |names| % 2 == 0
    ensures Paired(names + [src] + [dst]) == Paired(names) + [(src, dst)]
  {
  }

  lemma WishesSnoc(links: seq<WishedLink>, i: nat)
    requires i < |links|
    ensures Wishes(links[..i + 1]) == Wishes(links[..i]) + [links[i].src] + [links[i].dst]
  {
    assert links[..i + 1][..i] == links[..i];
  }

  /** The link loop of `generate_clab_yaml`. */
  method WireLinks(links: seq<WishedLink>, families: map<string, string>) returns (out: seq<(string, string)>)
    ensures out == Paired(Served(Wishes(links), families))
  {
    out := [];
    var used: map<string, seq<string>> := map[];
    ghost var done: seq<Wish>, names: seq<string> := [], [];
    for i := 0 to |links|
      invariant done == Wishes(links[..i]) && |names| == |done| == 2 * i
      invariant Progress(done, families, names, used)
      invariant out == Paired(names)
    {
      var src, dst;
      WishesSnoc(links, i);
      src, used := Serve(links[i].src, i, families, used, done, names);
      dst, used := Serve(links[i].dst, i, families, used, done + [links[i].src], names + [src]);
      PairedSnoc(names, src, dst);
      out := out + [(src, dst)];
      done, names := done + [links[i].src] + [links[i].dst], names + [src] + [dst];
    }
    assert links[..|links|] == links;
  }

  // ----- which name an endpoint gets -----

  lemma {:induction false} OnNode(wishes: seq<Wish>, names: seq<string>, node: string, name: string)
    requires |names| == |wishes|
    ensures name in NamesOn(wishes, names, node) <==>
      exists m :: 0 <= m < |wishes| && wishes[m].node == node && names[m] == name
  {
    if wishes != [] {
      var n := |wishes| - 1;
      OnNode(wishes[..n], names[..n], node, name);
      if m :| 0 <= m < |wishes| && wishes[m].node == node && names[m] == name && m < n {
        assert wishes[..n][m].node == node && names[..n][m] == name;
      }
      if m :| 0 <= m < n && wishes[..n][m].node == node && names[..n][m] == name {
        assert wishes[m].node == node && names[m] == name;
      }
    }
  }

  /** The name is the first of the family that is not used, or there is none. */
  ghost predicate IsFirstFree(f: Family, used: set<string>, name: string, link: nat) {
    || (exists k: nat ::
          && k < f.max && name == Name(f.pattern, k) && name !in used
          && forall i: nat :: i < k ==> Name(f.pattern, i) in used)
    || (name == "eth" + D.Dec(link) && forall i: nat :: i < f.max ==> Name(f.pattern, i) in used)
  }

  lemma AssignedIsFirstFree(f: Family, link: nat, used: seq<string>)
    ensures IsFirstFree(f, UsedSet(used), Assigned(f, link, used), link)
  {
    var k := FreeIndex(f, used, 0);
    assert k < f.max ==> Assigned(f, link, used) == Name(f.pattern, k);
  }

  lemma {:induction false} ServedAt(wishes: seq<Wish>, families: map<string, string>, n: nat)
    requires n < |wishes|
    ensures var names := Served(wishes, families);
      names[n] == Choice(wishes[n], n / 2, families, NamesOn(wishes[..n], names[..n], wishes[n].node))
    decreases |wishes|
  {
    var last := |wishes| - 1;
    var init := wishes[..last];
    assert Served(wishes, families)[..last] == Served(init, families);
    if n < last {
      ServedAt(init, families, n);
      assert init[..n] == wishes[..n] && Served(init, families)[..n] == Served(wishes, families)[..n];
    }
  }

  /** The names earlier endpoints of the same node have. */
  ghost function EarlierNames(wishes: seq<Wish>, names: seq<string>, n: nat): set<string>
    requires |names| == |wishes| && n < |wishes|
  {
    set m | 0 <= m < n && wishes[m].node == wishes[n].node :: names[m]
  }

  /** What every endpoint gets: the name it wishes; else the first name of the family listed for its node,
      or of plain eth interfaces, that no earlier endpoint of the node has; else eth with the number of the
      link. */
  lemma EndpointName(wishes: seq<Wish>, families: map<string, string>, n: nat)
    requires n < |wishes|
    ensures var names, w := Served(wishes, families), wishes[n];
      var f := if w.node in families then FamilyOf(families[w.node]) else Family(Indexed("eth"), 8, 0);
      if w.iface != "" then names[n] == w.iface
      else IsFirstFree(f, EarlierNames(wishes, names, n), names[n], n / 2)
  {
    var names, w := Served(wishes, families), wishes[n];
    var used := NamesOn(wishes[..n], names[..n], w.node);
    ServedAt(wishes, families, n);
    forall name ensures name in UsedSet(used) <==> name in EarlierNames(wishes, names, n) {
      OnNode(wishes[..n], names[..n], w.node, name);
      if m :| 0 <= m < n && wishes[m].node == w.node && names[m] == name {
        assert wishes[..n][m].node == w.node && names[..n][m] == name;
      }
    }
    assert UsedSet(used) == EarlierNames(wishes, names, n);
    if w.iface == "" {
      AssignedIsFirstFree(FamilyFor(families, w.node), n / 2, used);
    }
  }

  // ----- distinct names on a node -----

  ghost predicate Distinct(names: seq<string>) {
    forall j, k :: 0 <= j < k < |names| ==> names[j] != names[k]
  }

  /** The wishes of one node. */
  function AtNode(node: string): Wish -> bool {
    (w: Wish) => w.node == node
  }

  /** The names on a node so far. */
  function GivenTo(wishes: seq<Wish>, families: map<string, string>, node: string): seq<string> {
    NamesOn(wishes, Served(wishes, families), node)
  }

  lemma AtNodeSnoc(before: seq<Wish>, w: Wish, node: string)
    ensures Filter(before + [w], AtNode(node)) ==
      if w.node == node then Filter(before, AtNode(node)) + [w] else Filter(before, AtNode(node))
  {
    FilterAppend(before, [w], AtNode(node));
    FilterCons(w, [], AtNode(node));
    assert [w] + [] == [w];
  }

  lemma GivenSnoc(before: seq<Wish>, w: Wish, families: map<string, string>, node: string)
    ensures GivenTo(before + [w], families, node) ==
      if w.node == node
        then GivenTo(before, families, node) + [Choice(w, |before| / 2, families, GivenTo(before, families, node))]
      else GivenTo(before, families, node)
  {
  }

  // What a caller can see of a node before the links are wired: the names it wished there, and at
  // how many endpoints it left the choice to the search.

  function WishedOn(wishes: seq<Wish>, node: string): seq<string> {
    if wishes == [] then []
    else
      var before, w := wishes[..|wishes| - 1], wishes[|wishes| - 1];
      if w.node == node && w.iface != "" then WishedOn(before, node) + [w.iface] else WishedOn(before, node)
  }

  function SearchesOn(wishes: seq<Wish>, node: string): nat {
    if wishes == [] then 0
    else
      var before, w := wishes[..|wishes| - 1], wishes[|wishes| - 1];
      if w.node == node && w.iface == "" then SearchesOn(before, node) + 1 else SearchesOn(before, node)
  }

  /** Those of `names` that belong to the indices below `k`. */
  ghost function Below(pattern: Pattern, names: seq<string>, k: nat): set<string> {
    NameSet(pattern, k) * UsedSet(names)
  }

  /** At some search, the searches before it and the names wished below index `k` reach up to `k`:
      that search, or an earlier one, gives the name of index `k` away. */
  ghost predicate SearchReaches(wishes: seq<Wish>, pattern: Pattern, node: string, k: nat) {
    exists m :: 0 <= m < |wishes| && wishes[m] == Wish(node, "") && ReachesAt(wishes[..m], pattern, node, k)
  }

  ghost predicate ReachesAt(before: seq<Wish>, pattern: Pattern, node: string, k: nat) {
    SearchesOn(before, node) + |Below(pattern, WishedOn(before, node), k)| >= k
  }

  /** The searches and the wished names have used up all the names of the family. */
  ghost predicate Exhausted(before: seq<Wish>, f: Family, node: string) {
    ReachesAt(before, f.pattern, node, f.max)
  }

  /** At an earlier endpoint the search found the family exhausted, and fell back to `name`. */
  ghost predicate FellBackTo(wishes: seq<Wish>, f: Family, node: string, name: string) {
    exists m ::
      0 <= m < |wishes| && wishes[m] == Wish(node, "") && Exhausted(wishes[..m], f, node) && name == Fallback(m / 2)
  }

  /** A caller's test for a name that is gone: it was wished before, a search has reached it, or a
      search has fallen back to it. */
  ghost predicate Gone(wishes: seq<Wish>, f: Family, node: string, name: string) {
    || name in WishedOn(wishes, node)
    || (exists k: nat :: k < f.max && name == Name(f.pattern, k) && SearchReaches(wishes, f.pattern, node, k))
    || FellBackTo(wishes, f, node, name)
  }

  lemma BelowSnoc(pattern: Pattern, names: seq<string>, name: string, k: nat)
    requires name !in names
    ensures |Below(pattern, names + [name], k)| == |Below(pattern, names, k)| +
      if name in NameSet(pattern, k) then 1 else 0
  {
    assert UsedSet(names + [name]) == UsedSet(names) + {name};
    MeetGrows(NameSet(pattern, k), UsedSet(names), name);
  }

  lemma MeetGrows<T>(all: set<T>, some: set<T>, x: T)
    requires x !in some
    ensures |all * (some + {x})| == |all * some| + if x in all then 1 else 0
  {
    assert all * (some + {x}) == if x in all then all * some + {x} else all * some;
  }

  lemma NameInSetIff(pattern: Pattern, i: nat, k: nat)
    ensures Name(pattern, i) in NameSet(pattern, k) <==> i < k
  {
    if j: nat :| j < k && Name(pattern, j) == Name(pattern, i) {
      NamesAreInjective(pattern, j, i);
    }
  }

  /** All names below `k` are used exactly when there are `k` of them. */
  lemma BelowIsFull(pattern: Pattern, names: seq<string>, k: nat)
    ensures |Below(pattern, names, k)| <= k
    ensures |Below(pattern, names, k)| == k <==> forall j: nat :: j < k ==> Name(pattern, j) in names
  {
    var all, below := NameSet(pattern, k), Below(pattern, names, k);
    NameSetSize(pattern, k);
    SubsetSize(below, all);
    if |below| == k {
      SameSize(below, all);
      forall j: nat | j < k ensures Name(pattern, j) in names {
        assert Name(pattern, j) in all;
      }
    }
    if forall j: nat :: j < k ==> Name(pattern, j) in names {
      assert all <= UsedSet(names);
      assert below == all;
    }
  }

  lemma SameSize<T>(a: set<T>, b: set<T>)
    requires a <= b && |a| == |b|
    ensures a == b
  {
    if a != b {
      var x :| x in b && x !in a;
      SubsetSize(a + {x}, b);
    }
  }

  /** How the given names relate to what a caller can see, as long as they are all different. */
  ghost predicate Explained(wishes: seq<Wish>, families: map<string, string>, node: string) {
    var f, names := FamilyFor(families, node), GivenTo(wishes, families, node);
    && NamesExplained(wishes, f, names, node)
    && (forall k: nat :: k < f.max ==> IndexExplained(wishes, f.pattern, names, node, k))
    && Balanced(wishes, f, names, node)
  }

  /** Every name was wished, or is a name of the family, or a fallback; and the other way round. */
  ghost predicate NamesExplained(wishes: seq<Wish>, f: Family, names: seq<string>, node: string) {
    && (forall name :: name in WishedOn(wishes, node) ==> name in names)
    && (forall name :: FellBackTo(wishes, f, node, name) ==> name in names)
    && (forall name :: name in names && name !in WishedOn(wishes, node) ==>
          FellBackTo(wishes, f, node, name) || exists k: nat :: k < f.max && name == Name(f.pattern, k))
  }

  /** Until the family is exhausted, its used names are those searched and those wished. */
  ghost predicate Balanced(wishes: seq<Wish>, f: Family, names: seq<string>, node: string) {
    var used, counted := |Below(f.pattern, names, f.max)|,
      SearchesOn(wishes, node) + |Below(f.pattern, WishedOn(wishes, node), f.max)|;
    used <= counted && (used < f.max ==> used == counted)
  }

  /** A free index has every search and every lower wish below it; an index that was not wished is
      used exactly when a search has reached it. */
  ghost predicate IndexExplained(wishes: seq<Wish>, pattern: Pattern, names: seq<string>, node: string, k: nat) {
    && (Name(pattern, k) !in names ==>
          |Below(pattern, names, k)| == SearchesOn(wishes, node) + |Below(pattern, WishedOn(wishes, node), k)|)
    && (Name(pattern, k) !in WishedOn(wishes, node) ==>
          (Name(pattern, k) in names <==> SearchReaches(wishes, pattern, node, k)))
  }

  lemma ReachesSnoc(before: seq<Wish>, w: Wish, pattern: Pattern, node: string, k: nat)
    ensures SearchReaches(before + [w], pattern, node, k) <==>
            SearchReaches(before, pattern, node, k) || (w == Wish(node, "") && ReachesAt(before, pattern, node, k))
  {
    var longer := before + [w];
    assert longer[..|before|] == before;
    forall m | 0 <= m < |before| ensures longer[..m] == before[..m] && longer[m] == before[m] {
    }
    if SearchReaches(before, pattern, node, k) {
      var m :| 0 <= m < |before| && before[m] == Wish(node, "") && ReachesAt(before[..m], pattern, node, k);
      assert longer[m] == Wish(node, "") && ReachesAt(longer[..m], pattern, node, k);
    }
    if w == Wish(node, "") && ReachesAt(before, pattern, node, k) {
      assert longer[|before|] == w;
    }
  }

  lemma SeenSnoc(before: seq<Wish>, w: Wish, node: string)
    ensures WishedOn(before + [w], node) ==
      if w.node == node && w.iface != "" then WishedOn(before, node) + [w.iface] else WishedOn(before, node)
    ensures SearchesOn(before + [w], node) ==
      if w.node == node && w.iface == "" then SearchesOn(before, node) + 1 else SearchesOn(before, node)
  {
    assert (before + [w])[..|before|] == before;
  }

  lemma FellBackSnoc(before: seq<Wish>, w: Wish, f: Family, node: string, name: string)
    ensures FellBackTo(before + [w], f, node, name) <==>
            || FellBackTo(before, f, node, name)
            || (w == Wish(node, "") && Exhausted(before, f, node) && name == Fallback(|before| / 2))
  {
    var longer := before + [w];
    assert longer[..|before|] == before && longer[|before|] == w;
    forall m | 0 <= m < |before| ensures longer[..m] == before[..m] && longer[m] == before[m] {
    }
    if FellBackTo(before, f, node, name) {
      var m :| 0 <= m < |before| && before[m] == Wish(node, "") && Exhausted(before[..m], f, node) &&
        name == Fallback(m / 2);
      assert longer[m] == Wish(node, "");
    }
  }

  /** A wished name that is new keeps the explanation. */
  lemma WishKeepsIndex(before: seq<Wish>, pattern: Pattern, names: seq<string>, node: string, name: string, k: nat)
    requires name != "" && name !in names && IndexExplained(before, pattern, names, node, k)
    requires forall x :: x in WishedOn(before, node) ==> x in names
    ensures IndexExplained(before + [Wish(node, name)], pattern, names + [name], node, k)
  {
    var w := Wish(node, name);
    SeenSnoc(before, w, node);
    ReachesSnoc(before, w, pattern, node, k);
    BelowSnoc(pattern, names, name, k);
    BelowSnoc(pattern, WishedOn(before, node), name, k);
    NameInSetIff(pattern, k, k);
  }

  /** A successful search keeps the explanation. */
  lemma SearchKeepsIndex(before: seq<Wish>, f: Family, names: seq<string>, node: string, i: nat, k: nat)
    requires i < f.max && Name(f.pattern, i) !in names && forall m: nat :: m < i ==> Name(f.pattern, m) in names
    requires IndexExplained(before, f.pattern, names, node, k)
    ensures IndexExplained(before + [Wish(node, "")], f.pattern, names + [Name(f.pattern, i)], node, k)
  {
    var w := Wish(node, "");
    SeenSnoc(before, w, node);
    ReachesSnoc(before, w, f.pattern, node, k);
    BelowSnoc(f.pattern, names, Name(f.pattern, i), k);
    BelowIsFull(f.pattern, names, k);
    NameInSetIff(f.pattern, i, k);
    NameInSetIff(f.pattern, k, i);
    assert k < i ==> Name(f.pattern, k) in names;
    if i != k && Name(f.pattern, i) == Name(f.pattern, k) {
      NamesAreInjective(f.pattern, i, k);
    }
  }

  lemma ExplainedSnoc(before: seq<Wish>, w: Wish, families: map<string, string>, node: string)
    requires Explained(before, families, node)
    requires var names := GivenTo(before, families, node);
      w.node == node ==> Choice(w, |before| / 2, families, names) !in names
    ensures Explained(before + [w], families, node)
  {
    if w.node != node {
      OtherNodeKeepsExplained(before, w, families, node);
    } else if w.iface != "" {
      WishKeepsExplained(before, families, node, w.iface);
    } else if Exhausted(before, FamilyFor(families, node), node) {
      SearchOn(before, families, node);
      FallbackKeepsExplained(before, families, node);
    } else {
      SearchKeepsExplained(before, families, node);
    }
  }

  /** As long as the names on a node are all different, they are explained. */
  lemma {:induction false} DistinctIsExplained(wishes: seq<Wish>, families: map<string, string>, node: string)
    requires Distinct(GivenTo(wishes, families, node))
    ensures Explained(wishes, families, node)
    decreases |wishes|
  {
    if wishes == [] {
      NothingIsExplained(FamilyFor(families, node), node);
    } else {
      var before, w := wishes[..|wishes| - 1], wishes[|wishes| - 1];
      assert wishes == before + [w];
      GivenSnoc(before, w, families, node);
      DistinctPrefix(GivenTo(before, families, node), GivenTo(wishes, families, node));
      DistinctIsExplained(before, families, node);
      ExplainedSnoc(before, w, families, node);
    }
  }

  lemma DistinctPrefix(names: seq<string>, longer: seq<string>)
    requires Distinct(longer) && names <= longer
    ensures Distinct(names)
    ensures |longer| == |names| + 1 ==> longer[|names|] !in names
  {
    forall j, k | 0 <= j < k < |names| ensures names[j] != names[k] {
      assert names[j] == longer[j] && names[k] == longer[k];
    }
  }

  lemma NothingIsExplained(f: Family, node: string)
    ensures forall k: nat :: IndexExplained([], f.pattern, [], node, k)
    ensures Balanced([], f, [], node)
  {
    forall k: nat ensures |Below(f.pattern, [], k)| == 0 && IndexExplained([], f.pattern, [], node, k) {
      assert Below(f.pattern, [], k) == {};
    }
  }

  lemma OtherNodeKeepsExplained(before: seq<Wish>, w: Wish, families: map<string, string>, node: string)
    requires Explained(before, families, node) && w.node != node
    ensures Explained(before + [w], families, node)
  {
    var f, names := FamilyFor(families, node), GivenTo(before, families, node);
    GivenSnoc(before, w, families, node);
    SeenSnoc(before, w, node);
    forall name ensures FellBackTo(before + [w], f, node, name) <==> FellBackTo(before, f, node, name) {
      FellBackSnoc(before, w, f, node, name);
    }
    forall k: nat | k < f.max ensures IndexExplained(before + [w], f.pattern, names, node, k) {
      assert IndexExplained(before, f.pattern, names, node, k);
      ReachesSnoc(before, w, f.pattern, node, k);
    }
  }

  lemma WishKeepsExplained(before: seq<Wish>, families: map<string, string>, node: string, name: string)
    requires Explained(before, families, node) && name != "" && name !in GivenTo(before, families, node)
    ensures Explained(before + [Wish(node, name)], families, node)
  {
    var f, names, w := FamilyFor(families, node), GivenTo(before, families, node), Wish(node, name);
    GivenSnoc(before, w, families, node);
    SeenSnoc(before, w, node);
    forall x ensures FellBackTo(before + [w], f, node, x) <==> FellBackTo(before, f, node, x) {
      FellBackSnoc(before, w, f, node, x);
    }
    BelowSnoc(f.pattern, names, name, f.max);
    BelowSnoc(f.pattern, WishedOn(before, node), name, f.max);
    forall k: nat | k < f.max ensures IndexExplained(before + [w], f.pattern, names + [name], node, k) {
      assert IndexExplained(before, f.pattern, names, node, k);
      WishKeepsIndex(before, f.pattern, names, node, name, k);
    }
  }

  lemma SearchKeepsNames(before: seq<Wish>, f: Family, names: seq<string>, node: string, i: nat)
    requires NamesExplained(before, f, names, node) && !Exhausted(before, f, node) && i < f.max
    ensures NamesExplained(before + [Wish(node, "")], f, names + [Name(f.pattern, i)], node)
  {
    var w := Wish(node, "");
    SeenSnoc(before, w, node);
    forall x ensures FellBackTo(before + [w], f, node, x) <==> FellBackTo(before, f, node, x) {
      FellBackSnoc(before, w, f, node, x);
    }
  }

  lemma SearchKeepsBalance(before: seq<Wish>, f: Family, names: seq<string>, node: string, i: nat)
    requires Balanced(before, f, names, node) && i < f.max && Name(f.pattern, i) !in names
    ensures Balanced(before + [Wish(node, "")], f, names + [Name(f.pattern, i)], node)
  {
    SeenSnoc(before, Wish(node, ""), node);
    BelowSnoc(f.pattern, names, Name(f.pattern, i), f.max);
    NameInSetIff(f.pattern, i, f.max);
  }

  lemma SearchKeepsExplained(before: seq<Wish>, families: map<string, string>, node: string)
    requires Explained(before, families, node) && !Exhausted(before, FamilyFor(families, node), node)
    ensures Explained(before + [Wish(node, "")], families, node)
  {
    var f, names, w := FamilyFor(families, node), GivenTo(before, families, node), Wish(node, "");
    GivenSnoc(before, w, families, node);
    SearchOn(before, families, node);
    var i := FreeIndex(f, names, 0);
    SearchKeepsNames(before, f, names, node, i);
    SearchKeepsBalance(before, f, names, node, i);
    forall k: nat | k < f.max ensures IndexExplained(before + [w], f.pattern, names + [Name(f.pattern, i)], node, k) {
      assert IndexExplained(before, f.pattern, names, node, k);
      SearchKeepsIndex(before, f, names, node, i, k);
    }
  }

  lemma FallbackKeepsExplained(before: seq<Wish>, families: map<string, string>, node: string)
    requires Explained(before, families, node) && Exhausted(before, FamilyFor(families, node), node)
    requires Fallback(|before| / 2) !in GivenTo(before, families, node)
    ensures Explained(before + [Wish(node, "")], families, node)
  {
    var f, names, w := FamilyFor(families, node), GivenTo(before, families, node), Wish(node, "");
    var name := Fallback(|before| / 2);
    GivenSnoc(before, w, families, node);
    SeenSnoc(before, w, node);
    SearchOn(before, families, node);
    forall x ensures FellBackTo(before + [w], f, node, x) <==> FellBackTo(before, f, node, x) || x == name {
      FellBackSnoc(before, w, f, node, x);
    }
    BelowSnoc(f.pattern, names, name, f.max);
    assert name !in NameSet(f.pattern, f.max);
    forall k: nat | k < f.max ensures IndexExplained(before + [w], f.pattern, names + [name], node, k) {
      assert IndexExplained(before, f.pattern, names, node, k);
      assert Name(f.pattern, k) in names;
      ReachesSnoc(before, w, f.pattern, node, k);
    }
  }

  /** On an explained node, a search fails exactly when the caller finds the family exhausted. */
  lemma SearchOn(before: seq<Wish>, families: map<string, string>, node: string)
    requires Explained(before, families, node)
    ensures var f, names := FamilyFor(families, node), GivenTo(before, families, node);
      var i := FreeIndex(f, names, 0);
      && (Exhausted(before, f, node) <==> i == f.max)
      && Assigned(f, |before| / 2, names) == (if i < f.max then Name(f.pattern, i) else Fallback(|before| / 2))
      && (i < f.max ==> Name(f.pattern, i) !in names)
      && forall m: nat :: m < i ==> Name(f.pattern, m) in names
  {
    var f, names := FamilyFor(families, node), GivenTo(before, families, node);
    BelowIsFull(f.pattern, names, f.max);
  }

  /** On a node with different names so far, a name is used exactly when a caller finds it gone. */
  lemma UsedIffGone(wishes: seq<Wish>, families: map<string, string>, node: string, name: string)
    requires Distinct(GivenTo(wishes, families, node))
    ensures name in GivenTo(wishes, families, node) <==> Gone(wishes, FamilyFor(families, node), node, name)
  {
    DistinctIsExplained(wishes, families, node);
    var f, names := FamilyFor(families, node), GivenTo(wishes, families, node);
    if name !in WishedOn(wishes, node) && !FellBackTo(wishes, f, node, name) {
      if name in names {
        var k: nat :| k < f.max && name == Name(f.pattern, k);
        assert IndexExplained(wishes, f.pattern, names, node, k);
      }
      if k: nat :| k < f.max && name == Name(f.pattern, k) && SearchReaches(wishes, f.pattern, node, k) {
        assert IndexExplained(wishes, f.pattern, names, node, k);
      }
    }
  }

  /** A wish on the node with a name, or without one when the family is exhausted, claims a name that
      is not gone. */
  ghost predicate ClaimIsFree(before: seq<Wish>, w: Wish, f: Family, node: string) {
    && (w.node == node && w.iface != "" ==> !Gone(before, f, node, w.iface))
    && (w == Wish(node, "") && Exhausted(before, f, node) ==> !Gone(before, f, node, Fallback(|before| / 2)))
  }

  ghost predicate ClaimsAreFree(wishes: seq<Wish>, f: Family, node: string) {
    forall n :: 0 <= n < |wishes| ==> ClaimIsFree(wishes[..n], wishes[n], f, node)
  }

  lemma ClaimsSnoc(before: seq<Wish>, w: Wish, f: Family, node: string)
    ensures ClaimsAreFree(before + [w], f, node) <==>
            ClaimsAreFree(before, f, node) && ClaimIsFree(before, w, f, node)
  {
    var longer := before + [w];
    assert longer[..|before|] == before && longer[|before|] == w;
    assert forall n :: 0 <= n < |before| ==> longer[..n] == before[..n] && longer[n] == before[n];
    if ClaimsAreFree(longer, f, node) {
      forall n | 0 <= n < |before| ensures ClaimIsFree(before[..n], before[n], f, node) {
        assert ClaimIsFree(longer[..n], longer[n], f, node);
      }
    }
  }

  lemma DistinctSnoc(names: seq<string>, name: string)
    ensures Distinct(names + [name]) <==> Distinct(names) && name !in names
  {
    var longer := names + [name];
    if Distinct(longer) {
      DistinctPrefix(names, longer);
    }
  }

  /** A node gets pairwise different names if and only if every name claimed on it, by a wish or by a
      search that has to fall back, is not gone by then. */
  lemma {:induction false} NodeGetsDistinctNamesIff(wishes: seq<Wish>, families: map<string, string>, node: string)
    ensures Distinct(GivenTo(wishes, families, node)) <==> ClaimsAreFree(wishes, FamilyFor(families, node), node)
    decreases |wishes|
  {
    if wishes != [] {
      var before, w := wishes[..|wishes| - 1], wishes[|wishes| - 1];
      var f, names := FamilyFor(families, node), GivenTo(before, families, node);
      assert wishes == before + [w];
      GivenSnoc(before, w, families, node);
      ClaimsSnoc(before, w, f, node);
      NodeGetsDistinctNamesIff(before, families, node);
      if w.node == node {
        DistinctSnoc(names, Choice(w, |before| / 2, families, names));
        if Distinct(names) {
          DistinctIsExplained(before, families, node);
          SearchOn(before, families, node);
          UsedIffGone(before, families, node, Choice(w, |before| / 2, families, names));
        }
      }
    }
  }

  // ----- nodes with more endpoints than interfaces -----

  lemma StaysExhausted(before: seq<Wish>, f: Family, node: string)
    requires Exhausted(before, f, node)
    ensures Exhausted(before + [Wish(node, "")], f, node)
    ensures FellBackTo(before + [Wish(node, "")], f, node, Fallback(|before| / 2))
  {
    SeenSnoc(before, Wish(node, ""), node);
    FellBackSnoc(before, Wish(node, ""), f, node, Fallback(|before| / 2));
  }

  lemma TakenClaim(wishes: seq<Wish>, families: map<string, string>, node: string, n: nat)
    requires n < |wishes| && !ClaimIsFree(wishes[..n], wishes[n], FamilyFor(families, node), node)
    ensures !Distinct(GivenTo(wishes, families, node))
  {
    NodeGetsDistinctNamesIff(wishes, families, node);
  }

  lemma SecondEndIsTaken(before: seq<Wish>, f: Family, node: string)
    requires Exhausted(before, f, node) && |before| % 2 == 0
    ensures !ClaimIsFree(before + [Wish(node, "")], Wish(node, ""), f, node)
  {
    StaysExhausted(before, f, node);
    assert |before + [Wish(node, "")]| / 2 == |before| / 2;
  }

  /** Both ends of a link from an exhausted node to itself get one name. */
  lemma SelfLinkCollides(wishes: seq<Wish>, families: map<string, string>, node: string, n: nat)
    requires n % 2 == 0 && n + 1 < |wishes| && wishes[n] == wishes[n + 1] == Wish(node, "")
    requires Exhausted(wishes[..n], FamilyFor(families, node), node)
    ensures !Distinct(GivenTo(wishes, families, node))
  {
    var before, after := wishes[..n], wishes[..n + 1];
    SecondEndIsTaken(before, FamilyFor(families, node), node);
    assert after == before + [Wish(node, "")];
    TakenClaim(wishes, families, node, n + 1);
  }

  lemma ClaimsPrefix(wishes: seq<Wish>, f: Family, node: string, n: nat)
    requires ClaimsAreFree(wishes, f, node) && n < |wishes|
    ensures ClaimsAreFree(wishes[..n], f, node) && ClaimIsFree(wishes[..n], wishes[n], f, node)
  {
    forall m | 0 <= m < n ensures ClaimIsFree(wishes[..n][..m], wishes[..n][m], f, node) {
      assert wishes[..n][..m] == wishes[..m];
      assert ClaimIsFree(wishes[..m], wishes[m], f, node);
    }
  }

  lemma EarlyFallbackIsGone(before: seq<Wish>, families: map<string, string>, node: string, link: nat)
    requires var f := FamilyFor(families, node);
      f.pattern == Indexed("eth") && link < f.max && Exhausted(before, f, node)
    requires Distinct(GivenTo(before, families, node))
    ensures Gone(before, FamilyFor(families, node), node, Fallback(link))
  {
    DistinctIsExplained(before, families, node);
    SearchOn(before, families, node);
    assert Fallback(link) == Name(FamilyFor(families, node).pattern, link);
    UsedIffGone(before, families, node, Fallback(link));
  }

  /** In the families named eth, the fallback of an early link repeats a name of the family. */
  lemma EarlyFallbackCollides(wishes: seq<Wish>, families: map<string, string>, node: string, n: nat)
    requires n < |wishes| && wishes[n] == Wish(node, "")
    requires var f := FamilyFor(families, node);
      f.pattern == Indexed("eth") && n / 2 < f.max && Exhausted(wishes[..n], f, node)
    ensures !Distinct(GivenTo(wishes, families, node))
  {
    var f, before := FamilyFor(families, node), wishes[..n];
    NodeGetsDistinctNamesIff(wishes, families, node);
    NodeGetsDistinctNamesIff(before, families, node);
    if ClaimsAreFree(wishes, f, node) {
      ClaimsPrefix(wishes, f, node, n);
      EarlyFallbackIsGone(before, families, node, n / 2);
    }
  }

  // ----- reasonable wishes -----

  /** On the node, wishes with a name come before those without, and no name is wished twice. */
  ghost predicate Reasonable(wishes: seq<Wish>, node: string) {
    forall j, k ::
      0 <= j < k < |wishes| && wishes[j].node == node && wishes[k].node == node && wishes[k].iface != "" ==>
        wishes[j].iface != "" && wishes[j].iface != wishes[k].iface
  }

  lemma {:induction false} WishedOnMember(wishes: seq<Wish>, node: string, name: string)
    requires name in WishedOn(wishes, node)
    ensures exists j :: 0 <= j < |wishes| && wishes[j] == Wish(node, name) && name != ""
  {
    var before, w := wishes[..|wishes| - 1], wishes[|wishes| - 1];
    if w != Wish(node, name) || name == "" {
      WishedOnMember(before, node, name);
      var j :| 0 <= j < |before| && before[j] == Wish(node, name);
      assert wishes[j] == Wish(node, name);
    }
  }

  lemma {:induction false} EndpointsCounted(wishes: seq<Wish>, node: string)
    ensures SearchesOn(wishes, node) + |WishedOn(wishes, node)| == |Filter(wishes, AtNode(node))|
  {
    if wishes != [] {
      var before, w := wishes[..|wishes| - 1], wishes[|wishes| - 1];
      assert wishes == before + [w];
      AtNodeSnoc(before, w, node);
      EndpointsCounted(before, node);
    }
  }

  /** With at most as many endpoints as interfaces, no search on the node falls back. */
  lemma NeverExhausted(wishes: seq<Wish>, f: Family, node: string, n: nat)
    requires |Filter(wishes, AtNode(node))| <= f.max && n < |wishes| && wishes[n].node == node
    ensures !Exhausted(wishes[..n], f, node)
  {
    var before, wished := wishes[..n], WishedOn(wishes[..n], node);
    assert wishes == before + [wishes[n]] + wishes[n + 1..];
    AtNodeSnoc(before, wishes[n], node);
    FilterAppend(before + [wishes[n]], wishes[n + 1..], AtNode(node));
    EndpointsCounted(before, node);
    UsedSetSize(wished);
    SubsetSize(Below(f.pattern, wished, f.max), UsedSet(wished));
  }

  lemma ReasonableClaim(wishes: seq<Wish>, f: Family, node: string, n: nat)
    requires |Filter(wishes, AtNode(node))| <= f.max && Reasonable(wishes, node) && n < |wishes|
    ensures ClaimIsFree(wishes[..n], wishes[n], f, node)
  {
    if wishes[n].node == node {
      var before, name := wishes[..n], wishes[n].iface;
      assert forall m :: 0 <= m < n ==> before[m] == wishes[m];
      NeverExhausted(wishes, f, node, n);
      if name != "" {
        NothingSearched(wishes, f, node, n);
        if name in WishedOn(before, node) {
          WishedOnMember(before, node, name);
        }
      }
    }
  }

  lemma NothingSearched(wishes: seq<Wish>, f: Family, node: string, n: nat)
    requires Reasonable(wishes, node) && n < |wishes| && wishes[n].node == node && wishes[n].iface != ""
    ensures forall k: nat :: !SearchReaches(wishes[..n], f.pattern, node, k)
    ensures forall name :: !FellBackTo(wishes[..n], f, node, name)
  {
    assert forall m :: 0 <= m < n ==> wishes[..n][m] == wishes[m] && wishes[m] != Wish(node, "");
  }

  /** In particular, reasonable wishes get pairwise different names. */
  lemma NodeGetsDistinctNames(wishes: seq<Wish>, families: map<string, string>, node: string)
    requires |Filter(wishes, AtNode(node))| <= FamilyFor(families, node).max
    requires Reasonable(wishes, node)
    ensures Distinct(GivenTo(wishes, families, node))
  {
    var f := FamilyFor(families, node);
    forall n | 0 <= n < |wishes| ensures ClaimIsFree(wishes[..n], wishes[n], f, node) {
      ReasonableClaim(wishes, f, node, n);
    }
    NodeGetsDistinctNamesIff(wishes, families, node);
  }

  // ----- where the promise ends -----

  /** The failing input: a name wished after the search has given it away is used twice. */
  lemma WishAfterSearchCollides()
    ensures var wishes := [Wish("a", ""), Wish("b", ""), Wish("a", "eth0"), Wish("b", "")];
      Served(wishes, map[])[0] == Served(wishes, map[])[2]
  {
    var wishes := [Wish("a", ""), Wish("b", ""), Wish("a", "eth0"), Wish("b", "")];
    var w1, w2, w3 := wishes[..1], wishes[..2], wishes[..3];
    assert w1 == [Wish("a", "")] && w1[..0] == [];
    assert w2[..1] == w1 && w3[..2] == w2 && wishes[..3] == w3;
    assert Served(w1, map[]) == [Name(Indexed("eth"), 0)];
    assert Name(Indexed("eth"), 0) == "eth0";
    assert Served(wishes, map[])[..3] == Served(w3, map[]);
  }

  lemma {:induction false} ZerosAreZero(s: string)
    requires forall i :: 0 <= i < |s| ==> s[i] == '0'
    ensures D.Value(s) == 0
  {
    if s != "" {
      ZerosAreZero(s[..|s| - 1]);
    }
  }

  /** The search starts at index 0 also for families whose interfaces start at 1: for them the
      validator refuses an assigned name exactly when nothing used index 0 before. */
  lemma AssignedIsRefusedIff(link: nat, used: seq<string>)
    ensures V.SrlIndexBelowOne(Assigned(FamilyOf("srl"), link, used)) <==> "ethernet-1/0" !in used
  {
    var f := FamilyOf("srl");
    var k := FreeIndex(f, used, 0);
    assert Name(f.pattern, 0) == "ethernet-1/0";
    if k < f.max {
      SrlNameIsRefusedIff(k);
    } else {
      assert Name(f.pattern, 0) in used;
      assert ("eth" + D.Dec(link))[3] != 'e' && V.SRL_PREFIX[3] == 'e';
    }
  }

  lemma IsZeroIff(k: nat)
    ensures V.IsZero(D.Dec(k)) <==> k == 0
    ensures V.AllDigits(D.Dec(k))
  {
    var digits := D.Dec(k);
    assert forall c :: c in digits ==> D.IsDigit(c);
    if V.IsZero(digits) {
      assert forall i :: 0 <= i < |digits| ==> digits[i] in digits;
      ZerosAreZero(digits);
      D.ReadsBack(k);
    }
  }

  lemma SrlNameIsRefusedIff(k: nat)
    ensures V.SrlIndexBelowOne("ethernet-1/" + D.Dec(k)) <==> k == 0
  {
    var name, digits := "ethernet-1/" + D.Dec(k), D.Dec(k);
    var rest := name[|V.SRL_PREFIX|..];
    IsZeroIff(k);
    assert rest == "1" + ['/'] + digits;
    V.FindSkips("1", '/', digits);
    assert rest[..1] == "1" && rest[2..] == digits;
    assert "1"[0] in "1" && V.SRL_PREFIX <= name;
  }

  // ----- the names offered to the user -----

  function Offered(f: Family, i: nat): string {
    if f.pattern.Slotted? then Name(f.pattern, i) else Name(f.pattern, i + f.start)
  }

  lemma OfferedIsInjective(f: Family, i: nat, j: nat)
    ensures Offered(f, i) == Offered(f, j) <==> i == j
  {
    var start := if f.pattern.Slotted? then 0 else f.start;
    if Offered(f, i) == Offered(f, j) {
      NamesAreInjective(f.pattern, i + start, j + start);
    }
  }

  /** `get_interfaces_for_family` of a known family: as many names as asked and available, all different. */
  method InterfacesOf(f: Family, asked: nat) returns (names: seq<string>)
    ensures |names| == if asked <= f.max then asked else f.max
    ensures forall i :: 0 <= i < |names| ==> names[i] == Offered(f, i)
    ensures Distinct(names)
  {
    names := [];
    var count := if asked <= f.max then asked else f.max;
    for i := 0 to count
      invariant |names| == i
      invariant forall k :: 0 <= k < i ==> names[k] == Offered(f, k)
      invariant Distinct(names)
    {
      var name := if f.pattern.Slotted? then Name(f.pattern, i) else Name(f.pattern, i + f.start);
      forall k: nat | k < i ensures names[k] != name {
        OfferedIsInjective(f, k, i);
      }
      DistinctSnoc(names, name);
      names := names + [name];
    }
  }

  /** The interfaces offered for SR Linux are never refused by the validator. */
  lemma OfferedIsNotRefused(i: nat)
    ensures !V.SrlIndexBelowOne(Offered(FamilyOf("srl"), i))
  {
    SrlNameIsRefusedIff(i + 1);
  }

  // ----- passthrough links -----

  datatype Passthrough = NotALink | Link(endpoints: seq<string>)

  function NonEmpty(): string -> bool {
    (s: string) => s != ""
  }

  /** The passthrough links that are inserted, with their empty endpoints dropped. */
  function Inserted(passthrough: seq<Passthrough>): seq<seq<string>> {
    if passthrough == [] then []
    else
      var p, earlier := passthrough[|passthrough| - 1], Inserted(passthrough[..|passthrough| - 1]);
      if p.Link? && |Filter(p.endpoints, NonEmpty())| >= 2 then earlier + [Filter(p.endpoints, NonEmpty())] else earlier
  }

  /** Passthrough links land, in their order, as one block right behind the imported links; nothing
      else moves. */
  method InsertPassthrough(links: seq<seq<string>>, passthrough: seq<Passthrough>, imported: nat)
    returns (out: seq<seq<string>>)
    ensures var k := if imported <= |links| then imported else |links|;
      out == links[..k] + Inserted(passthrough) + links[k..]
  {
    out := links;
    var count := imported;
    ghost var k := if imported <= |links| then imported else |links|;
    assert links == links[..k] + [] + links[k..];
    for i := 0 to |passthrough|
      invariant count == imported + |Inserted(passthrough[..i])|
      invariant out == links[..k] + Inserted(passthrough[..i]) + links[k..]
    {
      assert passthrough[..i + 1][..i] == passthrough[..i];
      if passthrough[i].Link? {
        var eps := Filter(passthrough[i].endpoints, NonEmpty());
        if |eps| >= 2 {
          var at := if count <= |out| then count else |out|;
          ghost var block := Inserted(passthrough[..i]);
          assert at == k + |block|;
          assert out[..at] == links[..k] + block && out[at..] == links[k..];
          out := out[..at] + [eps] + out[at..];
          count := count + 1;
        }
      }
    }
    assert passthrough[..|passthrough|] == passthrough;
  }

  /** Each passthrough link with two ends or more is inserted with these ends, in order; others are not. */
  lemma {:induction false} InsertedIs(a: seq<Passthrough>, p: Passthrough, b: seq<Passthrough>)
    ensures Inserted(a + [p] + b) ==
      Inserted(a) + (if p.Link? && |Filter(p.endpoints, (s: string) => s != "")| >= 2
                     then [Filter(p.endpoints, (s: string) => s != "")] else []) + Inserted(b)
  {
    if b == [] {
      assert a + [p] + b == a + [p];
      assert (a + [p])[..|a|] == a;
      if p.Link? {
        SameFilter(p.endpoints, NonEmpty(), (s: string) => s != "");
      }
    } else {
      var all, init := a + [p] + b, b[..|b| - 1];
      assert all[..|all| - 1] == a + [p] + init && all[|all| - 1] == b[|b| - 1];
      InsertedIs(a, p, init);
    }
  }

  lemma {:induction false} SameFilter(s: seq<string>, p: string -> bool, q: string -> bool)
    requires forall x :: p(x) <==> q(x)
    ensures Filter(s, p) == Filter(s, q)
  {
    if s != [] {
      SameFilter(s[1..], p, q);
    }
  }
}
