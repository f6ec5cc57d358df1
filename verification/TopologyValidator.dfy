/** The one-pass validator of sandbox topologies, on parsed YAML: management networks, node
    addressing and link wiring. It is proved sound and complete for a declarative description of
    acceptable topologies. */
module TopologyValidator {
  import opened Sequences
  import opened Cidr

  // ----- strings -----

  predicate IsSpace(c: char) {
    c == ' ' || ('\t' <= c <= '\r')
  }

  function StripLeft(s: string): string {
    if s != "" && IsSpace(s[0]) then StripLeft(s[1..]) else s
  }

  function StripRight(s: string): string {
    if s != "" && IsSpace(s[|s| - 1]) then StripRight(s[..|s| - 1]) else s
  }

  function Strip(s: string): string {
    StripRight(StripLeft(s))
  }

  function Lower(s: string): string {
    if s == "" then ""
    else [if 'A' <= s[0] <= 'Z' then (s[0] as int + 32) as char else s[0]] + Lower(s[1..])
  }

  /** Position of the first `c`, or the length. */
  function Find(s: string, c: char): (i: nat)
    ensures i <= |s|
    ensures c !in s[..i]
    ensures i < |s| ==> s[i] == c
  {
    if s == "" || s[0] == c then 0 else 1 + Find(s[1..], c)
  }

  predicate IsLetter(c: char) { 'a' <= c <= 'z' || 'A' <= c <= 'Z' }

  predicate IsDigit(c: char) { '0' <= c <= '9' }

  predicate ValidKind(kind: string) {
    kind != "" && forall c :: c in kind ==> 'a' <= c <= 'z' || IsDigit(c) || c == '_' || c == '-'
  }

  predicate ValidInterface(iface: string) {
    iface != "" && IsLetter(iface[0]) &&
    forall c :: c in iface[1..] ==>
      IsLetter(c) || IsDigit(c) || c == '.' || c == '_' || c == '/' || c == ':' || c == '-'
  }

  /** A decimal index whose value is below one. */
  predicate IsZero(digits: string) {
    digits != "" && forall c :: c in digits ==> c == '0'
  }

  predicate AllDigits(digits: string) {
    digits != "" && forall c :: c in digits ==> IsDigit(c)
  }

  const SRL_KINDS: set<string> := {"nokia_srlinux", "srlinux", "sr-linux", "srl"}
  const SRL_PREFIX: string := "ethernet-"
  const BRIDGE_KINDS: set<string> := {"bridge", "ovs-bridge", "ovs_bridge"}

  /** `ethernet-<card>/<port>` with a card or port index below one. */
  predicate SrlIndexBelowOne(iface: string) {
    SRL_PREFIX <= iface &&
    var rest := iface[|SRL_PREFIX|..];
    var slash := Find(rest, '/');
    slash < |rest| && AllDigits(rest[..slash]) && AllDigits(rest[slash + 1..]) &&
    (IsZero(rest[..slash]) || IsZero(rest[slash + 1..]))
  }

  // ----- the parsed document -----

  datatype SubnetField = NoSubnet | BadSubnet | SubnetV6 | SubnetV4(net: Net)

  datatype AddressField = NoAddress | BadAddress | AddressV6 | AddressV4(address: nat)

  /** The kind is stripped and lower-cased. */
  datatype NodeData = NotAMapping | Node(kind: string, address: AddressField)

  /** A YAML key need not be a string. */
  datatype NodeEntry = NodeEntry(name: Option<string>, data: NodeData)

  datatype Endpoint = NotText | Text(s: string)

  datatype Link = NotALink | Link(endpoints: seq<Endpoint>)

  datatype Document = Document(
    hasMgmt: bool,
    subnet: SubnetField,
    nodes: seq<NodeEntry>,
    links: Option<seq<Link>>)

  datatype Error =
    | VmSubnetNotV4
    | VmSubnetInvalid
    | MgmtMissing
    | SubnetMissing
    | SubnetInvalid
    | SubnetNotV4
    | SubnetNot24
    | SubnetOutsideVm
    | NodesMissing
    | NodeNameInvalid
    | NodeNotAMapping(node: string)
    | KindMissing(node: string)
    | KindInvalid(node: string)
    | AddressMissing(node: string)
    | AddressInvalid(node: string)
    | AddressNotV4(node: string)
    | AddressUsedTwice(address: nat, first: string, second: string)
    | AddressOutsideSubnet(node: string)
    | AddressOutsideVm(node: string)
    | LinksNotAList
    | LinkInvalid(index: nat)
    | EndpointInvalid(index: nat)
    | NodeUndeclared(index: nat, node: string)
    | InterfaceInvalid(index: nat, iface: string)
    | SrlIndexInvalid(index: nat, iface: string)
    | InterfaceUsedTwice(index: nat, node: string, iface: string)
    | InterfaceExpected(index: nat)

  // ----- management networks -----

  function NetOf(f: SubnetField): Option<Net> {
    if f.SubnetV4? then Some(f.net) else None
  }

  /** What the network parser guarantees. */
  ghost predicate NetsParsed(doc: Document, vm: SubnetField) {
    (doc.subnet.SubnetV4? ==> doc.subnet.net.prefix <= 32) && (vm.SubnetV4? ==> vm.net.prefix <= 32)
  }

  ghost predicate InNet(net: Net, address: nat) {
    net.prefix <= 32 && net.Contains(address)
  }

  /** Every address of `net` is an address of `vmNet`. */
  ghost predicate Inside(net: Net, vmNet: Net) {
    forall a :: InNet(net, a) ==> InNet(vmNet, a)
  }

  ghost predicate SubnetsOk(doc: Document, vm: SubnetField) {
    && (vm.NoSubnet? || vm.SubnetV4?)
    && doc.hasMgmt && doc.subnet.SubnetV4? && doc.subnet.net.prefix == 24
    && (vm.SubnetV4? ==> Inside(doc.subnet.net, vm.net))
  }

  lemma InsideIsSubnetOf(net: Net, vmNet: Net)
    requires net.prefix <= 32 && vmNet.prefix <= 32
    ensures net.SubnetOf(vmNet) <==> Inside(net, vmNet)
  {
    SubnetIffContained(net, vmNet);
    if Inside(net, vmNet) {
      forall a | net.Contains(a) ensures vmNet.Contains(a) {
        assert InNet(net, a);
      }
    }
  }

  method ValidateSubnets(doc: Document, vm: SubnetField) returns (errors: seq<Error>, mgmtNet: Option<Net>)
    requires NetsParsed(doc, vm)
    ensures errors == [] <==> SubnetsOk(doc, vm)
    ensures mgmtNet == if doc.hasMgmt then NetOf(doc.subnet) else None
  {
    errors, mgmtNet := [], None;
    match vm {
      case NoSubnet =>
      case BadSubnet => errors := errors + [VmSubnetInvalid];
      case SubnetV6 => errors := errors + [VmSubnetNotV4];
      case SubnetV4(net) =>
    }
    if !doc.hasMgmt {
      errors := errors + [MgmtMissing];
      return;
    }
    match doc.subnet {
      case NoSubnet => errors := errors + [SubnetMissing];
      case BadSubnet => errors := errors + [SubnetInvalid];
      case SubnetV6 => errors := errors + [SubnetNotV4];
      case SubnetV4(net) =>
        mgmtNet := Some(net);
        if vm.SubnetV4? {
          InsideIsSubnetOf(net, vm.net);
        }
        if net.prefix != 24 {
          errors := errors + [SubnetNot24];
        } else if vm.SubnetV4? && !net.SubnetOf(vm.net) {
          errors := errors + [SubnetOutsideVm];
        }
    }
  }

  // ----- nodes -----

  predicate Named(e: NodeEntry) {
    e.name.Some? && Strip(e.name.value) != ""
  }

  predicate Addressed(e: NodeEntry) {
    Named(e) && e.data.Node? && e.data.kind !in BRIDGE_KINDS
  }

  predicate HasAddress(e: NodeEntry) {
    Addressed(e) && e.data.address.AddressV4?
  }

  predicate InsideIfGiven(net: Option<Net>, address: nat) {
    net.Some? ==> net.value.prefix <= 32 && net.value.Contains(address)
  }

  /** A single entry is acceptable by itself. */
  predicate EntryOk(e: NodeEntry, mgmtNet: Option<Net>, vmNet: Option<Net>) {
    && Named(e) && e.data.Node? && ValidKind(e.data.kind)
    && (Addressed(e) ==>
          && e.data.address.AddressV4?
          && InsideIfGiven(mgmtNet, e.data.address.address)
          && InsideIfGiven(vmNet, e.data.address.address))
  }

  ghost predicate AddressesDistinct(nodes: seq<NodeEntry>) {
    forall i, j :: 0 <= i < j < |nodes| && HasAddress(nodes[i]) && HasAddress(nodes[j]) ==>
      nodes[i].data.address.address != nodes[j].data.address.address
  }

  /** Every entry is acceptable and the addresses of non-bridge nodes are pairwise distinct. */
  ghost predicate NodesOk(nodes: seq<NodeEntry>, mgmtNet: Option<Net>, vmNet: Option<Net>) {
    (forall e :: e in nodes ==> EntryOk(e, mgmtNet, vmNet)) && AddressesDistinct(nodes)
  }

  ghost function KindsOf(nodes: seq<NodeEntry>): map<string, string> {
    if nodes == [] then map[]
    else
      var before, e := KindsOf(nodes[..|nodes| - 1]), nodes[|nodes| - 1];
      if Named(e) && e.data.Node? && e.data.kind != "" then before[e.name.value := e.data.kind] else before
  }

  /** The checks on one entry, apart from the duplicate check. */
  method ValidateEntry(e: NodeEntry, mgmtNet: Option<Net>, vmNet: Option<Net>) returns (errors: seq<Error>)
    requires mgmtNet.Some? ==> mgmtNet.value.prefix <= 32
    requires vmNet.Some? ==> vmNet.value.prefix <= 32
    ensures errors == [] <==> EntryOk(e, mgmtNet, vmNet)
  {
    if !Named(e) {
      return [NodeNameInvalid];
    }
    var name := e.name.value;
    if e.data.NotAMapping? {
      return [NodeNotAMapping(name)];
    }
    errors := [];
    if e.data.kind == "" {
      errors := errors + [KindMissing(name)];
    } else if !ValidKind(e.data.kind) {
      errors := errors + [KindInvalid(name)];
    }
    if e.data.kind in BRIDGE_KINDS {
      return;
    }
    match e.data.address
    case NoAddress => errors := errors + [AddressMissing(name)];
    case BadAddress => errors := errors + [AddressInvalid(name)];
    case AddressV6 => errors := errors + [AddressNotV4(name)];
    case AddressV4(address) =>
      if mgmtNet.Some? && !mgmtNet.value.Contains(address) {
        errors := errors + [AddressOutsideSubnet(name)];
      }
      if vmNet.Some? && !vmNet.value.Contains(address) {
        errors := errors + [AddressOutsideVm(name)];
      }
  }

  /** The dictionary from addresses to nodes holds exactly the addresses seen so far. */
  ghost predicate Remembers(ipToNode: map<nat, string>, nodes: seq<NodeEntry>) {
    forall a :: a in ipToNode <==> AddressTaken(nodes, a)
  }

  /** The duplicate check on one entry. */
  method RememberAddress(e: NodeEntry, before: map<nat, string>, ghost seen: seq<NodeEntry>)
    returns (errors: seq<Error>, ipToNode: map<nat, string>)
    requires Remembers(before, seen)
    ensures errors == [] <==> (HasAddress(e) ==> !AddressTaken(seen, e.data.address.address))
    ensures Remembers(ipToNode, seen + [e])
  {
    TakenSnoc(seen, e);
    errors, ipToNode := [], before;
    if HasAddress(e) {
      var address := e.data.address.address;
      if address in ipToNode {
        errors := [AddressUsedTwice(address, ipToNode[address], e.name.value)];
      } else {
        ipToNode := ipToNode[address := e.name.value];
      }
    }
  }

  /** All checks on one node, after the nodes `seen`. */
  method ValidateNode(e: NodeEntry, mgmtNet: Option<Net>, vmNet: Option<Net>, before: map<nat, string>,
                      ghost seen: seq<NodeEntry>)
    returns (errors: seq<Error>, ipToNode: map<nat, string>)
    requires mgmtNet.Some? ==> mgmtNet.value.prefix <= 32
    requires vmNet.Some? ==> vmNet.value.prefix <= 32
    requires Remembers(before, seen)
    ensures NodesOk(seen + [e], mgmtNet, vmNet) <==> NodesOk(seen, mgmtNet, vmNet) && errors == []
    ensures Remembers(ipToNode, seen + [e])
  {
    var duplicate;
    errors := ValidateEntry(e, mgmtNet, vmNet);
    duplicate, ipToNode := RememberAddress(e, before, seen);
    errors := errors + duplicate;
    NodesOkSnoc(seen + [e], |seen|, mgmtNet, vmNet);
    assert (seen + [e])[..|seen| + 1] == seen + [e] && (seen + [e])[..|seen|] == seen;
  }

  method ValidateNodes(nodes: seq<NodeEntry>, mgmtNet: Option<Net>, vmNet: Option<Net>)
    returns (errors: seq<Error>, kinds: map<string, string>)
    requires mgmtNet.Some? ==> mgmtNet.value.prefix <= 32
    requires vmNet.Some? ==> vmNet.value.prefix <= 32
    ensures errors == [] <==> NodesOk(nodes, mgmtNet, vmNet)
    ensures kinds == KindsOf(nodes)
  {
    errors, kinds := [], map[];
    var ipToNode: map<nat, string> := map[];
    for i := 0 to |nodes|
      invariant errors == [] <==> NodesOk(nodes[..i], mgmtNet, vmNet)
      invariant kinds == KindsOf(nodes[..i])
      invariant Remembers(ipToNode, nodes[..i])
    {
      var e := nodes[i];
      var own;
      KindsSnoc(nodes, i);
      assert nodes[..i + 1] == nodes[..i] + [e];
      own, ipToNode := ValidateNode(e, mgmtNet, vmNet, ipToNode, nodes[..i]);
      errors := errors + own;
      if Named(e) && e.data.Node? && e.data.kind != "" {
        kinds := kinds[e.name.value := e.data.kind];
      }
    }
    assert nodes[..|nodes|] == nodes;
  }

  lemma NodesOkSnoc(nodes: seq<NodeEntry>, i: nat, mgmtNet: Option<Net>, vmNet: Option<Net>)
    requires i < |nodes|
    ensures NodesOk(nodes[..i + 1], mgmtNet, vmNet) <==>
            && NodesOk(nodes[..i], mgmtNet, vmNet) && EntryOk(nodes[i], mgmtNet, vmNet)
            && (HasAddress(nodes[i]) ==> !AddressTaken(nodes[..i], nodes[i].data.address.address))
  {
  }

  ghost predicate AddressTaken(nodes: seq<NodeEntry>, address: nat) {
    exists e :: e in nodes && HasAddress(e) && e.data.address.address == address
  }

  lemma TakenSnoc(nodes: seq<NodeEntry>, e: NodeEntry)
    ensures forall a :: AddressTaken(nodes + [e], a) <==>
      AddressTaken(nodes, a) || (HasAddress(e) && e.data.address.address == a)
  {
  }

  lemma KindsSnoc(nodes: seq<NodeEntry>, i: nat)
    requires i < |nodes|
    ensures KindsOf(nodes[..i + 1]) ==
      if Named(nodes[i]) && nodes[i].data.Node? && nodes[i].data.kind != ""
      then KindsOf(nodes[..i])[nodes[i].name.value := nodes[i].data.kind] else KindsOf(nodes[..i])
  {
    assert nodes[..i + 1][..i] == nodes[..i];
  }

  // ----- links -----

  /** An endpoint text split at its first colon; without a colon there is no interface. */
  function NodeOf(text: string): string {
    var t := Strip(text);
    var colon := Find(t, ':');
    if colon < |t| then Strip(t[..colon]) else t
  }

  function InterfaceOf(text: string): Option<string> {
    var t := Strip(text);
    var colon := Find(t, ':');
    if colon < |t| then Some(Strip(t[colon + 1..])) else None
  }

  predicate IsHost(node: string) {
    Lower(node) == "host"
  }

  /** An endpoint is acceptable by itself: `node:interface` of a declared node or of the host, or
      the host without an interface. */
  ghost predicate EndpointOk(ep: Endpoint, names: set<string>, kinds: map<string, string>) {
    ep.Text? && Strip(ep.s) != "" &&
    var node, iface := NodeOf(ep.s), InterfaceOf(ep.s);
    && (node in names || IsHost(node))
    && (iface.None? ==> IsHost(node))
    && (iface.Some? ==> ValidInterface(iface.value))
    && (iface.Some? && node in names && node in kinds && kinds[node] in SRL_KINDS ==> !SrlIndexBelowOne(iface.value))
  }

  /** The interface of a declared node that an endpoint uses up. */
  function UseOf(ep: Endpoint, names: set<string>): Option<(string, string)> {
    if ep.Text? && Strip(ep.s) != "" && NodeOf(ep.s) in names && InterfaceOf(ep.s).Some?
    then Some((NodeOf(ep.s), InterfaceOf(ep.s).value))
    else None
  }

  ghost function EndpointsOf(links: seq<Link>): seq<Endpoint> {
    if links == [] then []
    else
      var l := links[|links| - 1];
      if HasTwoEnds(l) then EndpointsOf(links[..|links| - 1]) + l.endpoints else EndpointsOf(links[..|links| - 1])
  }

  ghost predicate UsesDistinct(eps: seq<Endpoint>, names: set<string>) {
    forall i, j :: 0 <= i < j < |eps| && UseOf(eps[i], names).Some? ==> UseOf(eps[i], names) != UseOf(eps[j], names)
  }

  ghost predicate EndpointsOk(eps: seq<Endpoint>, names: set<string>, kinds: map<string, string>) {
    (forall ep :: ep in eps ==> EndpointOk(ep, names, kinds)) && UsesDistinct(eps, names)
  }

  predicate HasTwoEnds(l: Link) {
    l.Link? && |l.endpoints| == 2
  }

  ghost predicate LinksOk(links: seq<Link>, names: set<string>, kinds: map<string, string>) {
    && (forall l :: l in links ==> HasTwoEnds(l))
    && EndpointsOk(EndpointsOf(links), names, kinds)
  }

  /** The dictionary key of a used interface. */
  function UseKey(node: string, iface: string): string {
    node + ":" + iface
  }

  lemma {:induction false} FindSkips(front: string, c: char, rest: string)
    requires c !in front
    ensures Find(front + [c] + rest, c) == |front|
  {
    if front == "" {
      assert ("" + [c] + rest)[0] == c;
    } else {
      FindSkips(front[1..], c, rest);
      assert (front + [c] + rest)[0] == front[0];
      assert (front + [c] + rest)[1..] == front[1..] + [c] + rest;
    }
  }

  lemma KeysTellUsesApart(node: string, iface: string, node': string, iface': string)
    requires ':' !in node && ':' !in node'
    ensures UseKey(node, iface) == UseKey(node', iface') <==> node == node' && iface == iface'
  {
    var key, key' := UseKey(node, iface), UseKey(node', iface');
    FindSkips(node, ':', iface);
    FindSkips(node', ':', iface');
    assert key[..|node|] == node && key'[..|node'|] == node';
    assert key[|node| + 1..] == iface && key'[|node'| + 1..] == iface';
  }

  lemma {:induction false} StripKeepsOut(s: string, c: char)
    requires c !in s
    ensures c !in StripLeft(s) && c !in StripRight(s)
    decreases |s|
  {
    if s != "" {
      StripKeepsOut(s[1..], c);
      StripKeepsOut(s[..|s| - 1], c);
    }
  }

  lemma NodeHasNoColon(text: string)
    ensures ':' !in NodeOf(text)
  {
    var t := Strip(text);
    var colon := Find(t, ':');
    StripKeepsOut(t[..colon], ':');
    StripKeepsOut(StripLeft(t[..colon]), ':');
    assert t[..|t|] == t;
  }

  /** The checks on one endpoint, apart from the duplicate check. */
  method ValidateEndpoint(index: nat, ep: Endpoint, names: set<string>, kinds: map<string, string>)
    returns (errors: seq<Error>)
    ensures errors == [] <==> EndpointOk(ep, names, kinds)
  {
    if ep.NotText? || Strip(ep.s) == "" {
      return [EndpointInvalid(index)];
    }
    errors := [];
    var node, iface := NodeOf(ep.s), InterfaceOf(ep.s);
    if node !in names && !IsHost(node) {
      errors := errors + [NodeUndeclared(index, node)];
    }
    if iface.Some? {
      if !ValidInterface(iface.value) {
        errors := errors + [InterfaceInvalid(index, iface.value)];
      }
      if node in names && node in kinds && kinds[node] in SRL_KINDS && SrlIndexBelowOne(iface.value) {
        errors := errors + [SrlIndexInvalid(index, iface.value)];
      }
    } else if !IsHost(node) {
      errors := errors + [InterfaceExpected(index)];
    }
  }

  /** The inner loop: the endpoints of one link, after those `seen` in earlier links. */
  method ValidateEndpoints(index: nat, endpoints: seq<Endpoint>, names: set<string>, kinds: map<string, string>,
                           before: map<string, nat>, ghost seen: seq<Endpoint>)
    returns (errors: seq<Error>, used: map<string, nat>)
    requires UsedKeys(before, seen, names)
    ensures EndpointsOk(seen + endpoints, names, kinds) <==> EndpointsOk(seen, names, kinds) && errors == []
    ensures UsedKeys(used, seen + endpoints, names)
  {
    errors, used := [], before;
    assert seen + endpoints[..0] == seen;
    for k := 0 to |endpoints|
      invariant EndpointsOk(seen + endpoints[..k], names, kinds) <==> EndpointsOk(seen, names, kinds) && errors == []
      invariant UsedKeys(used, seen + endpoints[..k], names)
    {
      var ep := endpoints[k];
      ghost var done := seen + endpoints[..k];
      assert seen + endpoints[..k + 1] == done + [ep];
      var own := ValidateEndpoint(index, ep, names, kinds);
      errors := errors + own;
      EndpointsSnoc(done, ep, names, kinds);
      UsedKeysSnoc(used, done, ep, names, index);
      var use := UseOf(ep, names);
      if use.Some? {
        var key := UseKey(use.value.0, use.value.1);
        if key in used {
          errors := errors + [InterfaceUsedTwice(index, use.value.0, use.value.1)];
        } else {
          used := used[key := index];
        }
      }
    }
    assert endpoints[..|endpoints|] == endpoints;
  }

  method ValidateLinks(links: seq<Link>, names: set<string>, kinds: map<string, string>) returns (errors: seq<Error>)
    ensures errors == [] <==> LinksOk(links, names, kinds)
  {
    errors := [];
    var used: map<string, nat> := map[];
    for i := 0 to |links|
      invariant errors == [] <==> LinksOk(links[..i], names, kinds)
      invariant UsedKeys(used, EndpointsOf(links[..i]), names)
    {
      var link := links[i];
      LinksSnoc(links, i);
      if link.NotALink? || |link.endpoints| != 2 {
        errors := errors + [LinkInvalid(i + 1)];
      } else {
        var own;
        own, used := ValidateEndpoints(i + 1, link.endpoints, names, kinds, used, EndpointsOf(links[..i]));
        errors := errors + own;
      }
    }
    assert links[..|links|] == links;
  }

  /** The dictionary of used interfaces has exactly the keys of the endpoints seen. */
  ghost predicate UsedKeys(used: map<string, nat>, eps: seq<Endpoint>, names: set<string>) {
    forall key :: key in used <==> exists i: nat :: Uses(eps, i, key, names)
  }

  function Record(used: map<string, nat>, ep: Endpoint, names: set<string>, index: nat): map<string, nat> {
    var use := UseOf(ep, names);
    if use.None? || UseKey(use.value.0, use.value.1) in used then used
    else used[UseKey(use.value.0, use.value.1) := index]
  }

  ghost predicate Uses(eps: seq<Endpoint>, i: nat, key: string, names: set<string>) {
    i < |eps| && UseOf(eps[i], names).Some? && key == UseKey(UseOf(eps[i], names).value.0, UseOf(eps[i], names).value.1)
  }

  lemma SameKeySameUse(ep: Endpoint, ep': Endpoint, names: set<string>)
    requires UseOf(ep, names).Some? && UseOf(ep', names).Some?
    ensures var use, use' := UseOf(ep, names).value, UseOf(ep', names).value;
      UseKey(use.0, use.1) == UseKey(use'.0, use'.1) <==> use == use'
  {
    var use, use' := UseOf(ep, names).value, UseOf(ep', names).value;
    NodeHasNoColon(ep.s);
    NodeHasNoColon(ep'.s);
    KeysTellUsesApart(use.0, use.1, use'.0, use'.1);
  }

  lemma UsedKeysSnoc(used: map<string, nat>, eps: seq<Endpoint>, ep: Endpoint, names: set<string>, index: nat)
    requires UsedKeys(used, eps, names)
    ensures UseOf(ep, names).Some? ==>
      (UseKey(UseOf(ep, names).value.0, UseOf(ep, names).value.1) in used <==> UsedBefore(eps, ep, names))
    ensures UsedKeys(Record(used, ep, names, index), eps + [ep], names)
  {
    var longer := eps + [ep];
    if UseOf(ep, names).Some? {
      forall i: nat | i < |eps| && UseOf(eps[i], names).Some?
        ensures Uses(eps, i, UseKey(UseOf(ep, names).value.0, UseOf(ep, names).value.1), names) <==>
          UseOf(eps[i], names) == UseOf(ep, names)
      {
        SameKeySameUse(eps[i], ep, names);
      }
      assert Uses(longer, |eps|, UseKey(UseOf(ep, names).value.0, UseOf(ep, names).value.1), names);
    }
    forall key ensures key in Record(used, ep, names, index) <==> exists i: nat :: Uses(longer, i, key, names) {
      if key in used {
        var i: nat :| Uses(eps, i, key, names);
        assert Uses(longer, i, key, names);
      }
      if i: nat :| Uses(longer, i, key, names) && i < |eps| {
        assert Uses(eps, i, key, names);
      }
    }
  }

  lemma LinksSnoc(links: seq<Link>, i: nat)
    requires i < |links|
    ensures (forall l :: l in links[..i + 1] ==> HasTwoEnds(l)) <==>
      (forall l :: l in links[..i] ==> HasTwoEnds(l)) && HasTwoEnds(links[i])
    ensures EndpointsOf(links[..i + 1]) ==
      if HasTwoEnds(links[i]) then EndpointsOf(links[..i]) + links[i].endpoints else EndpointsOf(links[..i])
  {
    assert links[..i + 1] == links[..i] + [links[i]];
    assert links[..i + 1][..i] == links[..i];
    assert forall l :: l in links[..i + 1] <==> l in links[..i] || l == links[i];
  }

  ghost predicate UsedBefore(eps: seq<Endpoint>, ep: Endpoint, names: set<string>) {
    exists i :: 0 <= i < |eps| && UseOf(eps[i], names) == UseOf(ep, names)
  }

  lemma EndpointsSnoc(eps: seq<Endpoint>, ep: Endpoint, names: set<string>, kinds: map<string, string>)
    ensures EndpointsOk(eps + [ep], names, kinds) <==>
            && EndpointsOk(eps, names, kinds) && EndpointOk(ep, names, kinds)
            && (UseOf(ep, names).Some? ==> !UsedBefore(eps, ep, names))
  {
    var longer := eps + [ep];
    assert forall x :: x in longer <==> x in eps || x == ep;
    if UsesDistinct(longer, names) {
      forall i, j | 0 <= i < j < |eps| && UseOf(eps[i], names).Some?
        ensures UseOf(eps[i], names) != UseOf(eps[j], names)
      {
        assert longer[i] == eps[i] && longer[j] == eps[j];
      }
      forall i | 0 <= i < |eps| && UseOf(ep, names).Some? ensures UseOf(eps[i], names) != UseOf(ep, names) {
        assert longer[i] == eps[i] && longer[|eps|] == ep;
      }
    }
  }

  // ----- the whole document -----

  /** The declared node names, as `set(nodes.keys())`, of which endpoints can only meet strings. */
  function NamesOf(nodes: seq<NodeEntry>): set<string> {
    set e | e in nodes && e.name.Some? :: e.name.value
  }

  ghost predicate Acceptable(doc: Document, vm: SubnetField) {
    && doc.nodes != []
    && SubnetsOk(doc, vm)
    && NodesOk(doc.nodes, if doc.hasMgmt then NetOf(doc.subnet) else None, NetOf(vm))
    && doc.links.Some? && LinksOk(doc.links.value, NamesOf(doc.nodes), KindsOf(doc.nodes))
  }

  /** Sound and complete: no error exactly for acceptable documents. */
  method Validate(doc: Document, vm: SubnetField) returns (errors: seq<Error>)
    requires NetsParsed(doc, vm)
    ensures errors == [] <==> Acceptable(doc, vm)
  {
    if doc.nodes == [] {
      return [NodesMissing];
    }
    var subnetErrors, mgmtNet := ValidateSubnets(doc, vm);
    var nodeErrors, kinds := ValidateNodes(doc.nodes, mgmtNet, NetOf(vm));
    errors := subnetErrors + nodeErrors;
    var links := [];
    if doc.links.Some? {
      links := doc.links.value;
    } else {
      errors := errors + [LinksNotAList];
    }
    var linkErrors := ValidateLinks(links, NamesOf(doc.nodes), kinds);
    errors := errors + linkErrors;
  }

  // ----- a consequence -----

  ghost function AddressSet(nodes: seq<NodeEntry>): set<nat> {
    set e | e in nodes && HasAddress(e) :: e.data.address.address
  }

  ghost function AddressedCount(nodes: seq<NodeEntry>): nat {
    if nodes == [] then 0
    else AddressedCount(nodes[..|nodes| - 1]) + if Addressed(nodes[|nodes| - 1]) then 1 else 0
  }

  lemma AddressSetSnoc(nodes: seq<NodeEntry>, e: NodeEntry)
    ensures AddressSet(nodes + [e]) == AddressSet(nodes) + if HasAddress(e) then {e.data.address.address} else {}
    ensures forall a :: a in AddressSet(nodes) <==> AddressTaken(nodes, a)
  {
  }

  lemma {:induction false} CountIsNumberOfAddresses(nodes: seq<NodeEntry>, mgmtNet: Option<Net>, vmNet: Option<Net>)
    requires NodesOk(nodes, mgmtNet, vmNet)
    ensures AddressedCount(nodes) == |AddressSet(nodes)|
  {
    if nodes != [] {
      var n := |nodes| - 1;
      var init, e := nodes[..n], nodes[n];
      assert nodes == nodes[..n + 1] == init + [e];
      NodesOkSnoc(nodes, n, mgmtNet, vmNet);
      CountIsNumberOfAddresses(init, mgmtNet, vmNet);
      AddressSetSnoc(init, e);
    }
  }

  lemma {:induction false} SubsetOfRange(s: set<nat>, low: nat, n: nat)
    requires forall x :: x in s ==> low <= x < low + n
    ensures |s| <= n
    decreases n
  {
    if n > 0 {
      var t := s - {low + n - 1};
      SubsetOfRange(t, low, n - 1);
      assert s <= t + {low + n - 1};
      assert |s| <= |t + {low + n - 1}|  by { SubsetSize(s, t + {low + n - 1}); }
    } else {
      assert forall x :: x in s ==> false;
      assert s == {};
    }
  }

  /** An accepted topology has at most 256 nodes that are not bridges. */
  lemma AtMost256Nodes(doc: Document, vm: SubnetField)
    requires Acceptable(doc, vm)
    ensures AddressedCount(doc.nodes) <= 256
  {
    var net := doc.subnet.net;
    assert net.prefix == 24;
    Size24();
    CountIsNumberOfAddresses(doc.nodes, NetOf(doc.subnet), NetOf(vm));
    forall a | a in AddressSet(doc.nodes) ensures net.base <= a < net.base + 256 {
      var e :| e in doc.nodes && HasAddress(e) && e.data.address.address == a;
      assert EntryOk(e, NetOf(doc.subnet), NetOf(vm));
    }
    SubsetOfRange(AddressSet(doc.nodes), net.base, 256);
  }

  lemma Size24()
    ensures Size(24) == 256
  {
  }
}
