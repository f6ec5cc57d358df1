/** What the string functions of the validator mean: stripping, splitting an endpoint, recognising the
    host, and the numbering of one router family. */
module EndpointTexts {
  import opened Sequences
  import opened TopologyValidator

  ghost predicate Blank(s: string) {
    forall c :: c in s ==> IsSpace(c)
  }

  lemma {:induction false} StripLeftSplits(s: string) returns (front: string)
    ensures s == front + StripLeft(s) && Blank(front)
    ensures StripLeft(s) != "" ==> !IsSpace(StripLeft(s)[0])
  {
    if s != "" && IsSpace(s[0]) {
      var rest := StripLeftSplits(s[1..]);
      front := [s[0]] + rest;
    } else {
      front := "";
    }
  }

  lemma {:induction false} StripRightSplits(s: string) returns (back: string)
    ensures s == StripRight(s) + back && Blank(back)
    ensures StripRight(s) != "" ==> !IsSpace(StripRight(s)[|StripRight(s)| - 1])
  {
    if s != "" && IsSpace(s[|s| - 1]) {
      var init, last := s[..|s| - 1], s[|s| - 1];
      var rest := StripRightSplits(init);
      back := rest + [last];
      assert StripRight(s) == StripRight(init);
      assert s == init + [last];
      assert (StripRight(init) + rest) + [last] == StripRight(init) + (rest + [last]);
    } else {
      back := "";
    }
  }

  lemma {:induction false} StripRightStarts(s: string)
    ensures StripRight(s) <= s
  {
    if s != "" && IsSpace(s[|s| - 1]) {
      StripRightStarts(s[..|s| - 1]);
    }
  }

  /** Stripping takes white space off both ends, and nothing else. */
  lemma StripSplits(s: string) returns (front: string, back: string)
    ensures s == front + Strip(s) + back && Blank(front) && Blank(back)
    ensures Strip(s) != "" ==> !IsSpace(Strip(s)[0]) && !IsSpace(Strip(s)[|Strip(s)| - 1])
  {
    front := StripLeftSplits(s);
    back := StripRightSplits(StripLeft(s));
    StripRightStarts(StripLeft(s));
    assert front + (Strip(s) + back) == front + Strip(s) + back;
  }

  lemma BlankIff(s: string)
    ensures Strip(s) == "" <==> Blank(s)
  {
    var front, back := StripSplits(s);
    if Strip(s) != "" {
      assert s[|front|] == Strip(s)[0];
      assert Strip(s)[0] in s;
    }
  }

  /** `node:interface`, with white space around either part or none, names that node and interface. */
  lemma NodeAndInterface(text: string, node: string, iface: string)
    requires Strip(text) == node + ":" + iface && ':' !in node
    ensures NodeOf(text) == Strip(node) && InterfaceOf(text) == Some(Strip(iface))
  {
    FindSkips(node, ':', iface);
    var t := Strip(text);
    assert t[..|node|] == node && t[|node| + 1..] == iface;
  }

  /** A text without a colon is all node. */
  lemma NodeAlone(text: string)
    requires ':' !in Strip(text)
    ensures NodeOf(text) == Strip(text) && InterfaceOf(text) == None
  {
    assert Find(Strip(text), ':') == |Strip(text)|;
  }

  /** The host is recognised in any case of its letters. */
  lemma HostIff(node: string)
    ensures IsHost(node) <==>
      && |node| == 4 && node[0] in {'h', 'H'} && node[1] in {'o', 'O'} && node[2] in {'s', 'S'} && node[3] in {'t', 'T'}
  {
    LowerPointwise(node);
    if IsHost(node) {
      assert Lower(node)[0] == 'h' && Lower(node)[1] == 'o' && Lower(node)[2] == 's' && Lower(node)[3] == 't';
    }
    if |node| == 4 && node[0] in {'h', 'H'} && node[1] in {'o', 'O'} && node[2] in {'s', 'S'} && node[3] in {'t', 'T'} {
      assert Lower(node) == ['h', 'o', 's', 't'];
    }
  }

  lemma {:induction false} LowerPointwise(s: string)
    ensures |Lower(s)| == |s|
    ensures forall i :: 0 <= i < |s| ==> Lower(s)[i] == if 'A' <= s[i] <= 'Z' then (s[i] as int + 32) as char else s[i]
  {
    if s != "" {
      LowerPointwise(s[1..]);
    }
  }

  /** `ethernet-<card>/<port>` with a card or a port made of zeros. */
  ghost predicate ZeroIndexed(iface: string, card: string, port: string) {
    && iface == "ethernet-" + (card + ['/'] + port) && AllDigits(card) && AllDigits(port)
    && ((forall c :: c in card ==> c == '0') || (forall c :: c in port ==> c == '0'))
  }

  lemma RefusedIsZeroIndexed(iface: string)
    requires SrlIndexBelowOne(iface)
    ensures exists card, port :: ZeroIndexed(iface, card, port)
  {
    var rest := iface[|SRL_PREFIX|..];
    var slash := Find(rest, '/');
    assert iface == SRL_PREFIX + rest && rest == rest[..slash] + ['/'] + rest[slash + 1..];
    assert ZeroIndexed(iface, rest[..slash], rest[slash + 1..]);
  }

  lemma ZeroIndexedIsRefused(iface: string, card: string, port: string)
    requires ZeroIndexed(iface, card, port)
    ensures SrlIndexBelowOne(iface)
  {
    var rest := card + ['/'] + port;
    assert iface[|SRL_PREFIX|..] == rest;
    assert '/' !in card;
    FindSkips(card, '/', port);
    assert rest[..|card|] == card && rest[|card| + 1..] == port;
  }

  /** The interfaces refused for this family are these. */
  lemma SrlRefusedIff(iface: string)
    ensures SrlIndexBelowOne(iface) <==> exists card, port :: ZeroIndexed(iface, card, port)
  {
    if SrlIndexBelowOne(iface) {
      RefusedIsZeroIndexed(iface);
    }
    if card, port :| ZeroIndexed(iface, card, port) {
      ZeroIndexedIsRefused(iface, card, port);
    }
  }

  /** The kind of a name is that of the last entry with this name and a kind; other names have none. */
  lemma {:induction false} KindsAreTheLast(nodes: seq<NodeEntry>, name: string)
    ensures var kinds := KindsOf(nodes);
      && (name in kinds <==> exists i :: KindAt(nodes, i, name))
      && (forall i: nat :: KindAt(nodes, i, name) && (forall j :: i < j ==> !KindAt(nodes, j, name)) ==>
            kinds[name] == nodes[i].data.kind)
  {
    if nodes != [] {
      var n := |nodes| - 1;
      KindsAreTheLast(nodes[..n], name);
      BlankIff(name);
      assert KindAt(nodes, n, name) <==>
        Named(nodes[n]) && nodes[n].name.value == name && nodes[n].data.Node? && nodes[n].data.kind != "";
      forall i: nat | i < n ensures KindAt(nodes, i, name) <==> KindAt(nodes[..n], i, name) {
      }
      if name in KindsOf(nodes[..n]) {
        var i: nat :| KindAt(nodes[..n], i, name);
        assert KindAt(nodes, i, name);
      }
      forall i: nat | KindAt(nodes, i, name) && (forall j :: i < j ==> !KindAt(nodes, j, name))
        ensures KindsOf(nodes)[name] == nodes[i].data.kind
      {
        if i < n {
          assert !KindAt(nodes, n, name);
          assert forall j :: i < j ==> !KindAt(nodes[..n], j, name);
        }
      }
    }
  }

  ghost predicate KindAt(nodes: seq<NodeEntry>, i: int, name: string) {
    && 0 <= i < |nodes| && nodes[i].name.Some? && nodes[i].name.value == name && !Blank(name)
    && nodes[i].data.Node? && nodes[i].data.kind != ""
  }
}
