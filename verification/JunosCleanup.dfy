/** Junos cleanup: the difference between the running and the base configuration becomes a list of
    subtree deletes, after which the base is loaded again. A line is the list of its words; the
    configuration of the device is the set of paths its `set` lines name. */
module JunosCleanup {

  type Word = string
  type Line = seq<Word>
  type Path = seq<Word>

  // ----- the device -----

  /** `delete P` removes everything at or below P; deleting what is not there has no effect. */
  function Delete(config: set<Path>, path: Path): set<Path> {
    set p | p in config && !(path <= p)
  }

  function DeleteAll(config: set<Path>, commands: seq<Path>): set<Path> {
    if commands == [] then config else DeleteAll(Delete(config, commands[0]), commands[1..])
  }

  /** A line of the form `set ...`. */
  predicate IsSet(line: Line) {
    |line| >= 2 && line[0] == "set"
  }

  /** The paths named by the `set` lines. */
  function PathsOf(lines: set<Line>): set<Path> {
    set l | l in lines && IsSet(l) :: l[1..]
  }

  /** `load set` adds the paths of the given lines. */
  function LoadSet(config: set<Path>, lines: set<Line>): set<Path> {
    config + PathsOf(lines)
  }

  /** What `show configuration | display set` yields: one line for each path, among other lines of
      the terminal session (echo, prompt) that are no `set` lines. */
  function Capture(config: set<Path>, noise: set<Line>): set<Line> {
    (set p | p in config :: ["set"] + p) + noise
  }

  ghost predicate IsNoise(noise: set<Line>) {
    forall l :: l in noise ==> !IsSet(l)
  }

  ghost predicate IsConfig(config: set<Path>) {
    forall p :: p in config ==> p != []
  }

  // ----- the generator -----

  predicate InInterfaceUnit(line: Line) {
    |line| >= 5 && line[0] == "set" && line[1] == "interfaces" && line[3] == "unit"
  }

  function UnitOf(line: Line): Path
    requires InInterfaceUnit(line)
  {
    ["interfaces", line[2], "unit", line[4]]
  }

  /** The path a surplus line is deleted by. */
  function DeletedBy(line: Line): Path
    requires IsSet(line)
  {
    if InInterfaceUnit(line) then UnitOf(line) else line[1..]
  }

  // ----- the order in which Python sorts strings and pairs of strings -----

  /** Lexicographic comparison of strings. */
  predicate TextLe(a: string, b: string) {
    a == "" || (b != "" && (a[0] < b[0] || (a[0] == b[0] && TextLe(a[1..], b[1..]))))
  }

  lemma {:induction false} TextLeIsTotal(a: string, b: string)
    ensures TextLe(a, b) || TextLe(b, a)
  {
    if a != "" && b != "" {
      TextLeIsTotal(a[1..], b[1..]);
    }
  }

  lemma {:induction false} TextLeIsAntisymmetric(a: string, b: string)
    requires TextLe(a, b) && TextLe(b, a)
    ensures a == b
  {
    if a != "" {
      TextLeIsAntisymmetric(a[1..], b[1..]);
      assert a == [a[0]] + a[1..] && b == [b[0]] + b[1..];
    }
  }

  lemma {:induction false} TextLeIsTransitive(a: string, b: string, c: string)
    requires TextLe(a, b) && TextLe(b, c)
    ensures TextLe(a, c)
  {
    if a != "" && a[0] == b[0] == c[0] {
      TextLeIsTransitive(a[1..], b[1..], c[1..]);
    }
  }

  /** The text of a line: its words with single blanks between them. */
  function TextOf(line: Line): string {
    if line == [] then "" else if |line| == 1 then line[0] else line[0] + " " + TextOf(line[1..])
  }

  predicate LineLe(a: Line, b: Line) {
    TextLe(TextOf(a), TextOf(b))
  }

  /** An interface and a unit, as the pairs the generator collects. */
  datatype Unit = Unit(iface: Word, unit: Word)

  predicate UnitLe(a: Unit, b: Unit) {
    if a.iface == b.iface then TextLe(a.unit, b.unit) else TextLe(a.iface, b.iface)
  }

  ghost predicate IsOrder<T(!new)>(le: (T, T) -> bool) {
    && (forall x, y :: le(x, y) || le(y, x))
    && (forall x, y, z :: le(x, y) && le(y, z) ==> le(x, z))
  }

  lemma LineLeIsOrder()
    ensures IsOrder(LineLe)
  {
    forall x, y ensures LineLe(x, y) || LineLe(y, x) {
      TextLeIsTotal(TextOf(x), TextOf(y));
    }
    forall x, y, z | LineLe(x, y) && LineLe(y, z) ensures LineLe(x, z) {
      TextLeIsTransitive(TextOf(x), TextOf(y), TextOf(z));
    }
  }

  lemma UnitLeIsOrder()
    ensures IsOrder(UnitLe)
  {
    forall x, y ensures UnitLe(x, y) || UnitLe(y, x) {
      TextLeIsTotal(x.iface, y.iface);
      TextLeIsTotal(x.unit, y.unit);
    }
    forall x, y, z | UnitLe(x, y) && UnitLe(y, z) ensures UnitLe(x, z) {
      UnitLeIsTransitive(x, y, z);
    }
  }

  lemma UnitLeIsTransitive(x: Unit, y: Unit, z: Unit)
    requires UnitLe(x, y) && UnitLe(y, z)
    ensures UnitLe(x, z)
  {
    if x.iface == y.iface && y.iface == z.iface {
      TextLeIsTransitive(x.unit, y.unit, z.unit);
    } else if x.iface != y.iface && y.iface != z.iface {
      TextLeIsTransitive(x.iface, y.iface, z.iface);
      if x.iface == z.iface {
        TextLeIsAntisymmetric(x.iface, y.iface);
      }
    }
  }

  /** `r` lists the elements of `s` in ascending order, each of them once. */
  ghost predicate ListsInOrder<T(!new)>(r: seq<T>, s: set<T>, le: (T, T) -> bool) {
    && (forall x :: x in r <==> x in s)
    && (forall i, j :: 0 <= i < j < |r| ==> r[i] != r[j] && le(r[i], r[j]))
  }

  /** `sorted(s)` of a set, by insertion. */
  method Sorted<T(!new, ==)>(s: set<T>, le: (T, T) -> bool) returns (r: seq<T>)
    requires IsOrder(le)
    ensures ListsInOrder(r, s, le)
  {
    r := [];
    var todo := s;
    while todo != {}
      invariant todo <= s && ListsInOrder(r, s - todo, le)
      decreases |todo|
    {
      var x :| x in todo;
      r := Inserted(r, s - todo, x, le);
      todo := todo - {x};
      assert s - todo == s - (todo + {x}) + {x};
    }
  }

  method Inserted<T(!new, ==)>(r: seq<T>, ghost s: set<T>, x: T, le: (T, T) -> bool) returns (longer: seq<T>)
    requires IsOrder(le) && ListsInOrder(r, s, le) && x !in s
    ensures ListsInOrder(longer, s + {x}, le)
  {
    var k := 0;
    while k < |r| && le(r[k], x)
      invariant 0 <= k <= |r|
      invariant forall i :: 0 <= i < k ==> le(r[i], x)
    {
      k := k + 1;
    }
    longer := r[..k] + [x] + r[k..];
    forall i | k <= i < |r| ensures le(x, r[i]) {
      assert le(x, r[k]) && (i > k ==> le(r[k], r[i]));
    }
    assert forall y :: y in longer <==> y in r || y == x;
  }

  // ----- building the commands -----

  function UnitsIn(lines: set<Line>): set<Unit> {
    set l | l in lines && InInterfaceUnit(l) :: Unit(l[2], l[4])
  }

  function LeavesIn(lines: set<Line>): set<Line> {
    set l | l in lines && IsSet(l) && !InInterfaceUnit(l)
  }

  function PathOfUnit(u: Unit): Path {
    ["interfaces", u.iface, "unit", u.unit]
  }

  /** The commands: first the units in order, then the paths of the other lines in order. */
  ghost predicate CommandsFor(commands: seq<Path>, surplus: set<Line>) {
    exists units, leaves ::
      && ListsInOrder(units, UnitsIn(surplus), UnitLe) && ListsInOrder(leaves, LeavesIn(surplus), LineLe)
      && commands == UnitPaths(units) + LeafPaths(leaves)
  }

  function UnitPaths(units: seq<Unit>): (paths: seq<Path>)
    ensures |paths| == |units| && forall i :: 0 <= i < |units| ==> paths[i] == PathOfUnit(units[i])
  {
    if units == [] then [] else UnitPaths(units[..|units| - 1]) + [PathOfUnit(units[|units| - 1])]
  }

  function LeafPaths(leaves: seq<Line>): (paths: seq<Path>)
    ensures |paths| == |leaves| && forall i :: 0 <= i < |leaves| && leaves[i] != [] ==> paths[i] == leaves[i][1..]
  {
    if leaves == [] then []
    else LeafPaths(leaves[..|leaves| - 1]) + [if leaves[|leaves| - 1] == [] then [] else leaves[|leaves| - 1][1..]]
  }

  /** `_generate_delete_commands_junos` */
  method GenerateDeletes(baseLines: set<Line>, runningLines: set<Line>) returns (commands: seq<Path>)
    ensures CommandsFor(commands, runningLines - baseLines)
    ensures Deletes(commands, baseLines, runningLines)
  {
    var surplus := runningLines - baseLines;
    UnitLeIsOrder();
    LineLeIsOrder();
    var units := Sorted(UnitsIn(surplus), UnitLe);
    var leaves := Sorted(LeavesIn(surplus), LineLe);
    commands := [];
    for i := 0 to |units|
      invariant commands == UnitPaths(units[..i])
    {
      assert units[..i + 1][..i] == units[..i];
      commands := commands + [PathOfUnit(units[i])];
    }
    assert units[..|units|] == units;
    for i := 0 to |leaves|
      invariant commands == UnitPaths(units) + LeafPaths(leaves[..i])
    {
      assert leaves[..i + 1][..i] == leaves[..i];
      assert leaves[i] in leaves;
      commands := commands + [leaves[i][1..]];
    }
    assert leaves[..|leaves|] == leaves;
    OrderedCommandsDelete(units, leaves, baseLines, runningLines);
  }

  lemma OrderedCommandsDelete(units: seq<Unit>, leaves: seq<Line>, baseLines: set<Line>, runningLines: set<Line>)
    requires var surplus := runningLines - baseLines;
      ListsInOrder(units, UnitsIn(surplus), UnitLe) && ListsInOrder(leaves, LeavesIn(surplus), LineLe)
    ensures Deletes(UnitPaths(units) + LeafPaths(leaves), baseLines, runningLines)
  {
    var surplus, commands := runningLines - baseLines, UnitPaths(units) + LeafPaths(leaves);
    forall c | c in commands ensures exists l :: l in surplus && IsSet(l) && c == DeletedBy(l) {
      if c in UnitPaths(units) {
        var i :| 0 <= i < |units| && c == PathOfUnit(units[i]);
        assert units[i] in UnitsIn(surplus);
        var l :| l in surplus && InInterfaceUnit(l) && units[i] == Unit(l[2], l[4]);
        assert IsSet(l) && c == DeletedBy(l);
      } else {
        var i :| 0 <= i < |leaves| && c == LeafPaths(leaves)[i];
        assert leaves[i] in LeavesIn(surplus);
        assert IsSet(leaves[i]) && c == DeletedBy(leaves[i]);
      }
    }
    forall l | l in surplus && IsSet(l) ensures DeletedBy(l) in commands {
      if InInterfaceUnit(l) {
        assert Unit(l[2], l[4]) in units;
        var i :| 0 <= i < |units| && units[i] == Unit(l[2], l[4]);
        assert UnitPaths(units)[i] == DeletedBy(l);
      } else {
        assert l in leaves;
        var i :| 0 <= i < |leaves| && leaves[i] == l;
        assert LeafPaths(leaves)[i] == DeletedBy(l);
      }
    }
  }

  ghost predicate Deletes(commands: seq<Path>, baseLines: set<Line>, runningLines: set<Line>) {
    forall c :: c in commands <==> exists l :: l in runningLines - baseLines && IsSet(l) && c == DeletedBy(l)
  }

  datatype Diff = Diff(missing: seq<Line>, extra: seq<Line>, deleteCommands: seq<Path>, match_: bool)

  /** `_calculate_config_diff` for Junos: both differences in order, the deletes, and whether there
      is any difference at all. */
  method CalculateDiff(baseLines: set<Line>, runningLines: set<Line>) returns (diff: Diff)
    ensures ListsInOrder(diff.missing, baseLines - runningLines, LineLe)
    ensures ListsInOrder(diff.extra, runningLines - baseLines, LineLe)
    ensures Deletes(diff.deleteCommands, baseLines, runningLines)
    ensures CommandsFor(diff.deleteCommands, runningLines - baseLines)
    ensures diff.match_ <==> baseLines == runningLines
  {
    LineLeIsOrder();
    var missing := Sorted(baseLines - runningLines, LineLe);
    var extra := Sorted(runningLines - baseLines, LineLe);
    var commands := GenerateDeletes(baseLines, runningLines);
    diff := Diff(missing, extra, commands, |baseLines - runningLines| == 0 && |runningLines - baseLines| == 0);
  }

  // ----- order does not matter -----

  /** A list of deletes removes exactly what lies below one of its paths. */
  lemma {:induction false} DeleteAllIs(config: set<Path>, commands: seq<Path>, p: Path)
    ensures p in DeleteAll(config, commands) <==> p in config && forall c :: c in commands ==> !(c <= p)
  {
    if commands != [] {
      DeleteAllIs(Delete(config, commands[0]), commands[1..], p);
      var rest := commands[1..];
      assert p in Delete(config, commands[0]) <==> p in config && !(commands[0] <= p);
      if p in DeleteAll(config, commands) {
        forall c | c in commands ensures !(c <= p) {
          assert c == commands[0] || c in rest;
        }
      } else if p in config && !(commands[0] <= p) {
        var c :| c in rest && c <= p;
        assert c in commands;
      } else {
        assert commands[0] in commands;
      }
    }
  }

  /** Deletes that are the same commands in another order have the same effect. */
  lemma OrderOfDeletesIsFree(config: set<Path>, a: seq<Path>, b: seq<Path>)
    requires forall c :: c in a <==> c in b
    ensures DeleteAll(config, a) == DeleteAll(config, b)
  {
    forall p ensures p in DeleteAll(config, a) <==> p in DeleteAll(config, b) {
      DeleteAllIs(config, a, p);
      DeleteAllIs(config, b, p);
    }
  }

  // ----- the transformation -----

  lemma PathOfCapture(config: set<Path>, noise: set<Line>, p: Path)
    requires IsNoise(noise) && p != []
    ensures ["set"] + p in Capture(config, noise) <==> p in config
  {
    assert IsSet(["set"] + p);
    if q :| q in config && ["set"] + p == ["set"] + q {
      assert p == (["set"] + p)[1..] && q == (["set"] + q)[1..];
    }
  }

  lemma PathOfBase(baseLines: set<Line>, p: Path)
    ensures p != [] && ["set"] + p in baseLines ==> p in PathsOf(baseLines)
    ensures p in PathsOf(baseLines) ==> p != [] && ["set"] + p in baseLines
  {
    if p != [] && ["set"] + p in baseLines {
      assert IsSet(["set"] + p) && (["set"] + p)[1..] == p;
    }
    if p in PathsOf(baseLines) {
      var l :| l in baseLines && IsSet(l) && p == l[1..];
      assert l == ["set"] + p;
    }
  }

  /** Whatever is running, the deletes remove every path that is not in the base. */
  lemma SurplusIsDeleted(config: set<Path>, noise: set<Line>, baseLines: set<Line>, commands: seq<Path>, p: Path)
    requires IsConfig(config) && IsNoise(noise) && Deletes(commands, baseLines, Capture(config, noise))
    requires p in config && p !in PathsOf(baseLines)
    ensures p !in DeleteAll(config, commands)
  {
    PathOfBase(baseLines, p);
    PathOfCapture(config, noise, p);
    var l := ["set"] + p;
    assert l in Capture(config, noise) - baseLines && IsSet(l) && l[1..] == p;
    assert DeletedBy(l) in commands && DeletedBy(l) <= p;
    DeleteAllIs(config, commands, p);
  }

  /** Any deletes followed by loading the base land on the base if and only if every surplus path lies
      below one of them. */
  lemma LandsOnBaseIff(config: set<Path>, baseLines: set<Line>, commands: seq<Path>)
    ensures LoadSet(DeleteAll(config, commands), baseLines) == PathsOf(baseLines) <==>
      forall p :: p in config && p !in PathsOf(baseLines) ==> exists c :: c in commands && c <= p
  {
    var left := DeleteAll(config, commands);
    if LoadSet(left, baseLines) == PathsOf(baseLines) {
      forall p | p in config && p !in PathsOf(baseLines) ensures exists c :: c in commands && c <= p {
        DeleteAllIs(config, commands, p);
        assert p in left ==> p in LoadSet(left, baseLines);
      }
    }
    if forall p :: p in config && p !in PathsOf(baseLines) ==> exists c :: c in commands && c <= p {
      forall p | p in left ensures p in PathsOf(baseLines) {
        DeleteAllIs(config, commands, p);
      }
    }
  }

  /** The cleanup lands exactly on the base, from any running configuration, with the deletes in
      any order. */
  lemma CleanupLandsOnBase(config: set<Path>, noise: set<Line>, baseLines: set<Line>, commands: seq<Path>)
    requires IsConfig(config) && IsNoise(noise) && Deletes(commands, baseLines, Capture(config, noise))
    ensures LoadSet(DeleteAll(config, commands), baseLines) == PathsOf(baseLines)
  {
    forall p | p in config && p !in PathsOf(baseLines) ensures exists c :: c in commands && c <= p {
      SurplusIsDeleted(config, noise, baseLines, commands, p);
      DeleteAllIs(config, commands, p);
    }
    LandsOnBaseIff(config, baseLines, commands);
  }

  /** A second diff right after the cleanup finds nothing to delete; it reports a match exactly
      when the base has only `set` lines and the capture carries no other line. */
  lemma SecondDiffDeletesNothing(noise: set<Line>, baseLines: set<Line>, commands: seq<Path>)
    requires IsNoise(noise)
    requires Deletes(commands, baseLines, Capture(PathsOf(baseLines), noise))
    ensures commands == []
    ensures baseLines == Capture(PathsOf(baseLines), noise) <==> noise == set l | l in baseLines && !IsSet(l)
  {
    var running := Capture(PathsOf(baseLines), noise);
    assert commands == [] || commands[0] in commands;
    forall l | IsSet(l) ensures l in running <==> l in baseLines {
      assert l == ["set"] + l[1..];
      PathOfBase(baseLines, l[1..]);
      PathOfCapture(PathsOf(baseLines), noise, l[1..]);
    }
    forall l | !IsSet(l) ensures l in running <==> l in noise {
      if p :| p in PathsOf(baseLines) && l == ["set"] + p {
        PathOfBase(baseLines, p);
      }
    }
    var others := set l | l in baseLines && !IsSet(l);
    if baseLines == running {
      assert forall l :: l in noise ==> l in others;
      assert forall l :: l in others ==> l in noise;
    }
    if noise == others {
      forall l ensures l in baseLines <==> l in running {
        assert IsSet(l) || (l in noise <==> l in others);
      }
    }
  }

  /** The reload is needed: deleting a surplus unit line takes base lines of that unit with it. */
  lemma UnitDeletesReachIntoTheBase()
    ensures exists config, baseLines, commands, p ::
      && IsConfig(config) && Deletes(commands, baseLines, Capture(config, {}))
      && p in config && p in PathsOf(baseLines) && p !in DeleteAll(config, commands)
  {
    var kept: Path := ["interfaces", "ge-0/0/0", "unit", "0", "family", "inet"];
    var surplus: Path := ["interfaces", "ge-0/0/0", "unit", "0", "description", "x"];
    var config := {kept, surplus};
    var baseLines: set<Line> := {["set"] + kept};
    var unit: Path := ["interfaces", "ge-0/0/0", "unit", "0"];
    var commands := [unit];
    var line := ["set"] + surplus;
    assert kept != surplus by { assert kept[4] != surplus[4]; }
    assert line != ["set"] + kept by { assert line[5] != (["set"] + kept)[5]; }
    assert Capture(config, {}) - baseLines == {line};
    assert UnitOf(line) == unit;
    assert forall c :: c in commands <==> c == unit;
    assert Deletes(commands, baseLines, Capture(config, {}));
    PathOfBase(baseLines, kept);
    DeleteAllIs(config, commands, kept);
    assert unit <= kept;
  }

  // ----- how much is deleted, and in which order -----

  /** The two paths belong to one unit of an interface. */
  predicate SameUnit(p: Path, q: Path) {
    && |p| >= 4 && |q| >= 4 && p[0] == "interfaces" && p[2] == "unit" && p[..4] == q[..4]
  }

  predicate OfUnit(p: Path) {
    |p| >= 4 && p[0] == "interfaces" && p[2] == "unit"
  }

  /** A surplus path takes its whole unit with it, or else what lies below it. */
  predicate Reaches(q: Path, p: Path) {
    if OfUnit(q) then SameUnit(p, q) else q <= p
  }

  lemma SurplusPath(config: set<Path>, noise: set<Line>, baseLines: set<Line>, l: Line)
    requires IsNoise(noise) && IsSet(l)
    ensures l in Capture(config, noise) - baseLines <==> l[1..] in config && l[1..] !in PathsOf(baseLines)
    ensures forall p :: DeletedBy(l) <= p <==> Reaches(l[1..], p)
  {
    var q := l[1..];
    assert l == ["set"] + q;
    PathOfCapture(config, noise, q);
    PathOfBase(baseLines, q);
    assert InInterfaceUnit(l) <==> OfUnit(q);
    assert OfUnit(q) ==> DeletedBy(l) == q[..4];
  }

  /** The deletes reach no further than needed: a running path survives them exactly when it is neither in
      a unit that has a surplus path, nor below any other surplus path. */
  lemma DeletesReachIff(config: set<Path>, noise: set<Line>, baseLines: set<Line>, commands: seq<Path>, p: Path)
    requires IsConfig(config) && IsNoise(noise) && Deletes(commands, baseLines, Capture(config, noise))
    requires p in config
    ensures p !in DeleteAll(config, commands) <==>
      exists q :: q in config && q !in PathsOf(baseLines) && Reaches(q, p)
  {
    DeleteAllIs(config, commands, p);
    if p !in DeleteAll(config, commands) {
      var c :| c in commands && c <= p;
      var l :| l in Capture(config, noise) - baseLines && IsSet(l) && c == DeletedBy(l);
      SurplusPath(config, noise, baseLines, l);
    }
    if q :| q in config && q !in PathsOf(baseLines) && Reaches(q, p) {
      var l := ["set"] + q;
      assert IsSet(l) && l[1..] == q;
      SurplusPath(config, noise, baseLines, l);
      assert DeletedBy(l) in commands;
    }
  }

  /** The order of strings: a prefix first, else by the first character that differs. */
  lemma {:induction false} TextLeIff(a: string, b: string)
    ensures TextLe(a, b) <==> a <= b || exists i :: 0 <= i < |a| && i < |b| && a[..i] == b[..i] && a[i] < b[i]
  {
    if a != "" && b != "" {
      TextLeIff(a[1..], b[1..]);
      if i :| 0 <= i < |a| && i < |b| && a[..i] == b[..i] && a[i] < b[i] {
        if i > 0 {
          assert a[0] == a[..i][0] == b[..i][0] == b[0];
          assert a[1..][..i - 1] == a[..i][1..] && b[1..][..i - 1] == b[..i][1..];
          assert a[1..][i - 1] < b[1..][i - 1];
        }
      }
      if a[0] == b[0] {
        if i :| 0 <= i < |a| - 1 && i < |b| - 1 && a[1..][..i] == b[1..][..i] && a[1..][i] < b[1..][i] {
          assert a[..i + 1] == [a[0]] + a[1..][..i] && b[..i + 1] == [b[0]] + b[1..][..i];
          assert a[i + 1] < b[i + 1];
        }
        assert a <= b <==> a[1..] <= b[1..];
      } else if a[0] < b[0] {
        assert a[..0] == b[..0];
      }
    }
  }

  /** Units are ordered by interface, and on one interface by unit. */
  lemma UnitLeIff(x: Unit, y: Unit)
    ensures UnitLe(x, y) <==>
      (x.iface == y.iface && TextLe(x.unit, y.unit)) || (x.iface != y.iface && TextLe(x.iface, y.iface))
  {
  }

  /** Lines are compared as they are written, with one blank before every further word. */
  lemma {:induction false} TextOfLonger(line: Line, word: Word)
    ensures TextOf([word]) == word
    ensures line != [] ==> TextOf(line + [word]) == TextOf(line) + " " + word
  {
    if |line| > 1 {
      TextOfLonger(line[1..], word);
      assert (line + [word])[1..] == line[1..] + [word];
      assert line[0] + " " + (TextOf(line[1..]) + " " + word) == (line[0] + " " + TextOf(line[1..])) + " " + word;
    } else if |line| == 1 {
      assert (line + [word])[1..] == [word];
    }
  }
}
