/**
 How the complexity ratchet shares out a file's complexity among its named
 functions (scripts/complexity-ratchet.py), on the space tree of one unit.

 `sum` is a space's own complexity plus its children's, as the measuring tool
 writes it. `title` is the name the ratchet gives the space in a key, with its
 cfg; working it out from the text is not part of this model.
 */
module SpaceTree {
  datatype Kind = Function | Impl | Trait | Other

  datatype Space = Space(kind: Kind, name: string, title: string, startLine: nat, sum: int, spaces: seq<Space>)

  const ANONYMOUS := "<anonymous>"

  predicate Named(s: Space) {
    s.kind == Function && s.name != ANONYMOUS
  }

  predicate Closure(s: Space) {
    s.kind == Function && s.name == ANONYMOUS
  }

  /** Closures among the first `n` children and under them, not looking inside
      a named function. */
  function ClosuresIn(space: Space, n: nat): nat
    requires n <= |space.spaces|
    decreases space, n
  {
    if n == 0 then 0
    else
      var s := space.spaces[n - 1];
      ClosuresIn(space, n - 1) +
      if Named(s) then 0 else (if Closure(s) then 1 else 0) + ClosuresIn(s, |s.spaces|)
  }

  method Closures(space: Space) returns (n: nat)
    ensures n == ClosuresIn(space, |space.spaces|)
    decreases space
  {
    n := 0;
    for i := 0 to |space.spaces|
      invariant n == ClosuresIn(space, i)
    {
      var s := space.spaces[i];
      if Closure(s) {
        var inside := Closures(s);
        n := n + 1 + inside;
      } else if s.kind != Function {
        var inside := Closures(s);
        n := n + inside;
      }
    }
  }

  /** The sums of the nearest named functions under the first `n` children. */
  function NamedIn(space: Space, n: nat): int
    requires n <= |space.spaces|
    decreases space, n
  {
    if n == 0 then 0
    else
      var s := space.spaces[n - 1];
      NamedIn(space, n - 1) + if Named(s) then s.sum else NamedIn(s, |s.spaces|)
  }

  method NamedFnsSum(space: Space) returns (total: int)
    ensures total == NamedIn(space, |space.spaces|)
    decreases space
  {
    total := 0;
    for i := 0 to |space.spaces|
      invariant total == NamedIn(space, i)
    {
      var s := space.spaces[i];
      if Named(s) {
        total := total + s.sum;
      } else {
        var inside := NamedFnsSum(s);
        total := total + inside;
      }
    }
  }

  /** The complexity reported for one named function. */
  function Complexity(s: Space): int {
    s.sum - NamedIn(s, |s.spaces|) - ClosuresIn(s, |s.spaces|)
  }

  /** A measured function: the path to it, and its complexity. */
  datatype Measured = Measured(path: seq<string>, complexity: int)

  /** What the owners of a space's children are. */
  function OwnersUnder(s: Space, owners: seq<string>): seq<string> {
    if Named(s) || s.kind == Impl || (s.kind == Trait && s.name != "") then owners + [s.title] else owners
  }

  /** A named function whose first line, counted from 0, is on the wanted side
      of the test lines. */
  predicate Wanted(s: Space, tests: set<int>, inTests: bool) {
    Named(s) && ((s.startLine - 1 in tests) == inTests)
  }

  function WithRow(out: seq<Measured>, s: Space, owners: seq<string>, tests: set<int>, inTests: bool): seq<Measured> {
    if Wanted(s, tests, inTests) then out + [Measured(owners + [s.title], Complexity(s))] else out
  }

  /** `out` with the functions of the first `n` children added. */
  function Gathered(space: Space, owners: seq<string>, tests: set<int>, inTests: bool, n: nat, out: seq<Measured>)
    : seq<Measured>
    requires n <= |space.spaces|
    decreases space, n
  {
    if n == 0 then out
    else
      var s := space.spaces[n - 1];
      var before := Gathered(space, owners, tests, inTests, n - 1, out);
      Gathered(s, OwnersUnder(s, owners), tests, inTests, |s.spaces|, WithRow(before, s, owners, tests, inTests))
  }

  function Reported(space: Space, owners: seq<string>, tests: set<int>, inTests: bool): seq<Measured> {
    Gathered(space, owners, tests, inTests, |space.spaces|, [])
  }

  /** `rust_functions`, without the file and mod prefix its position gives
      every key. */
  method RustFunctions(unit: Space, tests: set<int>) returns (out: seq<Measured>)
    ensures out == Reported(unit, [], tests, false)
  {
    out := Walk(unit, [], tests, []);
  }

  method Walk(space: Space, owners: seq<string>, tests: set<int>, before: seq<Measured>) returns (out: seq<Measured>)
    ensures out == Gathered(space, owners, tests, false, |space.spaces|, before)
    decreases space
  {
    out := before;
    for i := 0 to |space.spaces|
      invariant out == Gathered(space, owners, tests, false, i, before)
    {
      var s := space.spaces[i];
      if Named(s) {
        out := Report(s, owners, tests, out);
        out := Walk(s, owners + [s.title], tests, out);
      } else if s.kind == Impl {
        out := Walk(s, owners + [s.title], tests, out);
      } else if s.kind == Trait && s.name != "" {
        out := Walk(s, owners + [s.title], tests, out);
      } else {
        out := Walk(s, owners, tests, out);
      }
    }
  }

  method Report(s: Space, owners: seq<string>, tests: set<int>, before: seq<Measured>) returns (out: seq<Measured>)
    requires Named(s)
    ensures out == WithRow(before, s, owners, tests, false)
  {
    out := before;
    if s.startLine - 1 !in tests {
      var inner := NamedFnsSum(s);
      var closures := Closures(s);
      out := out + [Measured(owners + [s.title], s.sum - inner - closures)];
    }
  }

  // ---- nothing is lost or counted twice ---------------------------------------------------

  function TotalTo(measured: seq<Measured>, n: nat): int
    requires n <= |measured|
  {
    if n == 0 then 0 else TotalTo(measured, n - 1) + measured[n - 1].complexity
  }

  function Total(measured: seq<Measured>): int {
    TotalTo(measured, |measured|)
  }

  lemma {:induction false} TotalPrefix(a: seq<Measured>, b: seq<Measured>, n: nat)
    requires n <= |a|
    ensures TotalTo(a + b, n) == TotalTo(a, n)
  {
    if n > 0 {
      TotalPrefix(a, b, n - 1);
    }
  }

  /** Every closure under the first `n` children, named functions included. */
  function AllClosures(space: Space, n: nat): nat
    requires n <= |space.spaces|
    decreases space, n
  {
    if n == 0 then 0
    else
      var s := space.spaces[n - 1];
      AllClosures(space, n - 1) + (if Closure(s) then 1 else 0) + AllClosures(s, |s.spaces|)
  }

  function RowTotal(s: Space, tests: set<int>, inTests: bool): int {
    if Wanted(s, tests, inTests) then Complexity(s) else 0
  }

  /** What is reported for the first `n` children, as a number. */
  function ReportedTotal(space: Space, tests: set<int>, inTests: bool, n: nat): int
    requires n <= |space.spaces|
    decreases space, n
  {
    if n == 0 then 0
    else
      var s := space.spaces[n - 1];
      ReportedTotal(space, tests, inTests, n - 1) + RowTotal(s, tests, inTests) +
      ReportedTotal(s, tests, inTests, |s.spaces|)
  }

  lemma {:induction false} GatheredTotal(space: Space, owners: seq<string>, tests: set<int>, inTests: bool, n: nat,
                                         out: seq<Measured>)
    requires n <= |space.spaces|
    ensures Total(Gathered(space, owners, tests, inTests, n, out)) == Total(out) + ReportedTotal(space, tests, inTests, n)
    decreases space, n
  {
    if n > 0 {
      var s := space.spaces[n - 1];
      GatheredTotal(space, owners, tests, inTests, n - 1, out);
      var before := Gathered(space, owners, tests, inTests, n - 1, out);
      GatheredTotal(s, OwnersUnder(s, owners), tests, inTests, |s.spaces|, WithRow(before, s, owners, tests, inTests));
      RowAdds(before, s, owners, tests, inTests);
    }
  }

  lemma RowAdds(out: seq<Measured>, s: Space, owners: seq<string>, tests: set<int>, inTests: bool)
    ensures Total(WithRow(out, s, owners, tests, inTests)) == Total(out) + RowTotal(s, tests, inTests)
  {
    if Wanted(s, tests, inTests) {
      TotalPrefix(out, [Measured(owners + [s.title], Complexity(s))], |out|);
    }
  }

  lemma {:induction false} AddsUp(space: Space, n: nat)
    requires n <= |space.spaces|
    ensures ReportedTotal(space, {}, false, n) == NamedIn(space, n) - (AllClosures(space, n) - ClosuresIn(space, n))
    decreases space, n
  {
    if n > 0 {
      AddsUp(space, n - 1);
      AddsUp(space.spaces[n - 1], |space.spaces[n - 1].spaces|);
    }
  }

  /** What is reported under a space is the sum of its nearest named functions,
      less one for each closure inside them. */
  lemma {:induction false} ReportedAddsUp(space: Space, owners: seq<string>)
    ensures Total(Reported(space, owners, {}, false)) ==
            NamedIn(space, |space.spaces|) - (AllClosures(space, |space.spaces|) - ClosuresIn(space, |space.spaces|))
  {
    GatheredTotal(space, owners, {}, false, |space.spaces|, []);
    AddsUp(space, |space.spaces|);
  }

  /** The complexities reported for a named function and for every function
      inside it add up to its sum, less the closures in it. */
  lemma {:induction false} FunctionAddsUp(f: Space, owners: seq<string>)
    requires Named(f)
    ensures Complexity(f) + Total(Reported(f, owners, {}, false)) == f.sum - AllClosures(f, |f.spaces|)
  {
    ReportedAddsUp(f, owners);
  }

  lemma {:induction false} SetAside(space: Space, tests: set<int>, n: nat)
    requires n <= |space.spaces|
    ensures ReportedTotal(space, {}, false, n) == ReportedTotal(space, tests, false, n) + ReportedTotal(space, tests, true, n)
    decreases space, n
  {
    if n > 0 {
      SetAside(space, tests, n - 1);
      SetAside(space.spaces[n - 1], tests, |space.spaces[n - 1].spaces|);
    }
  }

  /** Leaving out the functions on test lines leaves out their complexity and
      nothing else. */
  lemma {:induction false} TestsAreSetAside(space: Space, owners: seq<string>, tests: set<int>)
    ensures Total(Reported(space, owners, {}, false)) ==
            Total(Reported(space, owners, tests, false)) + Total(Reported(space, owners, tests, true))
  {
    var n := |space.spaces|;
    GatheredTotal(space, owners, {}, false, n, []);
    GatheredTotal(space, owners, tests, false, n, []);
    GatheredTotal(space, owners, tests, true, n, []);
    SetAside(space, tests, n);
  }

  // ---- what one function's number is made of ------------------------------------------------

  function ChildSums(space: Space, n: nat): int
    requires n <= |space.spaces|
  {
    if n == 0 then 0 else ChildSums(space, n - 1) + space.spaces[n - 1].sum
  }

  /** A space's own complexity. */
  function Own(s: Space): int {
    s.sum - ChildSums(s, |s.spaces|)
  }

  /** The own complexity of the spaces under the first `n` children that no
      named function stands between. */
  function OwnBetween(space: Space, n: nat): int
    requires n <= |space.spaces|
    decreases space, n
  {
    if n == 0 then 0
    else
      var s := space.spaces[n - 1];
      OwnBetween(space, n - 1) + if Named(s) then 0 else Own(s) + OwnBetween(s, |s.spaces|)
  }

  lemma {:induction false} SumsSplit(space: Space, n: nat)
    requires n <= |space.spaces|
    ensures ChildSums(space, n) == NamedIn(space, n) + OwnBetween(space, n)
    decreases space, n
  {
    if n > 0 {
      var s := space.spaces[n - 1];
      SumsSplit(space, n - 1);
      SumsSplit(s, |s.spaces|);
    }
  }

  /** A function is charged its own complexity and that of the closures and
      blocks it holds directly, each closure's base of one left out. */
  lemma {:induction false} ChargedForItsOwn(f: Space)
    ensures Complexity(f) == Own(f) + OwnBetween(f, |f.spaces|) - ClosuresIn(f, |f.spaces|)
  {
    SumsSplit(f, |f.spaces|);
  }

  // ---- which functions are reported, under which paths -----------------------------------------

  /** The way from a space down to another, by child indices. */
  type Route = seq<nat>

  predicate IsRoute(space: Space, route: Route)
    decreases |route|
  {
    route == [] || (route[0] < |space.spaces| && IsRoute(space.spaces[route[0]], route[1..]))
  }

  function SpaceAt(space: Space, route: Route): Space
    requires IsRoute(space, route)
    decreases |route|
  {
    if route == [] then space else SpaceAt(space.spaces[route[0]], route[1..])
  }

  /** Spaces whose titles stand in the paths of what is under them. */
  predicate IsOwner(s: Space) {
    match s.kind
    case Function => s.name != ANONYMOUS
    case Impl => true
    case Trait => s.name != ""
    case Other => false
  }

  /** The titles of the owners strictly between, outermost first. */
  function OwnersOn(space: Space, route: Route): seq<string>
    requires IsRoute(space, route)
    decreases |route|
  {
    if |route| <= 1 then []
    else
      var s := space.spaces[route[0]];
      (if IsOwner(s) then [s.title] else []) + OwnersOn(s, route[1..])
  }

  /** A row's path: the owners on the route, then the function's own title. */
  function RowAt(space: Space, owners: seq<string>, route: Route): Measured
    requires IsRoute(space, route)
  {
    var f := SpaceAt(space, route);
    Measured(owners + OwnersOn(space, route) + [f.title], Complexity(f))
  }

  /** The route leads down to a named function on the wanted side. */
  predicate Reports(space: Space, route: Route, tests: set<int>, inTests: bool) {
    && route != [] && IsRoute(space, route)
    && var f := SpaceAt(space, route);
       f.kind == Function && f.name != ANONYMOUS && (f.startLine - 1 in tests <==> inTests)
  }

  /** A space before what is under it, and children in order. */
  predicate Precedes(a: Route, b: Route)
    decreases |a|
  {
    if a == [] then b != []
    else b != [] && (a[0] < b[0] || (a[0] == b[0] && Precedes(a[1..], b[1..])))
  }

  predicate InPreorder(routes: seq<Route>) {
    forall i, j | 0 <= i < j < |routes| :: Precedes(routes[i], routes[j])
  }

  function Deeper(k: nat, routes: seq<Route>): (deeper: seq<Route>)
    ensures |deeper| == |routes| && forall i | 0 <= i < |routes| :: deeper[i] == [k] + routes[i]
  {
    seq(|routes|, i requires 0 <= i < |routes| => [k] + routes[i])
  }

  /** The routes reported for the first `n` children, in order. */
  function RoutesIn(space: Space, tests: set<int>, inTests: bool, n: nat): seq<Route>
    requires n <= |space.spaces|
    decreases space, n
  {
    if n == 0 then []
    else
      var s := space.spaces[n - 1];
      RoutesIn(space, tests, inTests, n - 1) + (if Wanted(s, tests, inTests) then [[n - 1]] else [])
      + Deeper(n - 1, RoutesIn(s, tests, inTests, |s.spaces|))
  }

  /** One row a route. */
  ghost predicate RowsOf(rows: seq<Measured>, space: Space, owners: seq<string>, routes: seq<Route>) {
    && |rows| == |routes|
    && forall i | 0 <= i < |rows| :: IsRoute(space, routes[i]) && routes[i] != [] && rows[i] == RowAt(space, owners, routes[i])
  }

  lemma SpaceDeeper(space: Space, k: nat, route: Route)
    requires k < |space.spaces| && IsRoute(space.spaces[k], route)
    ensures IsRoute(space, [k] + route) && SpaceAt(space, [k] + route) == SpaceAt(space.spaces[k], route)
  {
    assert ([k] + route)[1..] == route;
  }

  lemma OwnersDeeper(space: Space, owners: seq<string>, k: nat, route: Route)
    requires k < |space.spaces| && IsRoute(space.spaces[k], route) && route != [] && IsRoute(space, [k] + route)
    ensures owners + OwnersOn(space, [k] + route) == OwnersUnder(space.spaces[k], owners) + OwnersOn(space.spaces[k], route)
  {
    var s, down := space.spaces[k], [k] + route;
    assert down[1..] == route;
    var titles := if IsOwner(s) then [s.title] else [];
    assert OwnersOn(space, down) == titles + OwnersOn(s, route);
    OwnersUnderAre(s, owners);
    assert owners + (titles + OwnersOn(s, route)) == owners + titles + OwnersOn(s, route);
  }

  lemma OwnersUnderAre(s: Space, owners: seq<string>)
    ensures OwnersUnder(s, owners) == owners + if IsOwner(s) then [s.title] else []
  {
  }

  lemma RowDeeper(space: Space, owners: seq<string>, k: nat, route: Route)
    requires k < |space.spaces| && IsRoute(space.spaces[k], route) && route != []
    ensures IsRoute(space, [k] + route)
    ensures RowAt(space, owners, [k] + route) == RowAt(space.spaces[k], OwnersUnder(space.spaces[k], owners), route)
  {
    SpaceDeeper(space, k, route);
    OwnersDeeper(space, owners, k, route);
    RowSame(SpaceAt(space, [k] + route), SpaceAt(space.spaces[k], route),
            owners + OwnersOn(space, [k] + route), OwnersUnder(space.spaces[k], owners) + OwnersOn(space.spaces[k], route));
  }

  lemma RowSame(f: Space, g: Space, a: seq<string>, b: seq<string>)
    requires f == g && a == b
    ensures Measured(a + [f.title], Complexity(f)) == Measured(b + [g.title], Complexity(g))
  {
  }

  lemma RowHere(space: Space, owners: seq<string>, k: nat)
    requires k < |space.spaces|
    ensures IsRoute(space, [k]) && RowAt(space, owners, [k]) == Measured(owners + [space.spaces[k].title], Complexity(space.spaces[k]))
  {
    SpaceHere(space, k);
    assert OwnersOn(space, [k]) == [];
    assert owners + [] == owners;
  }

  lemma SpaceHere(space: Space, k: nat)
    requires k < |space.spaces|
    ensures IsRoute(space, [k]) && SpaceAt(space, [k]) == space.spaces[k]
  {
    assert [k][1..] == [];
    assert SpaceAt(space, [k]) == SpaceAt(space.spaces[k], []);
  }

  /** What the walk adds for the first `n` children is one row for each of their routes. */
  lemma AppendedAll(out: seq<Measured>, front: seq<Measured>, here: seq<Measured>, under: seq<Measured>)
    ensures out + front + here + under == out + (front + here + under)
  {
  }

  function RowHereIs(s: Space, owners: seq<string>, tests: set<int>, inTests: bool): seq<Measured> {
    if Wanted(s, tests, inTests) then [Measured(owners + [s.title], Complexity(s))] else []
  }

  lemma RowAppended(out: seq<Measured>, s: Space, owners: seq<string>, tests: set<int>, inTests: bool)
    ensures WithRow(out, s, owners, tests, inTests) == out + RowHereIs(s, owners, tests, inTests)
  {
  }

  lemma GatheredStep(space: Space, owners: seq<string>, tests: set<int>, inTests: bool, n: nat, out: seq<Measured>,
                     before: seq<Measured>)
    requires 0 < n <= |space.spaces| && Gathered(space, owners, tests, inTests, n - 1, out) == before
    ensures var s := space.spaces[n - 1];
            Gathered(space, owners, tests, inTests, n, out) ==
            Gathered(s, OwnersUnder(s, owners), tests, inTests, |s.spaces|, WithRow(before, s, owners, tests, inTests))
  {
  }

  /** What the walk adds for the first `n` children is one row for each of their routes. */
  lemma {:induction false} GatheredRows(space: Space, owners: seq<string>, tests: set<int>, inTests: bool, n: nat, out: seq<Measured>)
    returns (rows: seq<Measured>)
    requires n <= |space.spaces|
    ensures Gathered(space, owners, tests, inTests, n, out) == out + rows
    ensures RowsOf(rows, space, owners, RoutesIn(space, tests, inTests, n))
    decreases space, n
  {
    if n == 0 {
      rows := [];
    } else {
      var s := space.spaces[n - 1];
      var front := GatheredRows(space, owners, tests, inTests, n - 1, out);
      var here := RowHereIs(s, owners, tests, inTests);
      RowAppended(out + front, s, owners, tests, inTests);
      GatheredStep(space, owners, tests, inTests, n, out, out + front);
      var under := GatheredRows(s, OwnersUnder(s, owners), tests, inTests, |s.spaces|, out + front + here);
      rows := front + here + under;
      RowsJoin(space, owners, tests, inTests, n, front, here, under);
      AppendedAll(out, front, here, under);
    }
  }

  lemma RowsJoin(space: Space, owners: seq<string>, tests: set<int>, inTests: bool, n: nat,
                 front: seq<Measured>, here: seq<Measured>, under: seq<Measured>)
    requires 0 < n <= |space.spaces| && RowsOf(front, space, owners, RoutesIn(space, tests, inTests, n - 1))
    requires var s := space.spaces[n - 1];
             && here == RowHereIs(s, owners, tests, inTests)
             && RowsOf(under, s, OwnersUnder(s, owners), RoutesIn(s, tests, inTests, |s.spaces|))
    ensures RowsOf(front + here + under, space, owners, RoutesIn(space, tests, inTests, n))
  {
    var s := space.spaces[n - 1];
    var inner := RoutesIn(s, tests, inTests, |s.spaces|);
    RowHere(space, owners, n - 1);
    forall i | 0 <= i < |inner|
      ensures IsRoute(space, [n - 1] + inner[i]) && RowAt(space, owners, [n - 1] + inner[i]) == under[i]
    {
      RowDeeper(space, owners, n - 1, inner[i]);
    }
    RowsConcat(space, owners, front, RoutesIn(space, tests, inTests, n - 1), here, if Wanted(s, tests, inTests) then [[n - 1]] else []);
    RowsConcat(space, owners, front + here,
               RoutesIn(space, tests, inTests, n - 1) + (if Wanted(s, tests, inTests) then [[n - 1]] else []),
               under, Deeper(n - 1, inner));
  }

  lemma RowsConcat(space: Space, owners: seq<string>, a: seq<Measured>, ra: seq<Route>, b: seq<Measured>, rb: seq<Route>)
    requires RowsOf(a, space, owners, ra) && RowsOf(b, space, owners, rb)
    ensures RowsOf(a + b, space, owners, ra + rb)
  {
  }

  /** The routes are exactly those to the wanted functions. */
  lemma {:induction false} RoutesAre(space: Space, tests: set<int>, inTests: bool, n: nat, route: Route)
    requires n <= |space.spaces|
    ensures route in RoutesIn(space, tests, inTests, n) <==> Reports(space, route, tests, inTests) && route[0] < n
    decreases space, n
  {
    if n > 0 {
      var s := space.spaces[n - 1];
      var inner := RoutesIn(s, tests, inTests, |s.spaces|);
      RoutesAre(space, tests, inTests, n - 1, route);
      if route != [] {
        RoutesAre(s, tests, inTests, |s.spaces|, route[1..]);
        DeeperHas(n - 1, inner, route);
        RouteStarts(space, n - 1, route, tests, inTests);
      }
    }
  }

  lemma DeeperHas(k: nat, inner: seq<Route>, route: Route)
    requires route != []
    ensures route in Deeper(k, inner) <==> route[0] == k && route[1..] in inner
  {
    if route in Deeper(k, inner) {
      var i :| 0 <= i < |inner| && Deeper(k, inner)[i] == route;
      assert route == [k] + inner[i];
      assert route[1..] == inner[i];
    }
    if route[0] == k && route[1..] in inner {
      var i :| 0 <= i < |inner| && inner[i] == route[1..];
      assert Deeper(k, inner)[i] == [k] + inner[i] == route;
    }
  }

  lemma RouteStarts(space: Space, k: nat, route: Route, tests: set<int>, inTests: bool)
    requires route != [] && k < |space.spaces|
    ensures route[0] == k ==>
            (Reports(space, route, tests, inTests) <==>
             (route == [k] && Wanted(space.spaces[k], tests, inTests)) || Reports(space.spaces[k], route[1..], tests, inTests))
  {
    if route[0] == k {
      assert route == [k] + route[1..];
      SpaceHere(space, k);
      assert |route| > 1 ==> route[1..] != [];
    }
  }

  lemma RoutesStep(space: Space, tests: set<int>, inTests: bool, n: nat, front: seq<Route>, here: seq<Route>, inner: seq<Route>)
    requires 0 < n <= |space.spaces| && front == RoutesIn(space, tests, inTests, n - 1)
    requires var s := space.spaces[n - 1];
             && here == (if Wanted(s, tests, inTests) then [[n - 1]] else [])
             && inner == RoutesIn(s, tests, inTests, |s.spaces|)
    ensures RoutesIn(space, tests, inTests, n) == front + here + Deeper(n - 1, inner)
  {
  }

  /** In preorder, and within the first `n` children. */
  predicate OrderedTo(routes: seq<Route>, n: nat) {
    InPreorder(routes) && forall r | r in routes :: r != [] && r[0] < n
  }

  lemma OrderedStep(front: seq<Route>, here: seq<Route>, inner: seq<Route>, k: nat, m: nat)
    requires OrderedTo(front, k) && OrderedTo(inner, m) && (here == [] || here == [[k]])
    ensures OrderedTo(front + here + Deeper(k, inner), k + 1)
  {
    DeeperOrdered(k, inner);
    OrderedJoin(front, here, Deeper(k, inner), k);
  }

  lemma {:induction false} RoutesOrdered(space: Space, tests: set<int>, inTests: bool, n: nat)
    requires n <= |space.spaces|
    ensures OrderedTo(RoutesIn(space, tests, inTests, n), n)
    decreases space, n
  {
    if n > 0 {
      var s := space.spaces[n - 1];
      var inner := RoutesIn(s, tests, inTests, |s.spaces|);
      var front := RoutesIn(space, tests, inTests, n - 1);
      var here: seq<Route> := if Wanted(s, tests, inTests) then [[n - 1]] else [];
      RoutesOrdered(space, tests, inTests, n - 1);
      RoutesOrdered(s, tests, inTests, |s.spaces|);
      OrderedStep(front, here, inner, n - 1, |s.spaces|);
      RoutesStep(space, tests, inTests, n, front, here, inner);
    }
  }

  lemma DeeperOrdered(k: nat, inner: seq<Route>)
    requires InPreorder(inner)
    requires forall r | r in inner :: r != []
    ensures InPreorder(Deeper(k, inner)) && forall r | r in Deeper(k, inner) :: |r| > 1 && r[0] == k
  {
    forall i | 0 <= i < |inner| ensures |Deeper(k, inner)[i]| > 1 {
      assert inner[i] in inner;
    }
    forall i, j | 0 <= i < j < |inner| ensures Precedes(Deeper(k, inner)[i], Deeper(k, inner)[j]) {
      assert ([k] + inner[i])[1..] == inner[i] && ([k] + inner[j])[1..] == inner[j];
    }
  }

  lemma OrderedJoin(a: seq<Route>, here: seq<Route>, b: seq<Route>, k: nat)
    requires InPreorder(a) && InPreorder(b) && (here == [] || here == [[k]])
    requires (forall r | r in a :: r != [] && r[0] < k) && (forall r | r in b :: |r| > 1 && r[0] == k)
    ensures InPreorder(a + here + b) && forall r | r in a + here + b :: r != [] && r[0] < k + 1
  {
    var all := a + here + b;
    forall i, j | 0 <= i < j < |all| ensures Precedes(all[i], all[j]) {
      if i < |a| {
        assert all[i] in a;
        if j < |a| {
        } else {
          assert all[j] in here + b;
        }
      } else if i < |a| + |here| {
        assert all[i] == [k] && all[j] in b;
        assert [k][1..] == [];
      } else {
        assert all[i] == b[i - |a| - |here|] && all[j] == b[j - |a| - |here|];
      }
    }
  }

  /** The report is, in preorder, one row for each route down to a named function
      off the test lines: its path is the titles of the named functions, impls
      and named traits on the route, outermost first, and then its own. */
  lemma {:induction false} ReportIsByRoute(unit: Space, tests: set<int>, inTests: bool) returns (routes: seq<Route>)
    ensures RowsOf(Reported(unit, [], tests, inTests), unit, [], routes) && InPreorder(routes)
    ensures forall r :: r in routes <==> Reports(unit, r, tests, inTests)
  {
    var n := |unit.spaces|;
    routes := RoutesIn(unit, tests, inTests, n);
    var rows := GatheredRows(unit, [], tests, inTests, n, []);
    assert [] + rows == rows;
    RoutesOrdered(unit, tests, inTests, n);
    forall r ensures r in routes <==> Reports(unit, r, tests, inTests) {
      RoutesAre(unit, tests, inTests, n, r);
    }
  }
}
