/**
The kill-switch bypass: one routing table and one rule per user and family,
installed as a transaction of commands that may each fail, while other programs
may add routes and rules of their own.
*/
module Routing {
  import opened BpfMachine
  import opened Wrappers
  import opened Sets
  import opened SplitModel

  const ROUTE_TABLE_BASE := 30_000
  const RULE_PRIORITY_BASE := 12_000
  const ROUTE_PROTOCOL := 242

  datatype AddressFamily = Ipv4 | Ipv6
  datatype IpAddress = V4(octets: nat) | V6(octets: nat)
  datatype PhysicalRoute = PhysicalRoute(family: AddressFamily, gateway: Option<IpAddress>, interface: string)

  function FamilyOf(address: IpAddress): AddressFamily { if address.V4? then Ipv4 else Ipv6 }

  predicate InterfaceChar(c: char) {
    'a' <= c <= 'z' || 'A' <= c <= 'Z' || '0' <= c <= '9' || c in "_-.:"
  }

  predicate ProtonInterface(name: string) {
    || name in {"proton0", "pvpnksintrf0", "pvpnksintrf1", "ipv6leakintrf0", "ipv6leakintrf1"}
    || "pvpnrouteintrf" <= name
  }

  /** What parsing a route accepts. */
  predicate ValidRoute(r: PhysicalRoute) {
    && 0 < |r.interface| <= 15 && (forall c :: c in r.interface ==> InterfaceChar(c))
    && !ProtonInterface(r.interface)
    && (r.gateway.Some? ==> FamilyOf(r.gateway.value) == r.family)
  }

  // ----- the order of routes -----

  predicate TextLe(a: string, b: string) {
    a == "" || (b != "" && (a[0] < b[0] || (a[0] == b[0] && TextLe(a[1..], b[1..]))))
  }

  lemma {:induction false} TextTotal(a: string, b: string)
    ensures TextLe(a, b) || TextLe(b, a)
    ensures TextLe(a, b) && TextLe(b, a) ==> a == b
  {
    if a != "" && b != "" && a[0] == b[0] {
      TextTotal(a[1..], b[1..]);
      assert a == [a[0]] + a[1..] && b == [b[0]] + b[1..];
    }
  }

  lemma {:induction false} TextTransitive(a: string, b: string, c: string)
    requires TextLe(a, b) && TextLe(b, c)
    ensures TextLe(a, c)
  {
    if a != "" && a[0] == b[0] == c[0] {
      TextTransitive(a[1..], b[1..], c[1..]);
    }
  }

  function GatewayRank(gateway: Option<IpAddress>): (nat, nat) {
    match gateway
    case None => (0, 0)
    case Some(V4(n)) => (1, n)
    case Some(V6(n)) => (2, n)
  }

  /** The order of routes of one family: gateway first, then interface. */
  predicate RouteLe(a: PhysicalRoute, b: PhysicalRoute) {
    var (g, h) := (GatewayRank(a.gateway), GatewayRank(b.gateway));
    g.0 < h.0 || (g.0 == h.0 && (g.1 < h.1 || (g.1 == h.1 && TextLe(a.interface, b.interface))))
  }

  /** The first least route of a family, if there is one. */
  function Least(routes: seq<PhysicalRoute>, family: AddressFamily): Option<PhysicalRoute> {
    if routes == [] then None
    else
      var rest, r := Least(routes[..|routes| - 1], family), routes[|routes| - 1];
      if r.family != family then rest
      else if rest.Some? && RouteLe(rest.value, r) then rest
      else Some(r)
  }

  function PreferredRoutes(routes: seq<PhysicalRoute>): (r: seq<PhysicalRoute>)
    ensures |r| <= 2
    ensures forall i, j :: 0 <= i < j < |r| ==> r[i].family != r[j].family
  {
    LeastOfFamily(routes, Ipv4);
    LeastOfFamily(routes, Ipv6);
    (match Least(routes, Ipv4) case Some(r) => [r] case None => [])
    + (match Least(routes, Ipv6) case Some(r) => [r] case None => [])
  }

  lemma {:induction false} LeastOfFamily(routes: seq<PhysicalRoute>, family: AddressFamily)
    ensures Least(routes, family).None? <==> forall r :: r in routes ==> r.family != family
    ensures Least(routes, family).Some? ==>
              && Least(routes, family).value in routes
              && Least(routes, family).value.family == family
              && forall r :: r in routes && r.family == family ==> RouteLe(Least(routes, family).value, r)
  {
    if routes != [] {
      var init, last := routes[..|routes| - 1], routes[|routes| - 1];
      LeastOfFamily(init, family);
      assert routes == init + [last];
      if last.family == family && Least(init, family).Some? {
        var l := Least(init, family).value;
        TextTotal(l.interface, last.interface);
        TextTotal(last.interface, last.interface);
        forall r | r in init && r.family == family && !RouteLe(l, last)
          ensures RouteLe(last, r)
        {
          if TextLe(last.interface, l.interface) && TextLe(l.interface, r.interface) {
            TextTransitive(last.interface, l.interface, r.interface);
          }
        }
      } else {
        TextTotal(last.interface, last.interface);
      }
    }
  }

  /** Texts are compared at their first difference; a text comes before its continuations. */
  lemma {:induction false} TextMeans(a: string, b: string)
    ensures TextLe(a, b) <==> a <= b || exists k :: 0 <= k < |a| && k < |b| && a[..k] == b[..k] && a[k] < b[k]
  {
    if a != "" && b != "" {
      assert a == [a[0]] + a[1..] && b == [b[0]] + b[1..];
      if a[0] == b[0] {
        TextMeans(a[1..], b[1..]);
        if k :| 0 <= k < |a| - 1 && k < |b| - 1 && a[1..][..k] == b[1..][..k] && a[1..][k] < b[1..][k] {
          assert a[..k + 1] == [a[0]] + a[1..][..k] && b[..k + 1] == [b[0]] + b[1..][..k];
          assert a[k + 1] < b[k + 1];
        }
        if k :| 0 <= k < |a| && k < |b| && a[..k] == b[..k] && a[k] < b[k] {
          assert k > 0 && a[1..][..k - 1] == a[..k][1..] && b[1..][..k - 1] == b[..k][1..];
          assert a[1..][k - 1] < b[1..][k - 1];
        }
      } else {
        assert a[0] < b[0] ==> a[..0] == b[..0];
        forall k | 0 <= k < |a| && k < |b| && a[..k] == b[..k]
          ensures k == 0
        {
          assert forall j :: 0 <= j < k ==> a[..k][j] == a[j] && b[..k][j] == b[j];
        }
      }
    } else if b == "" {
      assert a <= b <==> a == "";
    }
  }

  /** A route over the link alone is preferred, then the lowest gateway, then the first interface by name. */
  lemma PreferenceMeans(a: PhysicalRoute, b: PhysicalRoute)
    requires ValidRoute(a) && ValidRoute(b) && a.family == b.family
    ensures a.gateway.None? && b.gateway.Some? ==> RouteLe(a, b) && !RouteLe(b, a)
    ensures a.gateway.Some? && b.gateway.Some? && a.gateway.value.octets < b.gateway.value.octets ==>
              RouteLe(a, b) && !RouteLe(b, a)
    ensures a.gateway == b.gateway ==>
              (RouteLe(a, b) <==>
               || a.interface <= b.interface
               || exists k :: 0 <= k < |a.interface| && k < |b.interface|
                    && a.interface[..k] == b.interface[..k] && a.interface[k] < b.interface[k])
  {
    TextMeans(a.interface, b.interface);
  }

  /** One least route per family, drawn from the input; none only for a family the input lacks. */
  lemma PreferredIsLeast(routes: seq<PhysicalRoute>, family: AddressFamily)
    ensures forall p :: p in PreferredRoutes(routes) ==> p in routes
    ensures (exists p :: p in PreferredRoutes(routes) && p.family == family)
       <==> (exists r :: r in routes && r.family == family)
    ensures forall p, r :: p in PreferredRoutes(routes) && r in routes && p.family == r.family ==> RouteLe(p, r)
  {
    LeastOfFamily(routes, Ipv4);
    LeastOfFamily(routes, Ipv6);
    if Least(routes, family).Some? {
      assert Least(routes, family).value in PreferredRoutes(routes);
    }
  }

  // ----- what the commands touch -----

  datatype Target =
    | Link(gateway: IpAddress, interface: string)
    | Via(gateway: IpAddress, interface: string)
    | Direct(interface: string)

  datatype Route = Route(family: AddressFamily, table: nat, target: Target, protocol: nat)
  datatype Rule = Rule(family: AddressFamily, priority: nat, mark: nat, uid: nat, table: nat)

  function Table(uid: u16): nat { ROUTE_TABLE_BASE + uid }
  function Priority(uid: u16): nat { RULE_PRIORITY_BASE + uid }

  function RouteCommands(uid: u16, r: PhysicalRoute): (commands: seq<Route>)
    ensures |commands| in {1, 2} && (|commands| == 2 ==> commands[0] != commands[1])
    ensures forall c :: c in commands ==>
              c.family == r.family && c.table == Table(uid) && c.protocol == ROUTE_PROTOCOL
  {
    match r.gateway
    case Some(g) =>
      [Route(r.family, Table(uid), Link(g, r.interface), ROUTE_PROTOCOL),
       Route(r.family, Table(uid), Via(g, r.interface), ROUTE_PROTOCOL)]
    case None => [Route(r.family, Table(uid), Direct(r.interface), ROUTE_PROTOCOL)]
  }

  function RuleSpec(uid: u16, family: AddressFamily): Rule {
    Rule(family, Priority(uid), FWMARK_VALUE, uid, Table(uid))
  }

  function AllCommands(uid: u16, routes: seq<PhysicalRoute>): seq<Route> {
    if routes == [] then []
    else AllCommands(uid, routes[..|routes| - 1]) + RouteCommands(uid, routes[|routes| - 1])
  }

  ghost function OwnedRoutes(uid: u16, routes: seq<PhysicalRoute>): set<Route> {
    set c | c in AllCommands(uid, routes)
  }

  function Families(routes: seq<PhysicalRoute>): (r: seq<AddressFamily>) {
    (if exists i :: 0 <= i < |routes| && routes[i].family == Ipv4 then [Ipv4] else [])
    + (if exists i :: 0 <= i < |routes| && routes[i].family == Ipv6 then [Ipv6] else [])
  }

  ghost function OwnedRules(uid: u16, routes: seq<PhysicalRoute>): set<Rule> {
    set f | f in Families(routes) :: RuleSpec(uid, f)
  }

  lemma FamiliesMeans(routes: seq<PhysicalRoute>)
    ensures forall f :: f in Families(routes) <==> exists i :: 0 <= i < |routes| && routes[i].family == f
    ensures forall i, j :: 0 <= i < j < |Families(routes)| ==> Families(routes)[i] != Families(routes)[j]
  {
  }

  lemma {:induction false} CommandsMean(uid: u16, routes: seq<PhysicalRoute>)
    ensures forall c :: c in AllCommands(uid, routes) ==>
              c.table == Table(uid) && c.protocol == ROUTE_PROTOCOL && c.family in Families(routes)
  {
    if routes != [] {
      var init := routes[..|routes| - 1];
      CommandsMean(uid, init);
      FamiliesMeans(init);
      FamiliesMeans(routes);
      assert forall i :: 0 <= i < |init| ==> init[i] == routes[i];
    }
  }

  lemma {:induction false} CommandsOfEach(uid: u16, routes: seq<PhysicalRoute>, k: nat)
    requires k <= |routes|
    ensures OwnedRoutes(uid, routes[..k]) <= OwnedRoutes(uid, routes)
    ensures k < |routes| ==>
              OwnedRoutes(uid, routes[..k + 1])
              == OwnedRoutes(uid, routes[..k]) + set c | c in RouteCommands(uid, routes[k])
    decreases |routes| - k
  {
    if k < |routes| {
      assert routes[..k + 1][..k] == routes[..k];
      CommandsOfEach(uid, routes, k + 1);
    } else {
      assert routes[..k] == routes;
    }
  }

  /** The default route a physical route stands for. */
  function DefaultTarget(r: PhysicalRoute): Target {
    match r.gateway
    case Some(g) => Via(g, r.interface)
    case None => Direct(r.interface)
  }

  /** The commands of a route send the marked traffic of the user, and no other, over it. */
  lemma {:induction false} MarkedTrafficBypasses(uid: u16, routes: seq<PhysicalRoute>, i: nat)
    requires i < |routes|
    ensures Route(routes[i].family, Table(uid), DefaultTarget(routes[i]), ROUTE_PROTOCOL) in OwnedRoutes(uid, routes)
    ensures Rule(routes[i].family, Priority(uid), FWMARK_VALUE, uid, Table(uid)) in OwnedRules(uid, routes)
    ensures forall r :: r in OwnedRules(uid, routes) ==> r.uid == uid && r.mark == FWMARK_VALUE && r.table == Table(uid)
  {
    CommandsOfEach(uid, routes, i);
    CommandsOfEach(uid, routes, i + 1);
    var commands := RouteCommands(uid, routes[i]);
    assert commands[|commands| - 1] in OwnedRoutes(uid, routes[..i + 1]);
    FamiliesMeans(routes);
    assert RuleSpec(uid, routes[i].family) in OwnedRules(uid, routes);
  }

  /** The command leads over the physical route: to its gateway on the link, then through it, or over the link alone. */
  ghost predicate LeadsOver(c: Route, uid: u16, r: PhysicalRoute) {
    && c.family == r.family && c.table == 30_000 + uid && c.protocol == 242
    && match r.gateway
       case None => c.target == Direct(r.interface)
       case Some(g) => c.target == Link(g, r.interface) || c.target == Via(g, r.interface)
  }

  /** The kernel accepts the way through a gateway only when it already knows the way to it. */
  ghost predicate GatewaysFirst(commands: seq<Route>) {
    forall k :: 0 <= k < |commands| && commands[k].target.Via? ==>
      k > 0 && commands[k - 1] == commands[k].(target := Link(commands[k].target.gateway, commands[k].target.interface))
  }

  /** The routes of a bypass are exactly those that lead over its physical routes, gateways first. */
  lemma {:induction false} CommandsAre(uid: u16, routes: seq<PhysicalRoute>)
    ensures forall c :: c in OwnedRoutes(uid, routes) <==> exists i :: 0 <= i < |routes| && LeadsOver(c, uid, routes[i])
    ensures GatewaysFirst(AllCommands(uid, routes))
  {
    if routes != [] {
      var init, last := routes[..|routes| - 1], routes[|routes| - 1];
      CommandsAre(uid, init);
      assert forall i :: 0 <= i < |init| ==> init[i] == routes[i];
      forall c
        ensures c in OwnedRoutes(uid, routes) <==> exists i :: 0 <= i < |routes| && LeadsOver(c, uid, routes[i])
      {
        CommandsOfOne(uid, last, c);
        assert c in OwnedRoutes(uid, routes) <==> c in OwnedRoutes(uid, init) || c in RouteCommands(uid, last);
        assert routes[|init|] == last;
      }
    }
  }

  lemma CommandsOfOne(uid: u16, r: PhysicalRoute, c: Route)
    ensures c in RouteCommands(uid, r) <==> LeadsOver(c, uid, r)
    ensures GatewaysFirst(RouteCommands(uid, r))
  {
  }

  /** Its rules are exactly one per family in use, for the marked packets of the user and nothing else. */
  lemma RulesAre(uid: u16, routes: seq<PhysicalRoute>, r: Rule)
    ensures r in OwnedRules(uid, routes)
       <==> && (exists i :: 0 <= i < |routes| && r.family == routes[i].family)
            && r.priority == 12_000 + uid && r.mark == 245_447_468 && r.uid == uid && r.table == 30_000 + uid
  {
    FamiliesMeans(routes);
    if r.family in Families(routes) {
      assert RuleSpec(uid, r.family) in OwnedRules(uid, routes);
    }
  }

  /** Users have tables and rules of their own. */
  lemma UsersApart(uid: u16, other: u16, routes: seq<PhysicalRoute>, others: seq<PhysicalRoute>)
    requires uid != other
    ensures OwnedRoutes(uid, routes) !! OwnedRoutes(other, others)
    ensures OwnedRules(uid, routes) !! OwnedRules(other, others)
  {
    CommandsMean(uid, routes);
    CommandsMean(other, others);
  }

  // ----- ownership of a table -----

  ghost function TableRoutes(routes: set<Route>, uid: u16, family: AddressFamily): set<Route> {
    set r | r in routes && r.family == family && r.table == Table(uid)
  }

  ghost function PriorityRules(rules: set<Rule>, uid: u16, family: AddressFamily): set<Rule> {
    set r | r in rules && r.family == family && r.priority == Priority(uid)
  }

  ghost predicate Free(routes: set<Route>, rules: set<Rule>, uid: u16, family: AddressFamily) {
    TableRoutes(routes, uid, family) == {} && PriorityRules(rules, uid, family) == {}
  }

  /** The number of commands of a family. */
  function Expected(uid: u16, routes: seq<PhysicalRoute>, family: AddressFamily): nat {
    if routes == [] then 0
    else
      var r := routes[|routes| - 1];
      Expected(uid, routes[..|routes| - 1], family)
      + if r.family == family then |RouteCommands(uid, r)| else 0
  }

  ghost predicate DistinctFamilies(routes: seq<PhysicalRoute>) {
    forall i, j :: 0 <= i < j < |routes| ==> routes[i].family != routes[j].family
  }

  lemma {:induction false} NoCommands(uid: u16, routes: seq<PhysicalRoute>, family: AddressFamily)
    requires forall r :: r in routes ==> r.family != family
    ensures Expected(uid, routes, family) == 0
  {
    if routes != [] {
      NoCommands(uid, routes[..|routes| - 1], family);
    }
  }

  lemma {:induction false} ExpectedIsOwned(uid: u16, routes: seq<PhysicalRoute>, family: AddressFamily)
    requires DistinctFamilies(routes)
    ensures Expected(uid, routes, family) == |TableRoutes(OwnedRoutes(uid, routes), uid, family)|
  {
    if routes == [] {
      assert TableRoutes(OwnedRoutes(uid, routes), uid, family) == {};
    } else {
      var init, last := routes[..|routes| - 1], routes[|routes| - 1];
      var mine := TableRoutes(OwnedRoutes(uid, routes), uid, family);
      ExpectedIsOwned(uid, init, family);
      if last.family == family {
        NoCommands(uid, init, family);
        CommandsMean(uid, init);
        FamiliesMeans(init);
        assert mine == set c | c in RouteCommands(uid, last);
        var cs := RouteCommands(uid, last);
        assert mine == if |cs| == 1 then {cs[0]} else {cs[0], cs[1]};
      } else {
        assert mine == TableRoutes(OwnedRoutes(uid, init), uid, family);
      }
    }
  }

  /** A verified table holds our commands and nothing else. */
  ghost predicate Verified(routes: set<Route>, rules: set<Rule>, uid: u16, family: AddressFamily, ours: seq<PhysicalRoute>) {
    && |TableRoutes(routes, uid, family)| == Expected(uid, ours, family)
    && |PriorityRules(rules, uid, family)| == 1
  }

  lemma VerifiedIsOurs(routes: set<Route>, rules: set<Rule>, uid: u16, family: AddressFamily, ours: seq<PhysicalRoute>)
    requires DistinctFamilies(ours) && family in Families(ours)
    requires OwnedRoutes(uid, ours) <= routes && OwnedRules(uid, ours) <= rules
    ensures Verified(routes, rules, uid, family, ours) <==>
              && TableRoutes(routes, uid, family) == TableRoutes(OwnedRoutes(uid, ours), uid, family)
              && PriorityRules(rules, uid, family) == {RuleSpec(uid, family)}
  {
    ExpectedIsOwned(uid, ours, family);
    assert RuleSpec(uid, family) in OwnedRules(uid, ours);
    if Verified(routes, rules, uid, family, ours) {
      SubsetBounded(TableRoutes(OwnedRoutes(uid, ours), uid, family), TableRoutes(routes, uid, family));
      SubsetBounded({RuleSpec(uid, family)}, PriorityRules(rules, uid, family));
    }
  }

  lemma FreeIsDisjoint(routes: set<Route>, rules: set<Rule>, uid: u16, ours: seq<PhysicalRoute>)
    requires forall f :: f in Families(ours) ==> Free(routes, rules, uid, f)
    ensures OwnedRoutes(uid, ours) !! routes && OwnedRules(uid, ours) !! rules
  {
    CommandsMean(uid, ours);
    forall r | r in OwnedRoutes(uid, ours)
      ensures r !in routes
    {
      assert r in routes ==> r in TableRoutes(routes, uid, r.family);
    }
    forall r | r in OwnedRules(uid, ours)
      ensures r !in rules
    {
      assert r in rules ==> r in PriorityRules(rules, uid, r.family);
    }
  }

  // ----- routes and rules together -----

  datatype Command = OfRoute(route: Route) | OfRule(rule: Rule)

  ghost function Commands(routes: set<Route>, rules: set<Rule>): set<Command> {
    (set r | r in routes :: OfRoute(r)) + set r | r in rules :: OfRule(r)
  }

  ghost function Owned(uid: u16, ours: seq<PhysicalRoute>): set<Command> {
    Commands(OwnedRoutes(uid, ours), OwnedRules(uid, ours))
  }

  /** What only the bypass of a user may use: our routes in its table, and its rules. */
  predicate BelongsTo(c: Command, uid: u16) {
    match c
    case OfRoute(r) => r.table == Table(uid) && r.protocol == ROUTE_PROTOCOL
    case OfRule(r) => r == RuleSpec(uid, r.family)
  }

  lemma OwnedBelongs(uid: u16, ours: seq<PhysicalRoute>)
    ensures forall c :: c in Owned(uid, ours) ==> BelongsTo(c, uid)
  {
    CommandsMean(uid, ours);
  }

  predicate Among(c: Command, routes: set<Route>, rules: set<Rule>) {
    match c
    case OfRoute(r) => r in routes
    case OfRule(r) => r in rules
  }

  lemma CommandsMember(routes: set<Route>, rules: set<Rule>)
    ensures forall c :: c in Commands(routes, rules) <==> Among(c, routes, rules)
  {
    forall c
      ensures c in Commands(routes, rules) <==> Among(c, routes, rules)
    {
      match c
      case OfRoute(r) => assert r in routes ==> OfRoute(r) in set r | r in routes :: OfRoute(r);
      case OfRule(r) => assert r in rules ==> OfRule(r) in set r | r in rules :: OfRule(r);
    }
  }

  lemma CommandsAlgebra(a: set<Route>, b: set<Route>, x: set<Rule>, y: set<Rule>)
    ensures Commands(a + b, x + y) == Commands(a, x) + Commands(b, y)
    ensures a <= b && x <= y ==> Commands(a, x) <= Commands(b, y)
    ensures a !! b && x !! y ==> Commands(a, x) !! Commands(b, y)
  {
    hide Commands;
    CommandsMember(a, x);
    CommandsMember(b, y);
    CommandsMember(a + b, x + y);
  }

  /** Fewer wanted routes own fewer commands. */
  lemma {:induction false} OwnedMonotone(uid: u16, part: seq<PhysicalRoute>, whole: seq<PhysicalRoute>)
    requires forall r :: r in part ==> r in whole
    ensures Owned(uid, part) <= Owned(uid, whole)
  {
    FamiliesMeans(part);
    FamiliesMeans(whole);
    forall c | c in OwnedRoutes(uid, part)
      ensures c in OwnedRoutes(uid, whole)
    {
      CommandSource(uid, part, c);
      CommandSource(uid, whole, c);
    }
    forall c | c in OwnedRules(uid, part)
      ensures c in OwnedRules(uid, whole)
    {
      var i :| 0 <= i < |part| && part[i].family == c.family;
      assert part[i] in whole;
    }
  }

  lemma {:induction false} CommandSource(uid: u16, routes: seq<PhysicalRoute>, c: Route)
    ensures c in OwnedRoutes(uid, routes) <==> exists r :: r in routes && c in RouteCommands(uid, r)
  {
    if routes != [] {
      var init, last := routes[..|routes| - 1], routes[|routes| - 1];
      assert routes == init + [last];
      CommandSource(uid, init, c);
      assert c in OwnedRoutes(uid, routes) <==> c in OwnedRoutes(uid, init) || c in RouteCommands(uid, last);
    }
  }

  // ----- the order of a removal -----

  /** Rules first, then the routes from the last one back. */
  function RemovalOrder(uid: u16, ours: seq<PhysicalRoute>): (order: seq<Command>)
    ensures |order| == |Families(ours)| + |AllCommands(uid, ours)|
  {
    var families, commands := Families(ours), AllCommands(uid, ours);
    seq(|families| + |commands|, i requires 0 <= i < |families| + |commands| =>
          if i < |families| then OfRule(RuleSpec(uid, families[i]))
          else OfRoute(commands[|commands| - 1 - (i - |families|)]))
  }

  ghost function First(order: seq<Command>, n: nat): set<Command>
    requires n <= |order|
  {
    set i | 0 <= i < n :: order[i]
  }

  lemma FirstStep(order: seq<Command>, n: nat)
    requires n < |order|
    ensures First(order, n + 1) == First(order, n) + {order[n]}
    ensures First(order, 0) == {}
  {
  }

  lemma FirstNothing(order: seq<Command>)
    ensures First(order, 0) == {}
  {
  }

  lemma FirstOwned(uid: u16, ours: seq<PhysicalRoute>, n: nat)
    requires n <= |RemovalOrder(uid, ours)|
    ensures First(RemovalOrder(uid, ours), n) <= Owned(uid, ours)
  {
    hide Owned, RemovalOrder;
    RemovalCovers(uid, ours);
    assert First(RemovalOrder(uid, ours), n) <= First(RemovalOrder(uid, ours), |RemovalOrder(uid, ours)|);
  }

  /** A removal covers exactly the commands of the bypass. */
  lemma RemovalCovers(uid: u16, ours: seq<PhysicalRoute>)
    ensures First(RemovalOrder(uid, ours), |RemovalOrder(uid, ours)|) == Owned(uid, ours)
  {
    var order, families, commands := RemovalOrder(uid, ours), Families(ours), AllCommands(uid, ours);
    forall c | c in Owned(uid, ours)
      ensures c in First(order, |order|)
    {
      match c
      case OfRoute(r) =>
        var k :| 0 <= k < |commands| && commands[k] == r;
        assert order[|families| + (|commands| - 1 - k)] == c;
      case OfRule(r) =>
        var k :| 0 <= k < |families| && RuleSpec(uid, families[k]) == r;
        assert order[k] == c;
    }
    assert forall k :: 0 <= k < |order| ==> order[k] in Owned(uid, ours);
  }

  lemma {:induction false} CommandsDiffer(uid: u16, ours: seq<PhysicalRoute>)
    requires DistinctFamilies(ours)
    ensures forall i, j :: 0 <= i < j < |AllCommands(uid, ours)| ==>
              AllCommands(uid, ours)[i] != AllCommands(uid, ours)[j]
  {
    if ours != [] {
      var init, last := ours[..|ours| - 1], ours[|ours| - 1];
      CommandsDiffer(uid, init);
      CommandsMean(uid, init);
      FamiliesMeans(init);
      assert forall c :: c in AllCommands(uid, init) ==> c.family != last.family;
      assert forall c :: c in RouteCommands(uid, last) ==> c.family == last.family;
    }
  }

  /**
   A removal that stops after `n` commands of a bypass that was wholly
   installed leaves some of it behind exactly when it stops early.
   */
  lemma StoppedRemovalLeaves(before: set<Command>, uid: u16, ours: seq<PhysicalRoute>, n: nat)
    requires DistinctFamilies(ours) && Owned(uid, ours) <= before && n <= |RemovalOrder(uid, ours)|
    ensures before - First(RemovalOrder(uid, ours), n) !! Owned(uid, ours) <==> n == |RemovalOrder(uid, ours)|
  {
    hide AllCommands, Families, RemovalOrder, Owned;
    var order := RemovalOrder(uid, ours);
    RemovalCovers(uid, ours);
    OrderDiffers(uid, ours);
    if n < |order| {
      assert order[n] in First(order, |order|) && order[n] !in First(order, n);
    }
  }

  lemma OrderDiffers(uid: u16, ours: seq<PhysicalRoute>)
    requires DistinctFamilies(ours)
    ensures var order := RemovalOrder(uid, ours);
            forall i, j :: 0 <= i < j < |order| ==> order[i] != order[j]
  {
    hide AllCommands, Families;
    CommandsDiffer(uid, ours);
    FamiliesMeans(ours);
  }

  lemma FreeMeans(routes: set<Route>, rules: set<Rule>, uid: u16, family: AddressFamily)
    ensures Free(routes, rules, uid, family) <==>
              && (forall r :: r in routes && r.family == family ==> r.table != Table(uid))
              && forall r :: r in rules && r.family == family ==> r.priority != Priority(uid)
  {
    if Free(routes, rules, uid, family) {
      forall r | r in routes && r.family == family ensures r.table != Table(uid) {
        assert r !in TableRoutes(routes, uid, family);
      }
      forall r | r in rules && r.family == family ensures r.priority != Priority(uid) {
        assert r !in PriorityRules(rules, uid, family);
      }
    }
  }

  lemma FamilyOwnsNothing(uid: u16, ours: seq<PhysicalRoute>, i: nat)
    requires DistinctFamilies(ours) && i < |ours|
    ensures forall c :: c in RouteCommands(uid, ours[i]) ==> c !in OwnedRoutes(uid, ours[..i])
  {
    CommandsMean(uid, ours[..i]);
    FamiliesMeans(ours[..i]);
  }

  /** On tables that were free, and that others leave alone, the verification finds our commands alone. */
  lemma VerifiedUnlessOthers(routes: set<Route>, rules: set<Rule>, uid: u16, ours: seq<PhysicalRoute>,
                             othersRoutes: set<Route>, othersRules: set<Rule>)
    requires DistinctFamilies(ours)
    requires OwnedRoutes(uid, ours) !! othersRoutes && OwnedRules(uid, ours) !! othersRules
    requires forall f :: f in Families(ours) ==> Free(routes, rules, uid, f)
    ensures var after, ranked := routes + OwnedRoutes(uid, ours) + othersRoutes, rules + OwnedRules(uid, ours) + othersRules;
            (forall f :: f in Families(ours) ==>
               && Verified(after, ranked, uid, f, ours)
               && forall r :: r in TableRoutes(after, uid, f) ==> r.protocol == ROUTE_PROTOCOL)
            <==> forall f :: f in Families(ours) ==> Free(othersRoutes, othersRules, uid, f)
  {
    hide AllCommands, Families;
    var after, ranked := routes + OwnedRoutes(uid, ours) + othersRoutes, rules + OwnedRules(uid, ours) + othersRules;
    CommandsMean(uid, ours);
    forall f | f in Families(ours)
      ensures (Verified(after, ranked, uid, f, ours)
               && forall r :: r in TableRoutes(after, uid, f) ==> r.protocol == ROUTE_PROTOCOL)
          <==> Free(othersRoutes, othersRules, uid, f)
    {
      VerifiedInFamily(routes, rules, uid, ours, othersRoutes, othersRules, f);
    }
  }

  lemma VerifiedInFamily(routes: set<Route>, rules: set<Rule>, uid: u16, ours: seq<PhysicalRoute>,
                         othersRoutes: set<Route>, othersRules: set<Rule>, f: AddressFamily)
    requires DistinctFamilies(ours) && f in Families(ours) && Free(routes, rules, uid, f)
    requires OwnedRoutes(uid, ours) !! othersRoutes && OwnedRules(uid, ours) !! othersRules
    ensures var after, ranked := routes + OwnedRoutes(uid, ours) + othersRoutes, rules + OwnedRules(uid, ours) + othersRules;
            (Verified(after, ranked, uid, f, ours)
             && forall r :: r in TableRoutes(after, uid, f) ==> r.protocol == ROUTE_PROTOCOL)
            <==> Free(othersRoutes, othersRules, uid, f)
  {
    hide AllCommands, Families, Expected, OwnedRoutes, OwnedRules, TableRoutes, PriorityRules, DistinctFamilies;
    var after, ranked := routes + OwnedRoutes(uid, ours) + othersRoutes, rules + OwnedRules(uid, ours) + othersRules;
    VerifiedIsOurs(after, ranked, uid, f, ours);
    RoutesInTable(routes, uid, ours, othersRoutes, f);
    RulesAtPriority(rules, uid, ours, othersRules, f);
  }

  lemma RoutesInTable(routes: set<Route>, uid: u16, ours: seq<PhysicalRoute>, others: set<Route>, f: AddressFamily)
    requires TableRoutes(routes, uid, f) == {} && OwnedRoutes(uid, ours) !! others
    ensures var after := routes + OwnedRoutes(uid, ours) + others;
            (TableRoutes(after, uid, f) == TableRoutes(OwnedRoutes(uid, ours), uid, f) <==> TableRoutes(others, uid, f) == {})
            && forall r :: r in TableRoutes(OwnedRoutes(uid, ours), uid, f) ==> r.protocol == ROUTE_PROTOCOL
  {
    hide AllCommands, TableRoutes;
    CommandsMean(uid, ours);
    TableOfBoth(routes, OwnedRoutes(uid, ours), uid, f);
    TableOfBoth(routes + OwnedRoutes(uid, ours), others, uid, f);
    TableOfBoth(OwnedRoutes(uid, ours), others, uid, f);
  }

  lemma TableOfBoth(a: set<Route>, b: set<Route>, uid: u16, f: AddressFamily)
    ensures TableRoutes(a + b, uid, f) == TableRoutes(a, uid, f) + TableRoutes(b, uid, f)
    ensures a !! b ==> TableRoutes(a, uid, f) !! TableRoutes(b, uid, f)
    ensures TableRoutes(a, uid, f) <= a
  {
  }

  lemma RulesAtPriority(rules: set<Rule>, uid: u16, ours: seq<PhysicalRoute>, others: set<Rule>, f: AddressFamily)
    requires PriorityRules(rules, uid, f) == {} && OwnedRules(uid, ours) !! others && f in Families(ours)
    ensures var ranked := rules + OwnedRules(uid, ours) + others;
            PriorityRules(ranked, uid, f) == {RuleSpec(uid, f)} <==> PriorityRules(others, uid, f) == {}
  {
    hide Families;
    var rule, theirs := PriorityRules(OwnedRules(uid, ours), uid, f), PriorityRules(others, uid, f);
    assert RuleSpec(uid, f) in OwnedRules(uid, ours);
    assert rule == {RuleSpec(uid, f)};
    assert PriorityRules(rules + OwnedRules(uid, ours) + others, uid, f) == rule + theirs && rule !! theirs;
  }

  /** The routing state of the kernel, as every program on the host sees it. */
  class KernelRouting {
    var routes: set<Route>
    var rules: set<Rule>
    ghost var faults: nat                      // history: the commands and readings that failed for no reason of ours

    ghost function Held(): set<Command>
      reads this
    {
      Commands(routes, rules)
    }

    method AddRoute(c: Route) returns (ok: bool)
      modifies this`routes, this`faults
      ensures faults >= old(faults) && (ok <==> faults == old(faults) && c !in old(routes))
      ensures routes == if ok then old(routes) + {c} else old(routes)
    {
      ok := *;
      if !ok {
        faults := faults + 1;
      } else if c in routes {
        ok := false;    // the kernel refuses an existing route
      } else {
        routes := routes + {c};
      }
    }

    /** An absent route counts as deleted. */
    method DeleteRoute(c: Route) returns (ok: bool)
      modifies this`routes, this`faults
      ensures faults >= old(faults) && (ok <==> faults == old(faults))
      ensures routes == if ok then old(routes) - {c} else old(routes)
    {
      ok := *;
      if ok {
        routes := routes - {c};
      } else {
        faults := faults + 1;
      }
    }

    method AddRule(c: Rule) returns (ok: bool)
      modifies this`rules, this`faults
      ensures faults >= old(faults) && (ok <==> faults == old(faults) && c !in old(rules))
      ensures rules == if ok then old(rules) + {c} else old(rules)
    {
      ok := *;
      if !ok {
        faults := faults + 1;
      } else if c in rules {
        ok := false;
      } else {
        rules := rules + {c};
      }
    }

    method DeleteRule(c: Rule) returns (ok: bool)
      modifies this`rules, this`faults
      ensures faults >= old(faults) && (ok <==> faults == old(faults))
      ensures rules == if ok then old(rules) - {c} else old(rules)
    {
      ok := *;
      if ok {
        rules := rules - {c};
      } else {
        faults := faults + 1;
      }
    }

    /**
     Deletes the commands of the routes given, rules first, and stops at the
     first failure: `done` of them are gone.
     */
    method Disable(uid: u16, ours: seq<PhysicalRoute>) returns (ok: bool, ghost done: nat)
      modifies this
      ensures faults >= old(faults) && (ok <==> faults == old(faults))
      ensures done <= |RemovalOrder(uid, ours)| && (ok <==> done == |RemovalOrder(uid, ours)|)
      ensures Held() == old(Held()) - First(RemovalOrder(uid, ours), done)
      ensures old(routes) - OwnedRoutes(uid, ours) <= routes <= old(routes)
      ensures old(rules) - OwnedRules(uid, ours) <= rules <= old(rules)
      ensures ok ==> routes == old(routes) - OwnedRoutes(uid, ours) && rules == old(rules) - OwnedRules(uid, ours)
      ensures ok ==> Held() == old(Held()) - Owned(uid, ours)
      ensures old(Held()) - Owned(uid, ours) <= Held() <= old(Held())
    {
      hide AllCommands, Families;
      var families := Families(ours);
      ghost var order := RemovalOrder(uid, ours);
      RemovalCovers(uid, ours);
      for i := 0 to |families|
        invariant routes == old(routes) && faults == old(faults)
        invariant rules == old(rules) - set f | f in families[..i] :: RuleSpec(uid, f)
        invariant Held() == old(Held()) - First(order, i)
      {
        assert families[..i + 1] == families[..i] + [families[i]];
        FirstStep(order, i);
        ok := DeleteRule(RuleSpec(uid, families[i]));
        if !ok {
          done := i;
          return;
        }
      }
      assert families[..|families|] == families;
      ok, done := DisableRoutes(uid, ours);
    }

    method DisableRoutes(uid: u16, ours: seq<PhysicalRoute>) returns (ok: bool, ghost done: nat)
      modifies this`routes, this`faults
      ensures faults >= old(faults) && (ok <==> faults == old(faults))
      ensures |Families(ours)| <= done <= |RemovalOrder(uid, ours)| && (ok <==> done == |RemovalOrder(uid, ours)|)
      ensures Held() == old(Held()) - (First(RemovalOrder(uid, ours), done)
                                       - First(RemovalOrder(uid, ours), |Families(ours)|))
      ensures old(routes) - OwnedRoutes(uid, ours) <= routes <= old(routes)
      ensures ok ==> routes == old(routes) - OwnedRoutes(uid, ours)
    {
      hide AllCommands, Families;
      var commands := AllCommands(uid, ours);
      ghost var order, rest := RemovalOrder(uid, ours), |Families(ours)|;
      done := rest;
      for i := |commands| downto 0
        invariant routes == old(routes) - (set c | c in commands[i..]) && faults == old(faults)
        invariant done == rest + (|commands| - i)
        invariant Held() == old(Held()) - (First(order, done) - First(order, rest))
      {
        assert commands[i..] == [commands[i]] + commands[i + 1..];
        FirstStep(order, done);
        assert order[done] == OfRoute(commands[i]) && OfRoute(commands[i]) !in First(order, rest);
        ok := DeleteRoute(commands[i]);
        if !ok {
          return;
        }
        done := done + 1;
      }
      assert commands[0..] == commands;
      ok := true;
    }

    /** Adds the commands of one route, and takes them back when one fails. */
    method InstallRoute(uid: u16, r: PhysicalRoute) returns (ok: bool)
      modifies this`routes, this`faults
      ensures faults >= old(faults)
      ensures ok <==> faults == old(faults) && forall c :: c in RouteCommands(uid, r) ==> c !in old(routes)
      ensures old(routes) <= routes <= old(routes) + set c | c in RouteCommands(uid, r)
      ensures ok ==> routes == old(routes) + set c | c in RouteCommands(uid, r)
    {
      var commands := RouteCommands(uid, r);
      for i := 0 to |commands|
        invariant routes == old(routes) + set c | c in commands[..i]
        invariant forall k :: 0 <= k < i ==> commands[k] !in old(routes)
        invariant faults == old(faults)
      {
        assert commands[..i + 1] == commands[..i] + [commands[i]];
        ok := AddRoute(commands[i]);
        if !ok {
          for j := i downto 0
            invariant old(routes) <= routes <= old(routes) + set c | c in commands
            invariant faults >= old(faults) && (faults == old(faults) ==> commands[i] in old(routes))
          {
            var _ := DeleteRoute(commands[j]);
          }
          return;
        }
      }
      assert commands[..|commands|] == commands;
      ok := true;
    }

    method InstallRoutes(uid: u16, ours: seq<PhysicalRoute>) returns (ok: bool)
      requires DistinctFamilies(ours)
      modifies this`routes, this`faults
      ensures faults >= old(faults) && (ok <==> faults == old(faults) && OwnedRoutes(uid, ours) !! old(routes))
      ensures old(routes) <= routes <= old(routes) + OwnedRoutes(uid, ours)
      ensures ok ==> routes == old(routes) + OwnedRoutes(uid, ours)
    {
      for i := 0 to |ours|
        invariant routes == old(routes) + OwnedRoutes(uid, ours[..i])
        invariant faults == old(faults) && OwnedRoutes(uid, ours[..i]) !! old(routes)
      {
        CommandsOfEach(uid, ours, i);
        CommandsOfEach(uid, ours, i + 1);
        FamilyOwnsNothing(uid, ours, i);
        ok := InstallRoute(uid, ours[i]);
        if !ok {
          return;
        }
      }
      assert ours[..|ours|] == ours;
      ok := true;
    }

    method InstallRules(uid: u16, ours: seq<PhysicalRoute>) returns (ok: bool)
      modifies this`rules, this`faults
      ensures faults >= old(faults) && (ok <==> faults == old(faults) && OwnedRules(uid, ours) !! old(rules))
      ensures old(rules) <= rules <= old(rules) + OwnedRules(uid, ours)
      ensures ok ==> rules == old(rules) + OwnedRules(uid, ours)
    {
      hide Families;
      FamiliesMeans(ours);
      var families := Families(ours);
      for i := 0 to |families|
        invariant rules == old(rules) + set f | f in families[..i] :: RuleSpec(uid, f)
        invariant faults == old(faults) && forall k :: 0 <= k < i ==> RuleSpec(uid, families[k]) !in old(rules)
      {
        assert families[..i + 1] == families[..i] + [families[i]];
        ok := AddRule(RuleSpec(uid, families[i]));
        if !ok {
          assert RuleSpec(uid, families[i]) in OwnedRules(uid, ours);
          return;
        }
      }
      assert families[..|families|] == families;
      ok := true;
    }

    /** The inventories of every family are read, and are empty. */
    method EnsureAvailable(uid: u16, ours: seq<PhysicalRoute>) returns (ok: bool)
      modifies this`faults
      ensures faults >= old(faults)
      ensures ok <==> faults == old(faults) && forall f :: f in Families(ours) ==> Free(routes, rules, uid, f)
    {
      var families := Families(ours);
      for i := 0 to |families|
        invariant forall k :: 0 <= k < i ==> Free(routes, rules, uid, families[k])
        invariant faults == old(faults)
      {
        var f := families[i];
        ok := *;
        if !ok {
          faults := faults + 1;
          return;
        }
        if (exists r :: r in routes && r.family == f && r.table == Table(uid))
           || (exists r :: r in rules && r.family == f && r.priority == Priority(uid)) {
          FreeMeans(routes, rules, uid, f);
          assert f in families;
          return false;
        }
      }
      ok := true;
    }

    /** The inventories of every family are read again, and hold our commands alone. */
    method VerifyOwnership(uid: u16, ours: seq<PhysicalRoute>) returns (ok: bool)
      modifies this`faults
      ensures faults >= old(faults)
      ensures ok <==> && faults == old(faults)
                      && forall f :: f in Families(ours) ==>
                           && Verified(routes, rules, uid, f, ours)
                           && forall r :: r in TableRoutes(routes, uid, f) ==> r.protocol == ROUTE_PROTOCOL
    {
      var families := Families(ours);
      for i := 0 to |families|
        invariant faults == old(faults)
        invariant forall k :: 0 <= k < i ==>
                    && Verified(routes, rules, uid, families[k], ours)
                    && forall r :: r in TableRoutes(routes, uid, families[k]) ==> r.protocol == ROUTE_PROTOCOL
      {
        var f := families[i];
        ok := *;
        if !ok {
          faults := faults + 1;
          return;
        }
        var listed := set r | r in routes && r.family == f && r.table == Table(uid);
        var ranked := set r | r in rules && r.family == f && r.priority == Priority(uid);
        assert listed == TableRoutes(routes, uid, f) && ranked == PriorityRules(rules, uid, f) && f in families;
        if |listed| != Expected(uid, ours, f) || (exists r :: r in listed && r.protocol != ROUTE_PROTOCOL)
           || |ranked| != 1 {
          return false;
        }
      }
      ok := true;
    }

    /**
     Installs the bypass of a user. `othersRoutes` and `othersRules` are what
     other programs add meanwhile. Success means the tables of the user were
     free, hold exactly our commands now, and nothing else changed. When a step
     fails and the deletions succeed, only the additions of others remain; in
     general `added` has come and the first `reached` deletions are done. Nothing
     but a command that fails, no route to use, tables in use before or others
     putting something into them meanwhile makes it fail.
     */
    method Enable(uid: u16, wanted: seq<PhysicalRoute>, othersRoutes: set<Route>, othersRules: set<Rule>)
      returns (installed: Option<seq<PhysicalRoute>>, restored: bool, ghost added: set<Command>, ghost reached: nat)
      requires OwnedRoutes(uid, PreferredRoutes(wanted)) !! othersRoutes
      requires OwnedRules(uid, PreferredRoutes(wanted)) !! othersRules
      modifies this
      ensures faults >= old(faults) && (!restored ==> faults > old(faults))
      ensures installed.Some? <==>
                && faults == old(faults) && PreferredRoutes(wanted) != []
                && forall f :: f in Families(PreferredRoutes(wanted)) ==>
                     Free(old(routes), old(rules), uid, f) && Free(othersRoutes, othersRules, uid, f)
      ensures reached <= |RemovalOrder(uid, PreferredRoutes(wanted))|
      ensures installed.None? ==>
                && Held() == old(Held()) + added - First(RemovalOrder(uid, PreferredRoutes(wanted)), reached)
                && added !! old(Held())
                && ((added == {} && reached == 0) || Owned(uid, PreferredRoutes(wanted)) !! old(Held()))
      ensures old(routes) <= routes && old(rules) <= rules
      ensures installed.Some? ==>
                && installed.value == PreferredRoutes(wanted) != []
                && routes == old(routes) + OwnedRoutes(uid, installed.value) + othersRoutes
                && rules == old(rules) + OwnedRules(uid, installed.value) + othersRules
                && OwnedRoutes(uid, installed.value) !! old(routes)
                && OwnedRules(uid, installed.value) !! old(rules)
                && forall f :: f in Families(installed.value) ==>
                     && TableRoutes(routes, uid, f) == TableRoutes(OwnedRoutes(uid, installed.value), uid, f)
                     && PriorityRules(rules, uid, f) == {RuleSpec(uid, f)}
      ensures installed.Some? ==> forall f :: f in Families(installed.value) ==> Free(old(routes), old(rules), uid, f)
      ensures installed.None? && restored ==>
                || (routes == old(routes) && rules == old(rules))
                || (routes == old(routes) + othersRoutes && rules == old(rules) + othersRules)
      ensures routes <= old(routes) + OwnedRoutes(uid, PreferredRoutes(wanted)) + othersRoutes
      ensures rules <= old(rules) + OwnedRules(uid, PreferredRoutes(wanted)) + othersRules
    {
      hide Commands, Families, AllCommands, RemovalOrder, First;
      var ours := PreferredRoutes(wanted);
      ghost var held := Held();
      installed, restored, added, reached := None, true, {}, 0;
      FirstNothing(RemovalOrder(uid, ours));
      if ours == [] {
        return;
      }
      var ok := EnsureAvailable(uid, ours);
      if !ok {
        return;
      }
      FreeIsDisjoint(routes, rules, uid, ours);
      CommandsAlgebra(OwnedRoutes(uid, ours), routes, OwnedRules(uid, ours), rules);
      ok := InstallRoutes(uid, ours);
      if ok {
        ok := InstallRules(uid, ours);
      }
      if ok {
        routes, rules := routes + othersRoutes, rules + othersRules;
        VerifiedUnlessOthers(old(routes), old(rules), uid, ours, othersRoutes, othersRules);
        ok := VerifyOwnership(uid, ours);
      }
      if !ok {
        CommandsAlgebra(old(routes), routes, old(rules), rules);
        added := Held() - held;
        restored, reached := Disable(uid, ours);
        return;
      }
      forall f | f in Families(ours)
        ensures TableRoutes(routes, uid, f) == TableRoutes(OwnedRoutes(uid, ours), uid, f)
        ensures PriorityRules(rules, uid, f) == {RuleSpec(uid, f)}
      {
        VerifiedIsOurs(routes, rules, uid, f, ours);
      }
      installed := Some(ours);
    }

    /**
     Installs the bypass of a user while no other program is at work. After a
     failure the kernel is as before exactly when the deletions reached every
     command that had been added.
     */
    method Install(uid: u16, wanted: seq<PhysicalRoute>)
      returns (installed: Option<seq<PhysicalRoute>>, restored: bool, ghost added: set<Command>, ghost reached: nat)
      modifies this
      ensures faults >= old(faults) && (!restored ==> faults > old(faults))
      ensures installed.Some? <==>
                && faults == old(faults) && PreferredRoutes(wanted) != []
                && forall f :: f in Families(PreferredRoutes(wanted)) ==> Free(old(routes), old(rules), uid, f)
      ensures installed.Some? ==>
                && installed.value == PreferredRoutes(wanted) != []
                && Held() == old(Held()) + Owned(uid, installed.value)
                && Owned(uid, installed.value) !! old(Held())
      ensures installed.Some? ==>
                forall f :: f in Families(installed.value) ==> Free(old(routes), old(rules), uid, f)
      ensures installed.None? ==> old(Held()) <= Held() <= old(Held()) + Owned(uid, PreferredRoutes(wanted))
      ensures installed.None? && restored ==> Held() == old(Held())
      ensures reached <= |RemovalOrder(uid, PreferredRoutes(wanted))|
      ensures installed.None? ==>
                (Held() == old(Held()) <==> added <= First(RemovalOrder(uid, PreferredRoutes(wanted)), reached))
    {
      hide OwnedRoutes, OwnedRules, Commands, Free, RemovalOrder, First;
      ghost var ours, held := PreferredRoutes(wanted), Held();
      ghost var mine, rule := OwnedRoutes(uid, ours), OwnedRules(uid, ours);
      installed, restored, added, reached := Enable(uid, wanted, {}, {});
      CommandsAlgebra(old(routes), mine, old(rules), rule);
      CommandsAlgebra(mine, old(routes), rule, old(rules));
      CommandsAlgebra(old(routes), routes, old(rules), rules);
      CommandsAlgebra(routes, old(routes) + mine, rules, old(rules) + rule);
      FirstOwned(uid, ours, reached);
      FirstNothing(RemovalOrder(uid, ours));
      forall f ensures Free({}, {}, uid, f) {
        FreeMeans({}, {}, uid, f);
      }
      if installed.Some? {
        assert routes == old(routes) + mine && rules == old(rules) + rule;
      } else if restored {
        assert old(routes) + {} == old(routes) && old(rules) + {} == old(rules);
      }
    }
  }

  /** Enabling on a free table and then disabling the result is the identity. */
  method EnableThenDisable(kernel: KernelRouting, uid: u16, wanted: seq<PhysicalRoute>)
    returns (installed: Option<seq<PhysicalRoute>>, disabled: bool)
    modifies kernel
    ensures disabled <==> installed.Some? && kernel.faults == old(kernel.faults)
    ensures installed.Some? && disabled ==>
              kernel.routes == old(kernel.routes) && kernel.rules == old(kernel.rules)
  {
    var restored;
    ghost var added, reached;
    installed, restored, added, reached := kernel.Enable(uid, wanted, {}, {});
    disabled := false;
    if installed.Some? {
      ghost var done;
      disabled, done := kernel.Disable(uid, installed.value);
    }
  }
}
