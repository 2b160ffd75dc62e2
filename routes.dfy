/**
 * What `setup` registers with the web server. Each `svr->on(path, handler)` call
 * becomes a Route: the path and the action (object and bound member) it dispatches
 * to. The setup methods of the object tree append exactly SetupRoutes(nodes, j);
 * the counting theorem at the end says every endpoint of every object of the
 * subtree is registered once and nothing else is.
 */
module Routes {
  import opened Wrappers
  import opened ClassTypes
  import opened Nodes

  /** The member functions the lambdas passed to `svr->on` call. */
  datatype Endpoint =
    | Styles          // RootDevice::styles
    | DisplayRoot     // RootDevice::displayRoot
    | Display         // display() of a device
    | HandleRequest   // UPnPService::handleRequest
    | ConfigForm      // SetConfiguration's _formHandler
    | DisplayControl  // Control::displayControl
    | SetState        // setState of the example controls

  datatype Action = Action(node: nat, endpoint: Endpoint)

  datatype Route = Route(path: string, action: Action)

  predicate IsControlKind(k: Kind) { k.Control? || k.SimpleControl? || k.CustomControl? }

  predicate IsSensorKind(k: Kind) { k.Sensor? || k.SimpleSensor? || k.SensorWithConfig? }

  /** The classes that override setup to add `setState`. */
  predicate HasSetState(k: Kind) { k.SimpleControl? || k.CustomControl? }

  /** The kind tests above are the library's `as(Control::classType())` and
      `as(Sensor::classType())` checks. */
  lemma KindTestsAreTypeChecks(k: Kind)
    ensures IsControlKind(k) <==> IsClassType(k, Some(Control))
    ensures IsSensorKind(k) <==> IsClassType(k, Some(Sensor))
  {
    IsClassTypeIsLineage(k, Some(Control));
    IsClassTypeIsLineage(k, Some(Sensor));
  }

  /** Endpoints registered before the children are set up. */
  function PreEndpoints(k: Kind): set<Endpoint> {
    if k.RootDevice? then {Styles, DisplayRoot, Display}
    else if IsServiceKind(k) then (if k.SetConfiguration? then {HandleRequest, ConfigForm} else {HandleRequest})
    else {Display}
  }

  /** Endpoints registered after the services (Control::setup and its overrides). */
  function PostEndpoints(k: Kind): set<Endpoint> {
    if IsControlKind(k) then (if HasSetState(k) then {DisplayControl, SetState} else {DisplayControl})
    else {}
  }

  /** Every endpoint an object of class k binds in its own setup. */
  function OwnEndpoints(k: Kind): set<Endpoint> { PreEndpoints(k) + PostEndpoints(k) }

  predicate Owns(nodes: seq<Node>, a: Action) {
    a.node < |nodes| && a.endpoint in OwnEndpoints(nodes[a.node].kind)
  }

  function On(path: string, j: nat, e: Endpoint): seq<Route> { [Route(path, Action(j, e))] }

  /** The routes j binds itself before its children:
      RootDevice::setup: "/styles.css", "/", "/"+target (sprintf, never cut: the target has at most 31 characters);
      UPnPService::setup: its path; SetConfiguration::setup: then its form path;
      UPnPDevice::setup: its path. */
  function PreRoutes(nodes: seq<Node>, j: nat): seq<Route>
    requires WellFormed(nodes) && j < |nodes|
  {
    var n := nodes[j];
    if n.kind.RootDevice? then
      On("/styles.css", j, Styles) + On("/", j, DisplayRoot) + On("/" + n.target, j, Display)
    else if IsServiceKind(n.kind) then
      On(GetPath(nodes, j, PATH_SIZE), j, HandleRequest) +
      (if n.kind.SetConfiguration? then On(FormPath(nodes, j), j, ConfigForm) else [])
    else On(GetPath(nodes, j, PATH_SIZE), j, Display)
  }

  /** The routes bound after the services: Control::setup's content path, then the
      example controls' setState path. */
  function PostRoutes(nodes: seq<Node>, j: nat): seq<Route>
    requires WellFormed(nodes) && j < |nodes|
  {
    var k := nodes[j].kind;
    if IsControlKind(k) then
      On(ContentPath(nodes, j), j, DisplayControl) +
      (if HasSetState(k) then On(SetStatePath(nodes, j), j, SetState) else [])
    else []
  }

  predicate AllIn(nodes: seq<Node>, ss: seq<nat>) { forall k :: 0 <= k < |ss| ==> ss[k] < |nodes| }

  /** `for (i = 0; i < numServices(); i++) service(i)->setup(svr);` */
  function AllServices(nodes: seq<Node>, ss: seq<nat>): seq<Route>
    requires WellFormed(nodes) && AllIn(nodes, ss)
  {
    if ss == [] then [] else AllServices(nodes, ss[..|ss| - 1]) + PreRoutes(nodes, ss[|ss| - 1])
  }

  /** A device's setup: its own routes around its services' setups. */
  function DeviceRoutes(nodes: seq<Node>, d: nat): seq<Route>
    requires WellFormed(nodes) && d < |nodes|
  {
    assert NodeOk(nodes, d);
    PreRoutes(nodes, d) + AllServices(nodes, nodes[d].services) + PostRoutes(nodes, d)
  }

  /** `for (i = 0; i < _numDevices; i++) device(i)->setup(svr);` */
  function AllDevices(nodes: seq<Node>, ds: seq<nat>): seq<Route>
    requires WellFormed(nodes) && AllIn(nodes, ds)
  {
    if ds == [] then [] else AllDevices(nodes, ds[..|ds| - 1]) + DeviceRoutes(nodes, ds[|ds| - 1])
  }

  /** RootDevice::setup: its three routes, then its services, then its devices. */
  function RootRoutes(nodes: seq<Node>, r: nat): seq<Route>
    requires WellFormed(nodes) && r < |nodes|
  {
    assert NodeOk(nodes, r);
    PreRoutes(nodes, r) + AllServices(nodes, nodes[r].services) + AllDevices(nodes, nodes[r].devices)
  }

  /** The routes `setup` of object j registers, by its class. */
  function SetupRoutes(nodes: seq<Node>, j: nat): seq<Route>
    requires WellFormed(nodes) && j < |nodes|
  {
    if IsServiceKind(nodes[j].kind) then PreRoutes(nodes, j)
    else if nodes[j].kind.RootDevice? then RootRoutes(nodes, j)
    else DeviceRoutes(nodes, j)
  }

  /* ---------- counting ---------- */

  /** How many registered routes dispatch to action a. */
  function CountAction(rs: seq<Route>, a: Action): nat {
    if rs == [] then 0
    else CountAction(rs[..|rs| - 1], a) + (if rs[|rs| - 1].action == a then 1 else 0)
  }

  lemma {:induction false} CountAppend(xs: seq<Route>, ys: seq<Route>, a: Action)
    ensures CountAction(xs + ys, a) == CountAction(xs, a) + CountAction(ys, a)
  {
    if ys != [] {
      assert (xs + ys)[..|xs + ys| - 1] == xs + ys[..|ys| - 1];
      CountAppend(xs, ys[..|ys| - 1], a);
    } else {
      assert xs + ys == xs;
    }
  }

  lemma CountOn(path: string, j: nat, e: Endpoint, a: Action)
    ensures CountAction(On(path, j, e), a) == if a == Action(j, e) then 1 else 0
  {
    assert On(path, j, e)[..0] == [];
  }

  lemma PreCount(nodes: seq<Node>, j: nat, a: Action)
    requires WellFormed(nodes) && j < |nodes|
    ensures CountAction(PreRoutes(nodes, j), a) ==
      if a.node == j && a.endpoint in PreEndpoints(nodes[j].kind) then 1 else 0
  {
    var n := nodes[j];
    if n.kind.RootDevice? {
      var r1, r2, r3 := On("/styles.css", j, Styles), On("/", j, DisplayRoot), On("/" + n.target, j, Display);
      CountAppend(r1 + r2, r3, a);
      CountAppend(r1, r2, a);
      CountOn("/styles.css", j, Styles, a);
      CountOn("/", j, DisplayRoot, a);
      CountOn("/" + n.target, j, Display, a);
    } else if IsServiceKind(n.kind) {
      var r1 := On(GetPath(nodes, j, PATH_SIZE), j, HandleRequest);
      var r2 := if n.kind.SetConfiguration? then On(FormPath(nodes, j), j, ConfigForm) else [];
      CountAppend(r1, r2, a);
      CountOn(GetPath(nodes, j, PATH_SIZE), j, HandleRequest, a);
      CountOn(FormPath(nodes, j), j, ConfigForm, a);
    } else {
      CountOn(GetPath(nodes, j, PATH_SIZE), j, Display, a);
    }
  }

  lemma PostCount(nodes: seq<Node>, j: nat, a: Action)
    requires WellFormed(nodes) && j < |nodes|
    ensures CountAction(PostRoutes(nodes, j), a) ==
      if a.node == j && a.endpoint in PostEndpoints(nodes[j].kind) then 1 else 0
  {
    var k := nodes[j].kind;
    if IsControlKind(k) {
      var r1 := On(ContentPath(nodes, j), j, DisplayControl);
      var r2 := if HasSetState(k) then On(SetStatePath(nodes, j), j, SetState) else [];
      CountAppend(r1, r2, a);
      CountOn(ContentPath(nodes, j), j, DisplayControl, a);
      CountOn(SetStatePath(nodes, j), j, SetState, a);
    }
  }

  /** A service binds only its own endpoints, once each. */
  lemma ServiceCount(nodes: seq<Node>, j: nat, a: Action)
    requires WellFormed(nodes) && j < |nodes| && IsServiceKind(nodes[j].kind)
    ensures CountAction(PreRoutes(nodes, j), a) == if a.node == j && Owns(nodes, a) then 1 else 0
  {
    PreCount(nodes, j, a);
    assert PostEndpoints(nodes[j].kind) == {};
  }

  /** Dropping the last index of a list keeps it inside the arena and free of repeats. */
  lemma DropLast(nodes: seq<Node>, ss: seq<nat>)
    requires AllIn(nodes, ss) && NoDup(ss) && ss != []
    ensures AllIn(nodes, ss[..|ss| - 1]) && NoDup(ss[..|ss| - 1])
    ensures ss[|ss| - 1] !in ss[..|ss| - 1]
    ensures forall x :: x in ss <==> x in ss[..|ss| - 1] || x == ss[|ss| - 1]
  {
    var init := ss[..|ss| - 1];
    assert ss == init + [ss[|ss| - 1]];
  }

  /** The services of a list, each set up once. */
  lemma {:induction false} AllServicesCount(nodes: seq<Node>, ss: seq<nat>, a: Action)
    requires WellFormed(nodes) && AllIn(nodes, ss) && NoDup(ss)
    requires forall k :: 0 <= k < |ss| ==> IsServiceKind(nodes[ss[k]].kind)
    ensures CountAction(AllServices(nodes, ss), a) == if a.node in ss && Owns(nodes, a) then 1 else 0
  {
    if ss != [] {
      var init, last := ss[..|ss| - 1], ss[|ss| - 1];
      DropLast(nodes, ss);
      assert forall k :: 0 <= k < |init| ==> IsServiceKind(nodes[init[k]].kind) by {
        forall k | 0 <= k < |init| ensures IsServiceKind(nodes[init[k]].kind) {
          assert init[k] == ss[k];
        }
      }
      AllServicesCount(nodes, init, a);
      CountAppend(AllServices(nodes, init), PreRoutes(nodes, last), a);
      ServiceCount(nodes, last, a);
    }
  }

  /** A device's routes: its own endpoints and those of its services, once each. */
  lemma DeviceCount(nodes: seq<Node>, d: nat, a: Action)
    requires WellFormed(nodes) && d < |nodes| && IsDeviceKind(nodes[d].kind)
    ensures CountAction(DeviceRoutes(nodes, d), a) ==
      if (a.node == d || a.node in nodes[d].services) && Owns(nodes, a) then 1 else 0
  {
    assert NodeOk(nodes, d);
    var ss := nodes[d].services;
    CountAppend(PreRoutes(nodes, d) + AllServices(nodes, ss), PostRoutes(nodes, d), a);
    CountAppend(PreRoutes(nodes, d), AllServices(nodes, ss), a);
    PreCount(nodes, d, a);
    PostCount(nodes, d, a);
    AllServicesCount(nodes, ss, a);
    assert d !in ss;
    if a.node == d {
      PrePostDisjoint(nodes[d].kind);
    }
  }

  /** No endpoint is bound both before and after the services. */
  lemma PrePostDisjoint(k: Kind)
    ensures PreEndpoints(k) !! PostEndpoints(k)
  {
  }

  /** Below a plain device: the device and its services. */
  predicate UnderDevices(nodes: seq<Node>, ds: seq<nat>, x: nat)
    requires x < |nodes|
  {
    x in ds || (nodes[x].parent.Some? && nodes[x].parent.value in ds)
  }

  /** For a device, "a service of d" and "child of d" agree. */
  lemma ServicesAreChildren(nodes: seq<Node>, d: nat, x: nat)
    requires WellFormed(nodes) && d < |nodes| && x < |nodes| && IsPlainDeviceKind(nodes[d].kind)
    ensures x in nodes[d].services <==> nodes[x].parent == Some(d)
  {
    assert NodeOk(nodes, d);
    ChildIffListed(nodes, x, d);
  }

  /** What lies below a list of devices: what lies below all but the last, and,
      apart from that, the last device and its services. */
  lemma DeviceUnderSplit(nodes: seq<Node>, ds: seq<nat>, x: nat)
    requires WellFormed(nodes) && AllIn(nodes, ds) && NoDup(ds) && ds != [] && x < |nodes|
    requires forall k :: 0 <= k < |ds| ==> IsPlainDeviceKind(nodes[ds[k]].kind)
    ensures ds[|ds| - 1] < |nodes|
    ensures UnderDevices(nodes, ds, x) <==>
      UnderDevices(nodes, ds[..|ds| - 1], x) || x == ds[|ds| - 1] || x in nodes[ds[|ds| - 1]].services
    ensures x == ds[|ds| - 1] || x in nodes[ds[|ds| - 1]].services ==> !UnderDevices(nodes, ds[..|ds| - 1], x)
  {
    var init, last := ds[..|ds| - 1], ds[|ds| - 1];
    DropLast(nodes, ds);
    ServicesAreChildren(nodes, last, x);
    assert NodeOk(nodes, x);
    if nodes[x].parent.Some? {
      var p := nodes[x].parent.value;
      assert NodeOk(nodes, p);
      if p in init {
        var k :| 0 <= k < |init| && init[k] == p;
        assert ds[k] == p;
      }
    }
  }

  lemma {:induction false} AllDevicesCount(nodes: seq<Node>, ds: seq<nat>, a: Action)
    requires WellFormed(nodes) && AllIn(nodes, ds) && NoDup(ds)
    requires forall k :: 0 <= k < |ds| ==> IsPlainDeviceKind(nodes[ds[k]].kind)
    ensures CountAction(AllDevices(nodes, ds), a) ==
      if a.node < |nodes| && UnderDevices(nodes, ds, a.node) && Owns(nodes, a) then 1 else 0
  {
    if ds != [] {
      var init, last := ds[..|ds| - 1], ds[|ds| - 1];
      DropLast(nodes, ds);
      assert forall k :: 0 <= k < |init| ==> IsPlainDeviceKind(nodes[init[k]].kind) by {
        forall k | 0 <= k < |init| ensures IsPlainDeviceKind(nodes[init[k]].kind) {
          assert init[k] == ds[k];
        }
      }
      AllDevicesCount(nodes, init, a);
      CountAppend(AllDevices(nodes, init), DeviceRoutes(nodes, last), a);
      DeviceCount(nodes, last, a);
      if a.node < |nodes| {
        DeviceUnderSplit(nodes, ds, a.node);
      }
    }
  }

  /** Nothing lies below a service. */
  lemma ServiceSubtree(nodes: seq<Node>, j: nat, x: nat)
    requires WellFormed(nodes) && j < |nodes| && x < |nodes| && IsServiceKind(nodes[j].kind)
    ensures InTree(nodes, j, x) <==> x == j
  {
    assert NodeOk(nodes, j);
    ChildIffListed(nodes, x, j);
    if nodes[x].parent.Some? {
      var p := nodes[x].parent.value;
      assert NodeOk(nodes, x);
      ChildIffListed(nodes, p, j);
    }
  }

  /** Below a plain device lie exactly its services. */
  lemma DeviceSubtree(nodes: seq<Node>, j: nat, x: nat)
    requires WellFormed(nodes) && j < |nodes| && x < |nodes| && IsPlainDeviceKind(nodes[j].kind)
    ensures InTree(nodes, j, x) <==> x == j || x in nodes[j].services
  {
    ServicesAreChildren(nodes, j, x);
    if nodes[x].parent.Some? {
      var p := nodes[x].parent.value;
      assert NodeOk(nodes, x);
      assert NodeOk(nodes, p);
      ChildIffListed(nodes, p, j);
      assert NodeOk(nodes, j);
    }
  }

  /** Below a root lie its services, its devices and their services. */
  lemma RootSubtree(nodes: seq<Node>, j: nat, x: nat)
    requires WellFormed(nodes) && j < |nodes| && x < |nodes| && nodes[j].kind.RootDevice?
    ensures InTree(nodes, j, x) <==>
      x == j || x in nodes[j].services || UnderDevices(nodes, nodes[j].devices, x)
  {
    assert NodeOk(nodes, j);
    ChildIffListed(nodes, x, j);
    if nodes[x].parent.Some? {
      var p := nodes[x].parent.value;
      assert NodeOk(nodes, x);
      assert NodeOk(nodes, p);
      ChildIffListed(nodes, p, j);
      ChildIffListed(nodes, x, p);
    }
  }

  /** The three parts of a root's subtree do not overlap. */
  lemma RootPartsDisjoint(nodes: seq<Node>, j: nat, x: nat)
    requires WellFormed(nodes) && j < |nodes| && x < |nodes| && nodes[j].kind.RootDevice?
    ensures x == j ==> x !in nodes[j].services && !UnderDevices(nodes, nodes[j].devices, x)
    ensures x in nodes[j].services ==> !UnderDevices(nodes, nodes[j].devices, x)
  {
    assert NodeOk(nodes, j);
    assert NodeOk(nodes, x);
    if nodes[x].parent.Some? {
      assert NodeOk(nodes, nodes[x].parent.value);
    }
  }

  lemma RootRoutesCount(nodes: seq<Node>, j: nat, a: Action)
    requires WellFormed(nodes) && j < |nodes| && nodes[j].kind.RootDevice?
    ensures CountAction(RootRoutes(nodes, j), a) ==
      if a.node < |nodes| && InTree(nodes, j, a.node) && Owns(nodes, a) then 1 else 0
  {
    assert NodeOk(nodes, j);
    var ss, ds := nodes[j].services, nodes[j].devices;
    CountAppend(PreRoutes(nodes, j) + AllServices(nodes, ss), AllDevices(nodes, ds), a);
    CountAppend(PreRoutes(nodes, j), AllServices(nodes, ss), a);
    PreCount(nodes, j, a);
    AllServicesCount(nodes, ss, a);
    AllDevicesCount(nodes, ds, a);
    if a.node < |nodes| {
      RootSubtree(nodes, j, a.node);
      RootPartsDisjoint(nodes, j, a.node);
    }
  }

  /** Setting up j registers each endpoint of each object of j's subtree exactly once,
      and no other action. */
  lemma SetupCount(nodes: seq<Node>, j: nat, a: Action)
    requires WellFormed(nodes) && j < |nodes|
    ensures CountAction(SetupRoutes(nodes, j), a) ==
      if a.node < |nodes| && InTree(nodes, j, a.node) && Owns(nodes, a) then 1 else 0
  {
    var k := nodes[j].kind;
    if IsServiceKind(k) {
      PreCount(nodes, j, a);
      if a.node < |nodes| { ServiceSubtree(nodes, j, a.node); }
    } else if k.RootDevice? {
      RootRoutesCount(nodes, j, a);
    } else {
      assert NodeOk(nodes, j);
      DeviceCount(nodes, j, a);
      if a.node < |nodes| { DeviceSubtree(nodes, j, a.node); }
    }
  }

  /* ---------- what the routes read ---------- */

  /** Object x has the same class, target and parent in both trees. */
  predicate Placed(nodes: seq<Node>, nodes': seq<Node>, x: nat) {
    x < |nodes| && x < |nodes'| && nodes'[x].kind == nodes[x].kind && nodes'[x].target == nodes[x].target &&
    nodes'[x].parent == nodes[x].parent
  }

  /** Object x has the same class, target, parent and services in both trees. */
  predicate Agree(nodes: seq<Node>, nodes': seq<Node>, x: nat) {
    Placed(nodes, nodes', x) && nodes'[x].services == nodes[x].services
  }

  /** The object j and all its ancestors are placed alike in both trees. */
  predicate ChainAgrees(nodes: seq<Node>, nodes': seq<Node>, j: nat)
    requires WellFormed(nodes) && j < |nodes|
  {
    forall x :: 0 <= x < |nodes| && InTree(nodes, x, j) ==> Placed(nodes, nodes', x)
  }

  /** A path reads only the targets and parent links of the object and its ancestors. */
  lemma FullPathFrame(nodes: seq<Node>, nodes': seq<Node>, j: nat)
    requires WellFormed(nodes) && WellFormed(nodes') && j < |nodes| && ChainAgrees(nodes, nodes', j)
    ensures j < |nodes'| && FullPath(nodes', j) == FullPath(nodes, j)
  {
    assert InTree(nodes, j, j);
    if nodes[j].parent.Some? {
      var p := nodes[j].parent.value;
      ParentIsHigher(nodes, j);
      assert InTree(nodes, p, j);
      if nodes[p].parent.Some? {
        ParentIsHigher(nodes, p);
        assert InTree(nodes, nodes[p].parent.value, j);
      }
    }
  }

  /** An object's own routes read only its own fields and its ancestors'. */
  lemma PreRoutesFrame(nodes: seq<Node>, nodes': seq<Node>, j: nat)
    requires WellFormed(nodes) && WellFormed(nodes') && j < |nodes| && ChainAgrees(nodes, nodes', j)
    ensures j < |nodes'| && PreRoutes(nodes', j) == PreRoutes(nodes, j) && PostRoutes(nodes', j) == PostRoutes(nodes, j)
  {
    assert InTree(nodes, j, j);
    FullPathFrame(nodes, nodes', j);
  }

  /** The services' setups read only the services and their ancestors. */
  lemma {:induction false} AllServicesFrame(nodes: seq<Node>, nodes': seq<Node>, ss: seq<nat>)
    requires WellFormed(nodes) && WellFormed(nodes') && AllIn(nodes, ss)
    requires forall k :: 0 <= k < |ss| ==> ChainAgrees(nodes, nodes', ss[k])
    ensures AllIn(nodes', ss) && AllServices(nodes', ss) == AllServices(nodes, ss)
  {
    forall k | 0 <= k < |ss| ensures ss[k] < |nodes'| {
      assert InTree(nodes, ss[k], ss[k]);
    }
    if ss != [] {
      var last := |ss| - 1;
      var front := ss[..last];
      assert forall k :: 0 <= k < last ==> front[k] == ss[k];
      AllServicesFrame(nodes, nodes', front);
      PreRoutesFrame(nodes, nodes', ss[last]);
      AllServicesLast(nodes', ss);
      AllServicesLast(nodes, ss);
    }
  }

  /** AllServices unfolded once. */
  lemma AllServicesLast(nodes: seq<Node>, ss: seq<nat>)
    requires WellFormed(nodes) && AllIn(nodes, ss) && ss != []
    ensures AllServices(nodes, ss) == AllServices(nodes, ss[..|ss| - 1]) + PreRoutes(nodes, ss[|ss| - 1])
  {
  }

  /** A device's setup reads only the device, its services and its ancestors. */
  lemma DeviceRoutesFrame(nodes: seq<Node>, nodes': seq<Node>, d: nat)
    requires WellFormed(nodes) && WellFormed(nodes') && d < |nodes| && ChainAgrees(nodes, nodes', d)
    requires Agree(nodes, nodes', d)
    requires forall k :: 0 <= k < |nodes[d].services| ==> Agree(nodes, nodes', nodes[d].services[k])
    ensures d < |nodes'| && DeviceRoutes(nodes', d) == DeviceRoutes(nodes, d)
  {
    assert NodeOk(nodes, d);
    var ss := nodes[d].services;
    assert InTree(nodes, d, d);
    PreRoutesFrame(nodes, nodes', d);
    forall k | 0 <= k < |ss| ensures ChainAgrees(nodes, nodes', ss[k]) {
      assert nodes[ss[k]].parent == Some(d);
      forall x | 0 <= x < |nodes| && InTree(nodes, x, ss[k]) ensures Placed(nodes, nodes', x) {
        if x != ss[k] && x != d {
          assert nodes[d].parent == Some(x);
          assert InTree(nodes, x, d);
        }
      }
    }
    AllServicesFrame(nodes, nodes', ss);
  }

  /** Setting up one list of services and then another is setting up both. */
  lemma {:induction false} AllServicesAppend(nodes: seq<Node>, xs: seq<nat>, ys: seq<nat>)
    requires WellFormed(nodes) && AllIn(nodes, xs) && AllIn(nodes, ys)
    ensures AllIn(nodes, xs + ys)
    ensures AllServices(nodes, xs + ys) == AllServices(nodes, xs) + AllServices(nodes, ys)
    decreases |ys|
  {
    assert forall k :: 0 <= k < |xs + ys| ==> (xs + ys)[k] == if k < |xs| then xs[k] else ys[k - |xs|];
    if ys == [] {
      assert xs + ys == xs;
    } else {
      var front := ys[..|ys| - 1];
      assert (xs + ys)[..|xs + ys| - 1] == xs + front;
      AllServicesAppend(nodes, xs, front);
      Concat2(AllServices(nodes, xs), AllServices(nodes, front), PreRoutes(nodes, ys[|ys| - 1]));
    }
  }

  /** AllServices read from the front: the first service's routes, then the rest. */
  lemma AllServicesCons(nodes: seq<Node>, s: nat, ss: seq<nat>)
    requires WellFormed(nodes) && s < |nodes| && AllIn(nodes, ss)
    ensures AllIn(nodes, [s] + ss)
    ensures AllServices(nodes, [s] + ss) == PreRoutes(nodes, s) + AllServices(nodes, ss)
  {
    assert [s][..0] == [];
    AllServicesAppend(nodes, [s], ss);
  }

  /** AllDevices unfolded once. */
  lemma AllDevicesLast(nodes: seq<Node>, ds: seq<nat>)
    requires WellFormed(nodes) && AllIn(nodes, ds) && ds != []
    ensures AllDevices(nodes, ds) == AllDevices(nodes, ds[..|ds| - 1]) + DeviceRoutes(nodes, ds[|ds| - 1])
  {
  }

  /** Setting up one list of devices and then another is setting up both. */
  lemma {:induction false} AllDevicesAppend(nodes: seq<Node>, xs: seq<nat>, ys: seq<nat>)
    requires WellFormed(nodes) && AllIn(nodes, xs) && AllIn(nodes, ys)
    ensures AllIn(nodes, xs + ys)
    ensures AllDevices(nodes, xs + ys) == AllDevices(nodes, xs) + AllDevices(nodes, ys)
    decreases |ys|
  {
    assert forall k :: 0 <= k < |xs + ys| ==> (xs + ys)[k] == if k < |xs| then xs[k] else ys[k - |xs|];
    if ys == [] {
      assert xs + ys == xs;
    } else {
      var front := ys[..|ys| - 1];
      assert (xs + ys)[..|xs + ys| - 1] == xs + front;
      AllDevicesAppend(nodes, xs, front);
      Concat2(AllDevices(nodes, xs), AllDevices(nodes, front), DeviceRoutes(nodes, ys[|ys| - 1]));
    }
  }

  /** AllDevices read from the front: the first device's routes, then the rest. */
  lemma AllDevicesCons(nodes: seq<Node>, d: nat, ds: seq<nat>)
    requires WellFormed(nodes) && d < |nodes| && AllIn(nodes, ds)
    ensures AllIn(nodes, [d] + ds)
    ensures AllDevices(nodes, [d] + ds) == DeviceRoutes(nodes, d) + AllDevices(nodes, ds)
  {
    assert [d][..0] == [];
    AllDevicesAppend(nodes, [d], ds);
  }

  /* ---------- the paths routes are bound under ---------- */

  /** The path under which the setup of object a.node binds endpoint a.endpoint. */
  function PathOf(nodes: seq<Node>, a: Action): string
    requires WellFormed(nodes) && a.node < |nodes|
  {
    var j := a.node;
    match a.endpoint
    case Styles => "/styles.css"
    case DisplayRoot => "/"
    case Display => if nodes[j].kind.RootDevice? then "/" + nodes[j].target else GetPath(nodes, j, PATH_SIZE)
    case HandleRequest => GetPath(nodes, j, PATH_SIZE)
    case ConfigForm => FormPath(nodes, j)
    case DisplayControl => ContentPath(nodes, j)
    case SetState => SetStatePath(nodes, j)
  }

  /** Every route is bound under the current path of the action it dispatches to. */
  predicate AtCurrentPaths(nodes: seq<Node>, routes: seq<Route>)
    requires WellFormed(nodes)
  {
    forall i :: 0 <= i < |routes| ==>
      routes[i].action.node < |nodes| && routes[i].path == PathOf(nodes, routes[i].action)
  }

  lemma AtCurrentPathsAppend(nodes: seq<Node>, rs: seq<Route>, more: seq<Route>)
    requires WellFormed(nodes) && AtCurrentPaths(nodes, rs) && AtCurrentPaths(nodes, more)
    ensures AtCurrentPaths(nodes, rs + more)
  {
    assert forall i :: 0 <= i < |rs + more| ==> (rs + more)[i] == if i < |rs| then rs[i] else more[i - |rs|];
  }

  /** One `svr->on(path, ...)` call under the endpoint's own path. */
  lemma OnAtPath(nodes: seq<Node>, path: string, j: nat, e: Endpoint)
    requires WellFormed(nodes) && j < |nodes| && path == PathOf(nodes, Action(j, e))
    ensures AtCurrentPaths(nodes, On(path, j, e))
  {
  }

  /** An object's own setup binds each of its endpoints under that endpoint's path. */
  lemma OwnRoutesAtPaths(nodes: seq<Node>, j: nat)
    requires WellFormed(nodes) && j < |nodes|
    ensures AtCurrentPaths(nodes, PreRoutes(nodes, j))
    ensures AtCurrentPaths(nodes, PostRoutes(nodes, j))
  {
    PreRoutesAtPaths(nodes, j);
    PostRoutesAtPaths(nodes, j);
  }

  lemma PreRoutesAtPaths(nodes: seq<Node>, j: nat)
    requires WellFormed(nodes) && j < |nodes|
    ensures AtCurrentPaths(nodes, PreRoutes(nodes, j))
  {
    var n := nodes[j];
    if n.kind.RootDevice? {
      OnAtPath(nodes, "/styles.css", j, Styles);
      OnAtPath(nodes, "/", j, DisplayRoot);
      OnAtPath(nodes, "/" + n.target, j, Display);
      AtCurrentPathsAppend(nodes, On("/styles.css", j, Styles), On("/", j, DisplayRoot));
      AtCurrentPathsAppend(nodes, On("/styles.css", j, Styles) + On("/", j, DisplayRoot), On("/" + n.target, j, Display));
    } else if IsServiceKind(n.kind) {
      var own := On(GetPath(nodes, j, PATH_SIZE), j, HandleRequest);
      OnAtPath(nodes, GetPath(nodes, j, PATH_SIZE), j, HandleRequest);
      if n.kind.SetConfiguration? {
        OnAtPath(nodes, FormPath(nodes, j), j, ConfigForm);
        AtCurrentPathsAppend(nodes, own, On(FormPath(nodes, j), j, ConfigForm));
      } else {
        assert own + [] == own;
      }
    } else {
      OnAtPath(nodes, GetPath(nodes, j, PATH_SIZE), j, Display);
    }
  }

  lemma PostRoutesAtPaths(nodes: seq<Node>, j: nat)
    requires WellFormed(nodes) && j < |nodes|
    ensures AtCurrentPaths(nodes, PostRoutes(nodes, j))
  {
    var n := nodes[j];
    if IsControlKind(n.kind) {
      var content := On(ContentPath(nodes, j), j, DisplayControl);
      OnAtPath(nodes, ContentPath(nodes, j), j, DisplayControl);
      if HasSetState(n.kind) {
        OnAtPath(nodes, SetStatePath(nodes, j), j, SetState);
        AtCurrentPathsAppend(nodes, content, On(SetStatePath(nodes, j), j, SetState));
      } else {
        assert content + [] == content;
      }
    }
  }

  lemma {:induction false} AllServicesAtPaths(nodes: seq<Node>, ss: seq<nat>)
    requires WellFormed(nodes) && AllIn(nodes, ss)
    ensures AtCurrentPaths(nodes, AllServices(nodes, ss))
    decreases |ss|
  {
    if ss != [] {
      var front := ss[..|ss| - 1];
      assert forall k :: 0 <= k < |front| ==> front[k] == ss[k];
      AllServicesAtPaths(nodes, front);
      OwnRoutesAtPaths(nodes, ss[|ss| - 1]);
      AtCurrentPathsAppend(nodes, AllServices(nodes, front), PreRoutes(nodes, ss[|ss| - 1]));
    }
  }

  lemma DeviceRoutesAtPaths(nodes: seq<Node>, d: nat)
    requires WellFormed(nodes) && d < |nodes|
    ensures AtCurrentPaths(nodes, DeviceRoutes(nodes, d))
  {
    assert NodeOk(nodes, d);
    OwnRoutesAtPaths(nodes, d);
    AllServicesAtPaths(nodes, nodes[d].services);
    AtCurrentPathsAppend(nodes, PreRoutes(nodes, d), AllServices(nodes, nodes[d].services));
    AtCurrentPathsAppend(nodes, PreRoutes(nodes, d) + AllServices(nodes, nodes[d].services), PostRoutes(nodes, d));
  }

  lemma {:induction false} AllDevicesAtPaths(nodes: seq<Node>, ds: seq<nat>)
    requires WellFormed(nodes) && AllIn(nodes, ds)
    ensures AtCurrentPaths(nodes, AllDevices(nodes, ds))
    decreases |ds|
  {
    if ds != [] {
      var front := ds[..|ds| - 1];
      assert forall k :: 0 <= k < |front| ==> front[k] == ds[k];
      AllDevicesAtPaths(nodes, front);
      DeviceRoutesAtPaths(nodes, ds[|ds| - 1]);
      AtCurrentPathsAppend(nodes, AllDevices(nodes, front), DeviceRoutes(nodes, ds[|ds| - 1]));
    }
  }

  /** Whatever object's setup runs, it binds every route under the current path of the
      action the route dispatches to. */
  lemma SetupRoutesAtPaths(nodes: seq<Node>, j: nat)
    requires WellFormed(nodes) && j < |nodes|
    ensures AtCurrentPaths(nodes, SetupRoutes(nodes, j))
  {
    if IsServiceKind(nodes[j].kind) {
      OwnRoutesAtPaths(nodes, j);
    } else if nodes[j].kind.RootDevice? {
      assert NodeOk(nodes, j);
      OwnRoutesAtPaths(nodes, j);
      AllServicesAtPaths(nodes, nodes[j].services);
      AllDevicesAtPaths(nodes, nodes[j].devices);
      AtCurrentPathsAppend(nodes, PreRoutes(nodes, j), AllServices(nodes, nodes[j].services));
      AtCurrentPathsAppend(nodes, PreRoutes(nodes, j) + AllServices(nodes, nodes[j].services),
                           AllDevices(nodes, nodes[j].devices));
    } else {
      DeviceRoutesAtPaths(nodes, j);
    }
  }

  /** A path reads only the object's class and the targets along its parent chain. */
  lemma PathOfFrame(nodes: seq<Node>, nodes': seq<Node>, a: Action)
    requires WellFormed(nodes) && WellFormed(nodes') && a.node < |nodes| && ChainAgrees(nodes, nodes', a.node)
    ensures a.node < |nodes'| && PathOf(nodes', a) == PathOf(nodes, a)
  {
    assert InTree(nodes, a.node, a.node);
    FullPathFrame(nodes, nodes', a.node);
  }

  /** An action that counts is listed. */
  lemma {:induction false} CountedIsListed(rs: seq<Route>, a: Action) returns (i: nat)
    requires CountAction(rs, a) >= 1
    ensures i < |rs| && rs[i].action == a
    decreases |rs|
  {
    if rs[|rs| - 1].action == a {
      i := |rs| - 1;
    } else {
      i := CountedIsListed(rs[..|rs| - 1], a);
    }
  }

  /** A listed route counts for its own action. */
  lemma {:induction false} CountListed(rs: seq<Route>, i: nat)
    requires i < |rs|
    ensures CountAction(rs, rs[i].action) >= 1
    decreases |rs|
  {
    if i < |rs| - 1 {
      assert rs[..|rs| - 1][i] == rs[i];
      CountListed(rs[..|rs| - 1], i);
    }
  }

  /** Proof plumbing: regrouping a concatenation after a prefix, so that the solver
      need not search for associativity inside large route terms. */
  lemma Concat2<T>(x: seq<T>, a: seq<T>, b: seq<T>)
    ensures x + a + b == x + (a + b)
  {
  }

  /** Proof plumbing: the same for three parts. */
  lemma Concat3<T>(x: seq<T>, a: seq<T>, b: seq<T>, c: seq<T>)
    ensures x + a + b + c == x + (a + b + c)
  {
  }
}
