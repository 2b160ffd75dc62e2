/**
 * The state changes of `addService`, `addDevice` and `setup` as functions on the
 * arena, and the invariant they keep together: the web server's route table holds
 * every endpoint of every object whose RootDevice has been set up, exactly once,
 * and nothing else (late binding).
 */
module Attach {
  import opened Wrappers
  import opened Text
  import opened ClassTypes
  import opened Paths
  import opened Uuid
  import opened Nodes
  import opened Routes

  /** The routes the server should hold for action a. */
  function Expected(nodes: seq<Node>, runtime: seq<Runtime>, a: Action): nat
    requires WellFormed(nodes) && |runtime| == |nodes|
  {
    if a.node < |nodes| && Owns(nodes, a) && Live(nodes, runtime, a.node) then 1 else 0
  }

  /** Every endpoint of every live object is registered exactly once, and no other. */
  ghost predicate Registered(nodes: seq<Node>, runtime: seq<Runtime>, routes: seq<Route>)
    requires WellFormed(nodes) && |runtime| == |nodes|
  {
    forall a :: CountAction(routes, a) == Expected(nodes, runtime, a)
  }

  /** Only a RootDevice has a `_context`. */
  predicate ContextOk(nodes: seq<Node>, runtime: seq<Runtime>)
    requires |runtime| == |nodes|
  {
    forall j :: 0 <= j < |nodes| && runtime[j].context.Some? ==> nodes[j].kind.RootDevice?
  }

  /** A newly constructed object: no parent, no children, fields that fit. */
  lemma AppendDetached(nodes: seq<Node>, n: Node)
    requires WellFormed(nodes) && n.parent.None? && n.services == [] && n.devices == []
    requires IsConcrete(n.kind) && FieldsOk(n)
    ensures WellFormed(nodes + [n])
  {
    var nodes' := nodes + [n];
    forall j | 0 <= j < |nodes'| ensures NodeOk(nodes', j) {
      if j < |nodes| {
        assert NodeOk(nodes, j);
        var c := nodes[j];
        assert nodes'[j] == c;
        forall k | 0 <= k < |c.services| ensures nodes'[c.services[k]] == nodes[c.services[k]] { }
        forall k | 0 <= k < |c.devices| ensures nodes'[c.devices[k]] == nodes[c.devices[k]] { }
        if c.parent.Some? { assert nodes'[c.parent.value] == nodes[c.parent.value]; }
      }
    }
  }

  /** The route table depends on the runtime only through the contexts. */
  lemma RegisteredReadsContexts(nodes: seq<Node>, runtime: seq<Runtime>, runtime': seq<Runtime>, routes: seq<Route>)
    requires WellFormed(nodes) && |runtime| == |nodes| == |runtime'| && Registered(nodes, runtime, routes)
    requires forall j :: 0 <= j < |nodes| ==> runtime'[j].context == runtime[j].context
    ensures Registered(nodes, runtime', routes)
  {
    forall a ensures CountAction(routes, a) == Expected(nodes, runtime', a) {
      assert CountAction(routes, a) == Expected(nodes, runtime, a);
    }
  }

  /** Objects with the same classes and parents have the same roots. */
  lemma SameShapeSameRoot(nodes: seq<Node>, nodes': seq<Node>, x: nat)
    requires WellFormed(nodes) && WellFormed(nodes') && |nodes| == |nodes'| && x < |nodes|
    requires forall j :: 0 <= j < |nodes| ==> nodes'[j].kind == nodes[j].kind && nodes'[j].parent == nodes[j].parent
    ensures RootOf(nodes', x) == RootOf(nodes, x)
  {
    if nodes[x].parent.Some? {
      ParentIsHigher(nodes, x);
      var p := nodes[x].parent.value;
      if nodes[p].parent.Some? { ParentIsHigher(nodes, p); }
    }
  }

  /** Editing names, targets, uuids or handlers leaves the route table right. */
  lemma RegisteredReadsShape(nodes: seq<Node>, nodes': seq<Node>, runtime: seq<Runtime>, routes: seq<Route>)
    requires WellFormed(nodes) && WellFormed(nodes') && |nodes| == |nodes'| == |runtime|
    requires forall j :: 0 <= j < |nodes| ==> nodes'[j].kind == nodes[j].kind && nodes'[j].parent == nodes[j].parent
    requires Registered(nodes, runtime, routes)
    ensures Registered(nodes', runtime, routes)
  {
    forall a ensures CountAction(routes, a) == Expected(nodes', runtime, a) {
      assert CountAction(routes, a) == Expected(nodes, runtime, a);
      if a.node < |nodes| { SameShapeSameRoot(nodes, nodes', a.node); }
    }
  }

  /** A fresh arena entry is unattached, so it is not live and nothing of it is registered. */
  lemma FreshNodeKeepsRegistered(nodes: seq<Node>, runtime: seq<Runtime>, routes: seq<Route>, n: Node, rt: Runtime)
    requires WellFormed(nodes) && |runtime| == |nodes| && Registered(nodes, runtime, routes)
    requires WellFormed(nodes + [n]) && n.parent.None? && rt.context.None?
    ensures Registered(nodes + [n], runtime + [rt], routes)
  {
    var nodes', runtime' := nodes + [n], runtime + [rt];
    forall a ensures CountAction(routes, a) == Expected(nodes', runtime', a) {
      assert CountAction(routes, a) == Expected(nodes, runtime, a);
      if a.node < |nodes| {
        assert Top(nodes', a.node) == Top(nodes, a.node) by {
          assert NodeOk(nodes, a.node);
          if nodes[a.node].parent.Some? { assert NodeOk(nodes, nodes[a.node].parent.value); }
        }
      }
    }
  }

  /* ---------- the paths of the routes ---------- */

  /** Every route in a registered table dispatches to a live object. */
  lemma RoutedIsLive(nodes: seq<Node>, runtime: seq<Runtime>, routes: seq<Route>, i: nat)
    requires WellFormed(nodes) && |runtime| == |nodes| && Registered(nodes, runtime, routes) && i < |routes|
    ensures routes[i].action.node < |nodes| && Live(nodes, runtime, routes[i].action.node)
  {
    CountListed(routes, i);
    assert CountAction(routes, routes[i].action) == Expected(nodes, runtime, routes[i].action);
  }

  /** What the two invariants give a client: every endpoint of a live object is
      served, and under the path the object reports now. */
  lemma ServedAtCurrentPath(nodes: seq<Node>, runtime: seq<Runtime>, routes: seq<Route>, a: Action)
    requires WellFormed(nodes) && |runtime| == |nodes| && Registered(nodes, runtime, routes)
    requires AtCurrentPaths(nodes, routes)
    requires a.node < |nodes| && Owns(nodes, a) && Live(nodes, runtime, a.node)
    ensures exists i :: 0 <= i < |routes| && routes[i] == Route(PathOf(nodes, a), a)
  {
    assert CountAction(routes, a) == Expected(nodes, runtime, a);
    var i := CountedIsListed(routes, a);
    assert routes[i] == Route(PathOf(nodes, a), a);
  }

  /** The routes stay under their actions' paths as long as every live object keeps
      its class, target and parent: only live objects have routes, and the ancestors
      of a live object are live. */
  lemma AtCurrentPathsKept(nodes: seq<Node>, nodes': seq<Node>, runtime: seq<Runtime>, routes: seq<Route>)
    requires WellFormed(nodes) && WellFormed(nodes') && |runtime| == |nodes| <= |nodes'|
    requires Registered(nodes, runtime, routes) && AtCurrentPaths(nodes, routes)
    requires forall y :: 0 <= y < |nodes| && Live(nodes, runtime, y) ==> Placed(nodes, nodes', y)
    ensures AtCurrentPaths(nodes', routes)
  {
    forall i | 0 <= i < |routes|
      ensures routes[i].action.node < |nodes'| && routes[i].path == PathOf(nodes', routes[i].action)
    {
      RoutedIsLive(nodes, runtime, routes, i);
      var x := routes[i].action.node;
      forall y | 0 <= y < |nodes| && InTree(nodes, y, x) ensures Placed(nodes, nodes', y) {
        AncestorSharesRoot(nodes, y, x);
      }
      PathOfFrame(nodes, nodes', routes[i].action);
    }
  }

  /** An unattached object other than a root is not live. */
  lemma DetachedIsIdle(nodes: seq<Node>, runtime: seq<Runtime>, j: nat)
    requires WellFormed(nodes) && |runtime| == |nodes| && j < |nodes|
    requires nodes[j].parent.None? && !nodes[j].kind.RootDevice?
    ensures !Live(nodes, runtime, j)
  {
  }

  /* ---------- addService ---------- */

  /** The default target "service<n>" sprintf'd into `_target`. */
  function DefaultTarget(prefix: string, n: nat, target: string): (t: string)
    ensures target != [] ==> t == target
    ensures target == [] ==> t == prefix + Decimal(n)
  {
    if target == [] then prefix + Decimal(n) else target
  }

  predicate CanAttachService(nodes: seq<Node>, d: nat, s: nat) {
    WellFormed(nodes) && d < |nodes| && s < |nodes| &&
    IsDeviceKind(nodes[d].kind) && IsServiceKind(nodes[s].kind) && nodes[s].parent.None? &&
    |nodes[d].services| < MAX_SERVICES
  }

  /** `addService(svc)` with room left: the default target, the slot, the back-pointer. */
  function AttachService(nodes: seq<Node>, d: nat, s: nat): seq<Node>
    requires CanAttachService(nodes, d, s)
  {
    var n := |nodes[d].services|;
    var svc := nodes[s].(target := DefaultTarget("service", n, nodes[s].target), parent := Some(d));
    nodes[s := svc][d := nodes[d].(services := nodes[d].services + [s])]
  }

  /** An unattached service is listed nowhere. */
  lemma DetachedIsUnlisted(nodes: seq<Node>, s: nat)
    requires WellFormed(nodes) && s < |nodes| && nodes[s].parent.None?
    ensures forall p :: 0 <= p < |nodes| ==> s !in nodes[p].services && s !in nodes[p].devices
  {
    forall p | 0 <= p < |nodes| ensures s !in nodes[p].services && s !in nodes[p].devices {
      ChildIffListed(nodes, s, p);
    }
  }

  /** addService keeps the tree well formed. */
  lemma AttachServiceWellFormed(nodes: seq<Node>, d: nat, s: nat)
    requires CanAttachService(nodes, d, s)
    ensures WellFormed(AttachService(nodes, d, s))
  {
    var nodes' := AttachService(nodes, d, s);
    forall j | 0 <= j < |nodes'| ensures NodeOk(nodes', j) {
      if j == s { AttachedServiceOk(nodes, d, s); }
      else if j == d { ServiceOwnerOk(nodes, d, s); }
      else { ServiceBystanderOk(nodes, d, s, j); }
    }
  }

  lemma AttachedServiceOk(nodes: seq<Node>, d: nat, s: nat)
    requires CanAttachService(nodes, d, s)
    ensures NodeOk(AttachService(nodes, d, s), s)
  {
    var nodes' := AttachService(nodes, d, s);
    assert NodeOk(nodes, d) && NodeOk(nodes, s);
    assert s in nodes'[d].services;
  }

  lemma ServiceOwnerOk(nodes: seq<Node>, d: nat, s: nat)
    requires CanAttachService(nodes, d, s)
    ensures NodeOk(AttachService(nodes, d, s), d)
  {
    var nodes' := AttachService(nodes, d, s);
    var n := |nodes[d].services|;
    DetachedIsUnlisted(nodes, s);
    assert NodeOk(nodes, d);
    var ss := nodes'[d].services;
    assert ss == nodes[d].services + [s];
    forall k | 0 <= k < |ss|
      ensures ss[k] < |nodes'| && nodes'[ss[k]].parent == Some(d) && IsServiceKind(nodes'[ss[k]].kind)
    {
      if k < n { assert ss[k] == nodes[d].services[k]; }
    }
    assert ParentOk(nodes', d) by {
      if nodes[d].parent.Some? { assert NodeOk(nodes, nodes[d].parent.value); }
    }
  }

  lemma ServiceBystanderOk(nodes: seq<Node>, d: nat, s: nat, j: nat)
    requires CanAttachService(nodes, d, s) && j < |nodes| && j != s && j != d
    ensures NodeOk(AttachService(nodes, d, s), j)
  {
    var nodes' := AttachService(nodes, d, s);
    DetachedIsUnlisted(nodes, s);
    assert NodeOk(nodes, j);
    var c := nodes[j];
    assert nodes'[j] == c;
    forall k | 0 <= k < |c.services| ensures nodes'[c.services[k]].parent == Some(j) {
      assert c.services[k] != s;
    }
    forall k | 0 <= k < |c.devices| ensures nodes'[c.devices[k]].parent == Some(j) {
      assert c.devices[k] != s;
    }
    assert ParentOk(nodes', j) by {
      if c.parent.Some? && c.parent.value == d {
        assert j in nodes[d].services || j in nodes[d].devices;
      }
    }
  }

  /** Attaching s moves no other object: parents, kinds and roots stay as they were,
      and s takes d's root. */
  lemma AttachServiceRoots(nodes: seq<Node>, d: nat, s: nat, x: nat)
    requires CanAttachService(nodes, d, s) && x < |nodes|
    ensures WellFormed(AttachService(nodes, d, s))
    ensures x != s ==> RootOf(AttachService(nodes, d, s), x) == RootOf(nodes, x)
    ensures RootOf(AttachService(nodes, d, s), s) == RootOf(nodes, d)
  {
    var nodes' := AttachService(nodes, d, s);
    AttachServiceWellFormed(nodes, d, s);
    DetachedIsUnlisted(nodes, s);
    assert NodeOk(nodes, x);
    assert NodeOk(nodes, d);
    if nodes[d].parent.Some? { assert NodeOk(nodes, nodes[d].parent.value); }
    if x != s && nodes[x].parent.Some? {
      var p := nodes[x].parent.value;
      assert NodeOk(nodes, p);
      ChildIffListed(nodes, x, p);
      assert p != s;
      if nodes[p].parent.Some? {
        var g := nodes[p].parent.value;
        ChildIffListed(nodes, p, g);
        assert g != s;
      }
    }
  }

  /** The late-binding rule keeps the route table right: after `addService`, the
      routes of the new service are added exactly when its device is live. */
  lemma AttachServiceKeepsRegistered(nodes: seq<Node>, runtime: seq<Runtime>, routes: seq<Route>, d: nat, s: nat)
    requires CanAttachService(nodes, d, s) && |runtime| == |nodes| && Registered(nodes, runtime, routes)
    ensures WellFormed(AttachService(nodes, d, s))
    ensures Live(AttachService(nodes, d, s), runtime, s) == Live(nodes, runtime, d)
    ensures var nodes' := AttachService(nodes, d, s);
      Registered(nodes', runtime, routes + (if Live(nodes', runtime, s) then SetupRoutes(nodes', s) else []))
  {
    var nodes' := AttachService(nodes, d, s);
    AttachServiceRoots(nodes, d, s, s);
    var added := if Live(nodes', runtime, s) then SetupRoutes(nodes', s) else [];
    forall a ensures CountAction(routes + added, a) == Expected(nodes', runtime, a) {
      CountAppend(routes, added, a);
      assert CountAction(routes, a) == Expected(nodes, runtime, a);
      if Live(nodes', runtime, s) { SetupCount(nodes', s, a); }
      if a.node < |nodes| {
        AttachServiceRoots(nodes, d, s, a.node);
        if a.node != s && Live(nodes', runtime, s) {
          ServiceSubtree(nodes', s, a.node);
        }
      }
      if a.node == s {
        assert RootOf(nodes, s) == None by { assert NodeOk(nodes, s); }
      }
    }
  }

  /** After `addService` the routes are still bound under their actions' paths:
      only the detached service moved, and any routes it gets are bound under its
      new path. */
  lemma AttachServiceAtPaths(nodes: seq<Node>, runtime: seq<Runtime>, routes: seq<Route>, d: nat, s: nat)
    requires CanAttachService(nodes, d, s) && |runtime| == |nodes| && Registered(nodes, runtime, routes)
    requires AtCurrentPaths(nodes, routes)
    ensures WellFormed(AttachService(nodes, d, s))
    ensures var nodes' := AttachService(nodes, d, s);
      AtCurrentPaths(nodes', routes + (if Live(nodes, runtime, d) then SetupRoutes(nodes', s) else []))
  {
    var nodes' := AttachService(nodes, d, s);
    AttachServiceWellFormed(nodes, d, s);
    DetachedIsIdle(nodes, runtime, s);
    AtCurrentPathsKept(nodes, nodes', runtime, routes);
    if Live(nodes, runtime, d) {
      SetupRoutesAtPaths(nodes', s);
      AtCurrentPathsAppend(nodes', routes, SetupRoutes(nodes', s));
    } else {
      assert routes + [] == routes;
    }
  }

  /* ---------- addDevice ---------- */

  predicate CanAttachDevice(nodes: seq<Node>, r: nat, dvc: nat) {
    WellFormed(nodes) && r < |nodes| && dvc < |nodes| &&
    nodes[r].kind.RootDevice? && IsPlainDeviceKind(nodes[dvc].kind) && nodes[dvc].parent.None? &&
    |nodes[r].devices| < MAX_DEVICES
  }

  /** `addDevice(dvc)` with room left: default target, a uuid generated from `bytes`
      only when none is set, the slot and the back-pointer. */
  function AttachDevice(nodes: seq<Node>, r: nat, dvc: nat, bytes: seq<bv8>): seq<Node>
    requires CanAttachDevice(nodes, r, dvc) && |bytes| == 16
  {
    var n := |nodes[r].devices|;
    var u := if nodes[dvc].uuid == [] then GenerateUuid(bytes) else nodes[dvc].uuid;
    var dev := nodes[dvc].(target := DefaultTarget("device", n, nodes[dvc].target), uuid := u, parent := Some(r));
    nodes[dvc := dev][r := nodes[r].(devices := nodes[r].devices + [dvc])]
  }

  lemma AttachDeviceWellFormed(nodes: seq<Node>, r: nat, dvc: nat, bytes: seq<bv8>)
    requires CanAttachDevice(nodes, r, dvc) && |bytes| == 16
    ensures WellFormed(AttachDevice(nodes, r, dvc, bytes))
  {
    var nodes' := AttachDevice(nodes, r, dvc, bytes);
    forall j | 0 <= j < |nodes'| ensures NodeOk(nodes', j) {
      if j == dvc { AttachedDeviceOk(nodes, r, dvc, bytes); }
      else if j == r { DeviceOwnerOk(nodes, r, dvc, bytes); }
      else { DeviceBystanderOk(nodes, r, dvc, bytes, j); }
    }
  }

  lemma AttachedDeviceOk(nodes: seq<Node>, r: nat, dvc: nat, bytes: seq<bv8>)
    requires CanAttachDevice(nodes, r, dvc) && |bytes| == 16
    ensures NodeOk(AttachDevice(nodes, r, dvc, bytes), dvc)
  {
    var nodes' := AttachDevice(nodes, r, dvc, bytes);
    GeneratedUuidIsValid(bytes);
    assert NodeOk(nodes, r) && NodeOk(nodes, dvc);
    var c := nodes[dvc];
    forall k | 0 <= k < |c.services| ensures nodes'[c.services[k]].parent == Some(dvc) {
      assert c.services[k] != r;
    }
    assert dvc in nodes'[r].devices;
  }

  lemma DeviceOwnerOk(nodes: seq<Node>, r: nat, dvc: nat, bytes: seq<bv8>)
    requires CanAttachDevice(nodes, r, dvc) && |bytes| == 16
    ensures NodeOk(AttachDevice(nodes, r, dvc, bytes), r)
  {
    var nodes' := AttachDevice(nodes, r, dvc, bytes);
    var n := |nodes[r].devices|;
    DetachedIsUnlisted(nodes, dvc);
    assert NodeOk(nodes, r);
    var ds := nodes'[r].devices;
    assert ds == nodes[r].devices + [dvc];
    forall k | 0 <= k < |ds|
      ensures ds[k] < |nodes'| && nodes'[ds[k]].parent == Some(r) && IsPlainDeviceKind(nodes'[ds[k]].kind)
    {
      if k < n { assert ds[k] == nodes[r].devices[k]; }
    }
    var c := nodes[r];
    forall k | 0 <= k < |c.services| ensures nodes'[c.services[k]].parent == Some(r) {
      assert c.services[k] != dvc;
    }
  }

  lemma DeviceBystanderOk(nodes: seq<Node>, r: nat, dvc: nat, bytes: seq<bv8>, j: nat)
    requires CanAttachDevice(nodes, r, dvc) && |bytes| == 16 && j < |nodes| && j != r && j != dvc
    ensures NodeOk(AttachDevice(nodes, r, dvc, bytes), j)
  {
    var nodes' := AttachDevice(nodes, r, dvc, bytes);
    DetachedIsUnlisted(nodes, dvc);
    assert NodeOk(nodes, j);
    var c := nodes[j];
    assert nodes'[j] == c;
    forall k | 0 <= k < |c.services| ensures nodes'[c.services[k]].parent == Some(j) {
      assert c.services[k] != dvc;
    }
    forall k | 0 <= k < |c.devices| ensures nodes'[c.devices[k]].parent == Some(j) {
      assert c.devices[k] != dvc;
    }
    assert ParentOk(nodes', j) by {
      if c.parent.Some? && c.parent.value == r {
        assert j in nodes[r].services || j in nodes[r].devices;
      }
    }
  }

  /** Attaching dvc to r: dvc and its services now have root r; every other object
      keeps its root. */
  lemma AttachDeviceRoots(nodes: seq<Node>, r: nat, dvc: nat, bytes: seq<bv8>, x: nat)
    requires CanAttachDevice(nodes, r, dvc) && |bytes| == 16 && x < |nodes|
    ensures WellFormed(AttachDevice(nodes, r, dvc, bytes))
    ensures InTree(nodes, dvc, x) ==> RootOf(AttachDevice(nodes, r, dvc, bytes), x) == Some(r)
    ensures InTree(nodes, dvc, x) ==> RootOf(nodes, x) == None
    ensures !InTree(nodes, dvc, x) ==> RootOf(AttachDevice(nodes, r, dvc, bytes), x) == RootOf(nodes, x)
    ensures InTree(nodes, dvc, x) <==> InTree(AttachDevice(nodes, r, dvc, bytes), dvc, x)
  {
    var nodes' := AttachDevice(nodes, r, dvc, bytes);
    AttachDeviceWellFormed(nodes, r, dvc, bytes);
    DetachedIsUnlisted(nodes, dvc);
    assert NodeOk(nodes, x) && NodeOk(nodes, r) && NodeOk(nodes, dvc);
    if nodes[x].parent.Some? {
      var p := nodes[x].parent.value;
      assert NodeOk(nodes, p);
      ChildIffListed(nodes, x, p);
      if nodes[p].parent.Some? {
        var g := nodes[p].parent.value;
        assert NodeOk(nodes, g);
        ChildIffListed(nodes, p, g);
      }
    }
  }

  /** The late-binding rule of `addDevice`: the device's whole subtree is set up
      exactly when the root holds a context. */
  lemma AttachDeviceKeepsRegistered(nodes: seq<Node>, runtime: seq<Runtime>, routes: seq<Route>, r: nat, dvc: nat, bytes: seq<bv8>)
    requires CanAttachDevice(nodes, r, dvc) && |bytes| == 16 && |runtime| == |nodes|
    requires Registered(nodes, runtime, routes)
    ensures WellFormed(AttachDevice(nodes, r, dvc, bytes))
    ensures var nodes' := AttachDevice(nodes, r, dvc, bytes);
      Registered(nodes', runtime, routes + (if runtime[r].context.Some? then SetupRoutes(nodes', dvc) else []))
  {
    var nodes' := AttachDevice(nodes, r, dvc, bytes);
    AttachDeviceWellFormed(nodes, r, dvc, bytes);
    var added := if runtime[r].context.Some? then SetupRoutes(nodes', dvc) else [];
    forall a ensures CountAction(routes + added, a) == Expected(nodes', runtime, a) {
      CountAppend(routes, added, a);
      assert CountAction(routes, a) == Expected(nodes, runtime, a);
      if runtime[r].context.Some? { SetupCount(nodes', dvc, a); }
      if a.node < |nodes| {
        AttachDeviceRoots(nodes, r, dvc, bytes, a.node);
      }
    }
  }

  /** After `addDevice` the routes are still bound under their actions' paths: only
      the detached device and its services moved, and any routes they get are bound
      under their new paths. */
  lemma AttachDeviceAtPaths(nodes: seq<Node>, runtime: seq<Runtime>, routes: seq<Route>, r: nat, dvc: nat, bytes: seq<bv8>)
    requires CanAttachDevice(nodes, r, dvc) && |bytes| == 16 && |runtime| == |nodes|
    requires Registered(nodes, runtime, routes) && AtCurrentPaths(nodes, routes)
    ensures WellFormed(AttachDevice(nodes, r, dvc, bytes))
    ensures var nodes' := AttachDevice(nodes, r, dvc, bytes);
      AtCurrentPaths(nodes', routes + (if runtime[r].context.Some? then SetupRoutes(nodes', dvc) else []))
  {
    var nodes' := AttachDevice(nodes, r, dvc, bytes);
    AttachDeviceWellFormed(nodes, r, dvc, bytes);
    DetachedIsIdle(nodes, runtime, dvc);
    AtCurrentPathsKept(nodes, nodes', runtime, routes);
    if runtime[r].context.Some? {
      SetupRoutesAtPaths(nodes', dvc);
      AtCurrentPathsAppend(nodes', routes, SetupRoutes(nodes', dvc));
    } else {
      assert routes + [] == routes;
    }
  }

  /* ---------- setup ---------- */

  /** What an object's own setup changes besides the routes: RootDevice::setup stores
      the context and port first; SimpleSensor::setup and SensorWithConfig::setup
      reset the message after Sensor::setup. */
  function SetUp(k: Kind, rt: Runtime, svr: Server): (r: Runtime)
    ensures !k.RootDevice? ==> r.context == rt.context
    ensures k.RootDevice? ==> r.context == Some(svr) && r.serverPort == svr.localPort
  {
    match k
    case RootDevice => rt.(context := Some(svr), serverPort := svr.localPort)
    case SimpleSensor => rt.(msg := "Hello from Simple Sensor")
    case SensorWithConfig => rt.(msg := "Hello from Sensor with Config")
    case _ => rt
  }

  /** The runtime state after the objects ds have been set up one after the other. */
  function SetUpAll(nodes: seq<Node>, rt: seq<Runtime>, ds: seq<nat>, svr: Server): (r: seq<Runtime>)
    requires |rt| == |nodes| && forall k :: 0 <= k < |ds| ==> ds[k] < |nodes|
    ensures |r| == |rt|
  {
    if ds == [] then rt
    else
      var prev := SetUpAll(nodes, rt, ds[..|ds| - 1], svr);
      var last := ds[|ds| - 1];
      prev[last := SetUp(nodes[last].kind, prev[last], svr)]
  }

  /** Setting up distinct objects touches each of them once and nothing else. */
  lemma {:induction false} SetUpAllPointwise(nodes: seq<Node>, rt: seq<Runtime>, ds: seq<nat>, svr: Server)
    requires |rt| == |nodes| && (forall k :: 0 <= k < |ds| ==> ds[k] < |nodes|) && NoDup(ds)
    ensures forall x :: 0 <= x < |rt| ==>
      SetUpAll(nodes, rt, ds, svr)[x] == if x in ds then SetUp(nodes[x].kind, rt[x], svr) else rt[x]
  {
    if ds != [] {
      var front := ds[..|ds| - 1];
      var last := ds[|ds| - 1];
      assert forall k :: 0 <= k < |front| ==> front[k] == ds[k];
      SetUpAllPointwise(nodes, rt, front, svr);
      assert last !in front;
      assert ds == front + [last];
    }
  }

  /** Liveness reads nothing of the runtime but the contexts. */
  lemma LiveReadsContexts(nodes: seq<Node>, runtime: seq<Runtime>, runtime': seq<Runtime>, x: nat)
    requires WellFormed(nodes) && |runtime| == |nodes| == |runtime'| && x < |nodes|
    requires forall j :: 0 <= j < |nodes| ==> runtime'[j].context == runtime[j].context
    ensures Live(nodes, runtime', x) == Live(nodes, runtime, x)
  {
  }

  /** Setting up a root that has no context yet: afterwards its whole tree is live and
      registered once, and everything else is as it was. */
  lemma RootSetupKeepsRegistered(nodes: seq<Node>, runtime: seq<Runtime>, runtime': seq<Runtime>, routes: seq<Route>, r: nat, svr: Server)
    requires WellFormed(nodes) && |runtime| == |nodes| == |runtime'| && r < |nodes| && nodes[r].kind.RootDevice?
    requires Registered(nodes, runtime, routes) && runtime[r].context.None?
    requires forall j :: 0 <= j < |nodes| ==>
      runtime'[j] == if InTree(nodes, r, j) then SetUp(nodes[j].kind, runtime[j], svr) else runtime[j]
    ensures Registered(nodes, runtime', routes + SetupRoutes(nodes, r))
  {
    forall a ensures CountAction(routes + SetupRoutes(nodes, r), a) == Expected(nodes, runtime', a) {
      CountAppend(routes, SetupRoutes(nodes, r), a);
      SetupCount(nodes, r, a);
      assert CountAction(routes, a) == Expected(nodes, runtime, a);
      if a.node < |nodes| {
        var x := a.node;
        InTreeOfRoot(nodes, r, x);
        var ro := RootOf(nodes, x);
        if ro.Some? && ro.value != r {
          assert !InTree(nodes, r, ro.value) by { InTreeOfRoot(nodes, r, ro.value); assert NodeOk(nodes, ro.value); }
        }
      }
    }
  }

  /* ---------- addServices / addDevices ---------- */

  /** The arguments of `addServices(a, b, ...)`: each NULL or an unattached service,
      no service passed twice. */
  predicate ServiceArgs(nodes: seq<Node>, svcs: seq<Option<nat>>) {
    (forall k :: 0 <= k < |svcs| && svcs[k].Some? ==>
       svcs[k].value < |nodes| && IsServiceKind(nodes[svcs[k].value].kind) && nodes[svcs[k].value].parent.None?) &&
    (forall a, b :: 0 <= a < b < |svcs| && svcs[a].Some? && svcs[b].Some? ==> svcs[a].value != svcs[b].value)
  }

  /** One `addService(svc)` call: NULL and a full device change nothing. */
  function AddServiceStep(nodes: seq<Node>, d: nat, svc: Option<nat>): (r: seq<Node>)
    requires WellFormed(nodes) && d < |nodes| && IsDeviceKind(nodes[d].kind)
    requires svc.Some? ==> svc.value < |nodes| && IsServiceKind(nodes[svc.value].kind) && nodes[svc.value].parent.None?
    ensures WellFormed(r) && |r| == |nodes|
    ensures forall x :: 0 <= x < |nodes| ==> r[x].kind == nodes[x].kind
    ensures forall x :: 0 <= x < |nodes| && (svc.None? || x != svc.value) ==> r[x].parent == nodes[x].parent
  {
    if svc.Some? && |nodes[d].services| < MAX_SERVICES then
      AttachServiceWellFormed(nodes, d, svc.value);
      AttachService(nodes, d, svc.value)
    else nodes
  }

  /** `addServices(a, b, ...)`: `addService(a)`, then `addServices(b, ...)`. */
  function AttachServices(nodes: seq<Node>, d: nat, svcs: seq<Option<nat>>): (r: seq<Node>)
    requires WellFormed(nodes) && d < |nodes| && IsDeviceKind(nodes[d].kind) && ServiceArgs(nodes, svcs)
    ensures |r| == |nodes|
    ensures forall x :: 0 <= x < |nodes| ==> r[x].kind == nodes[x].kind
    decreases |svcs|
  {
    if svcs == [] then nodes
    else
      ServiceArgsTail(nodes, d, svcs);
      AttachServices(AddServiceStep(nodes, d, svcs[0]), d, svcs[1..])
  }

  /** addServices keeps the tree well formed. */
  lemma {:induction false} AttachServicesWellFormed(nodes: seq<Node>, d: nat, svcs: seq<Option<nat>>)
    requires WellFormed(nodes) && d < |nodes| && IsDeviceKind(nodes[d].kind) && ServiceArgs(nodes, svcs)
    ensures WellFormed(AttachServices(nodes, d, svcs))
    decreases |svcs|
  {
    if svcs != [] {
      ServiceArgsTail(nodes, d, svcs);
      AttachServicesWellFormed(AddServiceStep(nodes, d, svcs[0]), d, svcs[1..]);
    }
  }

  /** The arguments that find a free slot, in order, when room slots are left. */
  function Admitted(room: nat, args: seq<Option<nat>>): (r: seq<nat>)
    ensures |r| <= room
    ensures |r| <= |args|
  {
    if args == [] || room == 0 then []
    else if args[0].Some? then [args[0].value] + Admitted(room - 1, args[1..])
    else Admitted(room, args[1..])
  }

  /** Every admitted entry is one of the arguments: the k-th comes from argument i. */
  lemma {:induction false} AdmittedFromArgs(room: nat, args: seq<Option<nat>>, k: nat) returns (i: nat)
    requires k < |Admitted(room, args)|
    ensures i < |args| && args[i] == Some(Admitted(room, args)[k])
    decreases |args|
  {
    if args[0].Some? && k == 0 {
      i := 0;
    } else {
      var k' := if args[0].Some? then k - 1 else k;
      var room' := if args[0].Some? then room - 1 else room;
      var j := AdmittedFromArgs(room', args[1..], k');
      i := j + 1;
    }
  }

  /** The remaining arguments are still unattached after the first is added. */
  lemma ServiceArgsTail(nodes: seq<Node>, d: nat, svcs: seq<Option<nat>>)
    requires WellFormed(nodes) && d < |nodes| && IsDeviceKind(nodes[d].kind) && ServiceArgs(nodes, svcs) && svcs != []
    ensures ServiceArgs(AddServiceStep(nodes, d, svcs[0]), svcs[1..])
  {
    forall k | 0 <= k < |svcs[1..]| ensures svcs[1..][k] == svcs[k + 1] { }
  }

  /** One addService call appends its argument exactly when it is not NULL and a slot
      is free. */
  lemma ServiceStepAppends(nodes: seq<Node>, d: nat, svc: Option<nat>)
    requires WellFormed(nodes) && d < |nodes| && IsDeviceKind(nodes[d].kind)
    requires svc.Some? ==> svc.value < |nodes| && IsServiceKind(nodes[svc.value].kind) && nodes[svc.value].parent.None?
    ensures AddServiceStep(nodes, d, svc)[d].services ==
      nodes[d].services + (if svc.Some? && |nodes[d].services| < MAX_SERVICES then [svc.value] else [])
  {
    if svc.Some? && |nodes[d].services| < MAX_SERVICES {
      assert svc.value != d;
    }
  }

  /** addServices appends exactly the admitted arguments to the service list, in
      argument order, and drops the rest once the eight slots are full. */
  lemma {:induction false} AttachServicesAppends(nodes: seq<Node>, d: nat, svcs: seq<Option<nat>>)
    requires WellFormed(nodes) && d < |nodes| && IsDeviceKind(nodes[d].kind) && ServiceArgs(nodes, svcs)
    ensures |nodes[d].services| <= MAX_SERVICES
    ensures AttachServices(nodes, d, svcs)[d].services ==
      nodes[d].services + Admitted(MAX_SERVICES - |nodes[d].services|, svcs)
    decreases |svcs|
  {
    assert NodeOk(nodes, d);
    if svcs != [] {
      var first := ServiceStepListed(nodes, d, svcs);
      AttachServicesAppends(first, d, svcs[1..]);
    }
  }

  /** One addService call of addServices: the device's list so far plus what the
      remaining calls admit is what the whole call admits; first is the tree after
      that call. */
  lemma ServiceStepListed(nodes: seq<Node>, d: nat, svcs: seq<Option<nat>>) returns (first: seq<Node>)
    requires WellFormed(nodes) && d < |nodes| && IsDeviceKind(nodes[d].kind) && ServiceArgs(nodes, svcs) && svcs != []
    requires |nodes[d].services| <= MAX_SERVICES
    ensures WellFormed(first) && |first| == |nodes| && IsDeviceKind(first[d].kind) && ServiceArgs(first, svcs[1..])
    ensures |first[d].services| <= MAX_SERVICES
    ensures AttachServices(nodes, d, svcs)[d] == AttachServices(first, d, svcs[1..])[d]
    ensures first[d].services + Admitted(MAX_SERVICES - |first[d].services|, svcs[1..]) ==
      nodes[d].services + Admitted(MAX_SERVICES - |nodes[d].services|, svcs)
  {
    first := ServiceStepNext(nodes, d, svcs);
    AdmittedAppend(nodes[d].services, first[d].services, MAX_SERVICES, svcs);
  }

  /** The first addService call of addServices, as the tree it leaves behind. */
  lemma ServiceStepNext(nodes: seq<Node>, d: nat, svcs: seq<Option<nat>>) returns (first: seq<Node>)
    requires WellFormed(nodes) && d < |nodes| && IsDeviceKind(nodes[d].kind) && ServiceArgs(nodes, svcs) && svcs != []
    ensures WellFormed(first) && |first| == |nodes| && IsDeviceKind(first[d].kind) && ServiceArgs(first, svcs[1..])
    ensures AttachServices(nodes, d, svcs)[d] == AttachServices(first, d, svcs[1..])[d]
    ensures first[d].services ==
      nodes[d].services + (if svcs[0].Some? && |nodes[d].services| < MAX_SERVICES then [svcs[0].value] else [])
  {
    first := AddServiceStep(nodes, d, svcs[0]);
    ServiceArgsTail(nodes, d, svcs);
    ServiceStepAppends(nodes, d, svcs[0]);
  }

  /** addServices touches only the services it is passed and the device's list: every
      other object keeps all its fields, and the device keeps its target and parent. */
  lemma {:induction false} AttachServicesFrame(nodes: seq<Node>, d: nat, svcs: seq<Option<nat>>, x: nat)
    requires WellFormed(nodes) && d < |nodes| && IsDeviceKind(nodes[d].kind) && ServiceArgs(nodes, svcs)
    requires x < |nodes| && forall k :: 0 <= k < |svcs| ==> svcs[k] != Some(x)
    ensures x != d ==> AttachServices(nodes, d, svcs)[x] == nodes[x]
    ensures AttachServices(nodes, d, svcs)[x].target == nodes[x].target
    ensures AttachServices(nodes, d, svcs)[x].parent == nodes[x].parent
    decreases |svcs|
  {
    if svcs != [] {
      ServiceArgsTail(nodes, d, svcs);
      assert forall k :: 0 <= k < |svcs[1..]| ==> svcs[1..][k] == svcs[k + 1];
      AttachServicesFrame(AddServiceStep(nodes, d, svcs[0]), d, svcs[1..], x);
    }
  }

  /** The default names: the k-th argument that addServices admits is named
      "service" + its slot number when its target is empty, and keeps its target
      otherwise. */
  lemma AttachServicesTargets(nodes: seq<Node>, d: nat, svcs: seq<Option<nat>>)
    requires WellFormed(nodes) && d < |nodes| && IsDeviceKind(nodes[d].kind) && ServiceArgs(nodes, svcs)
    ensures |nodes[d].services| <= MAX_SERVICES
    ensures var a := Admitted(MAX_SERVICES - |nodes[d].services|, svcs);
      forall k :: 0 <= k < |a| ==> (a[k] < |nodes| &&
        AttachServices(nodes, d, svcs)[a[k]].target == DefaultTarget("service", |nodes[d].services| + k, nodes[a[k]].target))
  {
    assert NodeOk(nodes, d);
    var a := Admitted(MAX_SERVICES - |nodes[d].services|, svcs);
    forall k | 0 <= k < |a|
      ensures a[k] < |nodes| &&
        AttachServices(nodes, d, svcs)[a[k]].target == DefaultTarget("service", |nodes[d].services| + k, nodes[a[k]].target)
    {
      AttachServicesTargetAt(nodes, d, svcs, k);
    }
  }

  /** AttachServicesTargets for the k-th admitted argument. */
  lemma {:induction false} AttachServicesTargetAt(nodes: seq<Node>, d: nat, svcs: seq<Option<nat>>, k: nat)
    requires WellFormed(nodes) && d < |nodes| && IsDeviceKind(nodes[d].kind) && ServiceArgs(nodes, svcs)
    requires |nodes[d].services| <= MAX_SERVICES && k < |Admitted(MAX_SERVICES - |nodes[d].services|, svcs)|
    ensures Admitted(MAX_SERVICES - |nodes[d].services|, svcs)[k] < |nodes|
    ensures var x := Admitted(MAX_SERVICES - |nodes[d].services|, svcs)[k];
      AttachServices(nodes, d, svcs)[x].target == DefaultTarget("service", |nodes[d].services| + k, nodes[x].target)
    decreases |svcs|, 1
  {
    AdmittedNonEmpty(MAX_SERVICES - |nodes[d].services|, svcs, k);
    if svcs[0].None? {
      AttachServicesTargetSkip(nodes, d, svcs, k);
    } else if k == 0 {
      AttachServicesTargetFirst(nodes, d, svcs, k);
    } else {
      AttachServicesTargetLater(nodes, d, svcs, k);
    }
  }

  /** A NULL first argument leaves the k-th admitted argument and its slot unchanged. */
  lemma {:induction false} AttachServicesTargetSkip(nodes: seq<Node>, d: nat, svcs: seq<Option<nat>>, k: nat)
    requires WellFormed(nodes) && d < |nodes| && IsDeviceKind(nodes[d].kind) && ServiceArgs(nodes, svcs)
    requires |nodes[d].services| <= MAX_SERVICES && k < |Admitted(MAX_SERVICES - |nodes[d].services|, svcs)|
    requires svcs != [] && svcs[0].None?
    ensures Admitted(MAX_SERVICES - |nodes[d].services|, svcs)[k] < |nodes|
    ensures var x := Admitted(MAX_SERVICES - |nodes[d].services|, svcs)[k];
      AttachServices(nodes, d, svcs)[x].target == DefaultTarget("service", |nodes[d].services| + k, nodes[x].target)
    decreases |svcs|, 0
  {
    AdmittedShift(MAX_SERVICES - |nodes[d].services|, svcs, k);
    AttachServicesSkip(nodes, d, svcs);
    AttachServicesTargetAt(nodes, d, svcs[1..], k);
  }

  /** An admitted first argument is named after the slot it takes. */
  lemma AttachServicesTargetFirst(nodes: seq<Node>, d: nat, svcs: seq<Option<nat>>, k: nat)
    requires WellFormed(nodes) && d < |nodes| && IsDeviceKind(nodes[d].kind) && ServiceArgs(nodes, svcs)
    requires |nodes[d].services| <= MAX_SERVICES && k < |Admitted(MAX_SERVICES - |nodes[d].services|, svcs)|
    requires svcs != [] && svcs[0].Some? && k == 0
    ensures Admitted(MAX_SERVICES - |nodes[d].services|, svcs)[k] < |nodes|
    ensures var x := Admitted(MAX_SERVICES - |nodes[d].services|, svcs)[k];
      AttachServices(nodes, d, svcs)[x].target == DefaultTarget("service", |nodes[d].services| + k, nodes[x].target)
  {
    AdmittedShift(MAX_SERVICES - |nodes[d].services|, svcs, k);
    var x := svcs[0].value;
    var first := AddServiceStep(nodes, d, svcs[0]);
    ServiceArgsTail(nodes, d, svcs);
    ServiceStepTarget(nodes, d, svcs[0], x);
    forall i | 0 <= i < |svcs[1..]| ensures svcs[1..][i] != Some(x) {
      assert svcs[1..][i] == svcs[i + 1];
    }
    AttachServicesFrame(first, d, svcs[1..], x);
  }

  /** After an admitted first argument, the later arguments are admitted from the
      next slot on: the k-th admitted argument overall takes slot k. */
  lemma {:induction false} AttachServicesTargetLater(nodes: seq<Node>, d: nat, svcs: seq<Option<nat>>, k: nat)
    requires WellFormed(nodes) && d < |nodes| && IsDeviceKind(nodes[d].kind) && ServiceArgs(nodes, svcs)
    requires |nodes[d].services| <= MAX_SERVICES && k < |Admitted(MAX_SERVICES - |nodes[d].services|, svcs)|
    requires svcs != [] && svcs[0].Some? && k > 0
    ensures Admitted(MAX_SERVICES - |nodes[d].services|, svcs)[k] < |nodes|
    ensures var x := Admitted(MAX_SERVICES - |nodes[d].services|, svcs)[k];
      AttachServices(nodes, d, svcs)[x].target == DefaultTarget("service", |nodes[d].services| + k, nodes[x].target)
    decreases |svcs|, 0
  {
    var first := ServiceStepPassesOn(nodes, d, svcs, k);
    AttachServicesTargetAt(first, d, svcs[1..], k - 1);
    var x := Admitted(MAX_SERVICES - |nodes[d].services|, svcs)[k];
    assert AttachServices(first, d, svcs[1..])[x].target ==
      DefaultTarget("service", |first[d].services| + (k - 1), first[x].target);
  }

  /** After admitting its first argument, addServices goes on from the next slot with
      the remaining arguments, and the k-th admitted argument keeps its target through
      that first addService call; first is the tree after it. */
  lemma ServiceStepPassesOn(nodes: seq<Node>, d: nat, svcs: seq<Option<nat>>, k: nat) returns (first: seq<Node>)
    requires WellFormed(nodes) && d < |nodes| && IsDeviceKind(nodes[d].kind) && ServiceArgs(nodes, svcs)
    requires |nodes[d].services| <= MAX_SERVICES && k < |Admitted(MAX_SERVICES - |nodes[d].services|, svcs)|
    requires svcs != [] && svcs[0].Some? && k > 0
    ensures Admitted(MAX_SERVICES - |nodes[d].services|, svcs)[k] < |nodes|
    ensures WellFormed(first) && |first| == |nodes| && IsDeviceKind(first[d].kind) && ServiceArgs(first, svcs[1..])
    ensures |first[d].services| <= MAX_SERVICES && k - 1 < |Admitted(MAX_SERVICES - |first[d].services|, svcs[1..])|
    ensures var x := Admitted(MAX_SERVICES - |nodes[d].services|, svcs)[k];
      Admitted(MAX_SERVICES - |first[d].services|, svcs[1..])[k - 1] == x &&
      DefaultTarget("service", |first[d].services| + (k - 1), first[x].target) ==
        DefaultTarget("service", |nodes[d].services| + k, nodes[x].target) &&
      AttachServices(nodes, d, svcs)[x] == AttachServices(first, d, svcs[1..])[x]
  {
    var n := |nodes[d].services|;
    AdmittedLater(MAX_SERVICES - n, svcs, k);
    var i := AdmittedFromArgs(MAX_SERVICES - n, svcs, k);
    var x := Admitted(MAX_SERVICES - n, svcs)[k];
    assert svcs[i] == Some(x);
    first := AddServiceStep(nodes, d, svcs[0]);
    ServiceArgsTail(nodes, d, svcs);
    ServiceStepAppends(nodes, d, svcs[0]);
    ServiceStepTarget(nodes, d, svcs[0], x);
    assert |first[d].services| + (k - 1) == n + k;
  }

  /** A NULL argument to addServices is skipped. */
  lemma AttachServicesSkip(nodes: seq<Node>, d: nat, svcs: seq<Option<nat>>)
    requires WellFormed(nodes) && d < |nodes| && IsDeviceKind(nodes[d].kind) && ServiceArgs(nodes, svcs)
    requires svcs != [] && svcs[0].None?
    ensures ServiceArgs(nodes, svcs[1..])
    ensures AttachServices(nodes, d, svcs) == AttachServices(nodes, d, svcs[1..])
  {
    ServiceArgsTail(nodes, d, svcs);
  }

  /** One addService call names only the service it admits. */
  lemma ServiceStepTarget(nodes: seq<Node>, d: nat, svc: Option<nat>, x: nat)
    requires WellFormed(nodes) && d < |nodes| && IsDeviceKind(nodes[d].kind)
    requires svc.Some? ==> svc.value < |nodes| && IsServiceKind(nodes[svc.value].kind) && nodes[svc.value].parent.None?
    requires x < |nodes|
    ensures AddServiceStep(nodes, d, svc)[x].target ==
      if svc == Some(x) && |nodes[d].services| < MAX_SERVICES
      then DefaultTarget("service", |nodes[d].services|, nodes[x].target) else nodes[x].target
  {
    if svc.Some? && |nodes[d].services| < MAX_SERVICES {
      assert svc.value != d;
    }
  }

  /** An admitted argument exists only when there are arguments and room. */
  lemma AdmittedNonEmpty(room: nat, args: seq<Option<nat>>, k: nat)
    requires k < |Admitted(room, args)|
    ensures args != [] && room > 0
  {
  }

  /** Where the k-th admitted argument comes from once the first argument is consumed:
      a NULL first argument shifts nothing, an admitted one is entry 0 and moves every
      later entry down by one, and later entries differ from it. */
  lemma AdmittedShift(room: nat, args: seq<Option<nat>>, k: nat)
    requires k < |Admitted(room, args)|
    requires forall a, b :: 0 <= a < b < |args| && args[a].Some? && args[b].Some? ==> args[a].value != args[b].value
    ensures args != [] && room > 0
    ensures args[0].None? ==> k < |Admitted(room, args[1..])| && Admitted(room, args)[k] == Admitted(room, args[1..])[k]
    ensures args[0].Some? && k == 0 ==> Admitted(room, args)[0] == args[0].value
    ensures args[0].Some? && k > 0 ==>
      k - 1 < |Admitted(room - 1, args[1..])| && Admitted(room, args)[k] == Admitted(room - 1, args[1..])[k - 1] &&
      Admitted(room, args)[k] != args[0].value
  {
    if args[0].Some? && k > 0 {
      var x := Admitted(room - 1, args[1..])[k - 1];
      var i := AdmittedFromArgs(room - 1, args[1..], k - 1);
      assert args[i + 1] == Some(x);
    }
  }

  /** Two services with empty targets added to a device without services are named
      "service0" and "service1". */
  lemma DefaultServiceNames(nodes: seq<Node>, d: nat, svcs: seq<Option<nat>>)
    requires WellFormed(nodes) && d < |nodes| && IsDeviceKind(nodes[d].kind) && nodes[d].services == []
    requires |svcs| == 2 && svcs[0].Some? && svcs[1].Some? && ServiceArgs(nodes, svcs)
    requires nodes[svcs[0].value].target == [] && nodes[svcs[1].value].target == []
    ensures AttachServices(nodes, d, svcs)[svcs[0].value].target == "service0"
    ensures AttachServices(nodes, d, svcs)[svcs[1].value].target == "service1"
  {
    AttachServicesTargets(nodes, d, svcs);
    var a := Admitted(MAX_SERVICES - |nodes[d].services|, svcs);
    AdmittedBoth(MAX_SERVICES - |nodes[d].services|, svcs);
    var fin := AttachServices(nodes, d, svcs);
    assert fin[a[0]].target == DefaultTarget("service", |nodes[d].services| + 0, nodes[a[0]].target);
    assert fin[a[1]].target == DefaultTarget("service", |nodes[d].services| + 1, nodes[a[1]].target);
    assert Decimal(0) == "0" && Decimal(1) == "1";
  }

  /** After a non-NULL first argument, the k-th admitted argument is the (k-1)-th one
      admitted from the rest, and differs from the first. */
  lemma AdmittedLater(room: nat, args: seq<Option<nat>>, k: nat)
    requires 0 < k < |Admitted(room, args)| && args != [] && args[0].Some?
    requires forall a, b :: 0 <= a < b < |args| && args[a].Some? && args[b].Some? ==> args[a].value != args[b].value
    ensures room > 0 && k - 1 < |Admitted(room - 1, args[1..])|
    ensures Admitted(room, args)[k] == Admitted(room - 1, args[1..])[k - 1]
    ensures Admitted(room, args)[k] != args[0].value
  {
    AdmittedShift(room, args, k);
  }

  /** A list with cap slots, extended by what the arguments fill: taking the first
      argument first and the rest afterwards gives the same list. */
  lemma AdmittedAppend(list: seq<nat>, step: seq<nat>, cap: nat, args: seq<Option<nat>>)
    requires |list| <= cap && args != []
    requires step == list + (if args[0].Some? && |list| < cap then [args[0].value] else [])
    ensures |step| <= cap
    ensures step + Admitted(cap - |step|, args[1..]) == list + Admitted(cap - |list|, args)
  {
    var room := cap - |list|;
    if args[0].Some? && room > 0 {
      Concat2(list, [args[0].value], Admitted(room - 1, args[1..]));
    } else {
      assert step == list;
    }
  }

  /** With room for both, two non-NULL arguments are both admitted. */
  lemma AdmittedBoth(room: nat, args: seq<Option<nat>>)
    requires room >= 2 && |args| == 2 && args[0].Some? && args[1].Some?
    ensures Admitted(room, args) == [args[0].value, args[1].value]
  {
    assert args[1..][0] == args[1] && args[1..][1..] == [];
    assert Admitted(room - 1, args[1..]) == [args[1].value] + Admitted(room - 2, []);
  }

  /** An object that is attached already, or is no service, is not an argument of
      addServices, so it keeps its class, target and parent. */
  lemma PlacedAfterServices(nodes: seq<Node>, d: nat, svcs: seq<Option<nat>>, x: nat)
    requires WellFormed(nodes) && d < |nodes| && IsDeviceKind(nodes[d].kind) && ServiceArgs(nodes, svcs)
    requires x < |nodes| && (nodes[x].parent.Some? || !IsServiceKind(nodes[x].kind))
    ensures Placed(nodes, AttachServices(nodes, d, svcs), x)
  {
    AttachServicesFrame(nodes, d, svcs, x);
  }

  /** The routes of a service already on the device stay what they were while
      addServices attaches others. */
  lemma AttachServicesKeepServiceRoutes(nodes: seq<Node>, d: nat, svcs: seq<Option<nat>>, v: nat)
    requires WellFormed(nodes) && d < |nodes| && IsDeviceKind(nodes[d].kind) && ServiceArgs(nodes, svcs)
    requires v < |nodes| && nodes[v].parent == Some(d)
    ensures WellFormed(AttachServices(nodes, d, svcs))
    ensures PreRoutes(AttachServices(nodes, d, svcs), v) == PreRoutes(nodes, v)
  {
    var fin := AttachServices(nodes, d, svcs);
    AttachServicesWellFormed(nodes, d, svcs);
    assert NodeOk(nodes, v) && NodeOk(nodes, d);
    forall x | 0 <= x < |nodes| && InTree(nodes, x, v) ensures Placed(nodes, fin, x) {
      if x != v && x != d {
        assert NodeOk(nodes, x);
      }
      PlacedAfterServices(nodes, d, svcs, x);
    }
    PreRoutesFrame(nodes, fin, v);
  }

  /** The services one addServices call admits, in argument order. */
  function AddedServices(nodes: seq<Node>, d: nat, svcs: seq<Option<nat>>): (a: seq<nat>)
    requires WellFormed(nodes) && d < |nodes| && IsDeviceKind(nodes[d].kind) && ServiceArgs(nodes, svcs)
    ensures AllIn(nodes, a) && NoDup(a)
    ensures forall k :: 0 <= k < |a| ==> Some(a[k]) in svcs
  {
    assert NodeOk(nodes, d);
    var room := MAX_SERVICES - |nodes[d].services|;
    AdmittedNoDup(room, svcs);
    assert forall k :: 0 <= k < |Admitted(room, svcs)| ==> Some(Admitted(room, svcs)[k]) in svcs by {
      forall k | 0 <= k < |Admitted(room, svcs)| ensures Some(Admitted(room, svcs)[k]) in svcs {
        var i := AdmittedFromArgs(room, svcs, k);
      }
    }
    Admitted(room, svcs)
  }

  /** The admitted list of addServices, seen after its first argument is handled: the
      first argument, when admitted, followed by what the rest admits. */
  lemma AddedServicesStep(nodes: seq<Node>, d: nat, svcs: seq<Option<nat>>)
    requires WellFormed(nodes) && d < |nodes| && IsDeviceKind(nodes[d].kind) && ServiceArgs(nodes, svcs) && svcs != []
    ensures ServiceArgs(AddServiceStep(nodes, d, svcs[0]), svcs[1..])
    ensures AttachServices(nodes, d, svcs) == AttachServices(AddServiceStep(nodes, d, svcs[0]), d, svcs[1..])
    ensures svcs[0].Some? && |nodes[d].services| < MAX_SERVICES ==>
      AddedServices(nodes, d, svcs) == [svcs[0].value] + AddedServices(AddServiceStep(nodes, d, svcs[0]), d, svcs[1..])
    ensures svcs[0].None? || |nodes[d].services| >= MAX_SERVICES ==>
      AddedServices(nodes, d, svcs) == AddedServices(AddServiceStep(nodes, d, svcs[0]), d, svcs[1..])
  {
    ServiceArgsTail(nodes, d, svcs);
    ServiceStepAppends(nodes, d, svcs[0]);
  }

  /** The arguments of `addDevices(a, b, ...)`, with the 16 random bytes each
      `generateUUID` call would draw. */
  predicate DeviceArgs(nodes: seq<Node>, dvcs: seq<Option<nat>>, bytes: seq<seq<bv8>>) {
    |bytes| == |dvcs| && (forall k :: 0 <= k < |bytes| ==> |bytes[k]| == 16) &&
    (forall k :: 0 <= k < |dvcs| && dvcs[k].Some? ==>
       dvcs[k].value < |nodes| && IsPlainDeviceKind(nodes[dvcs[k].value].kind) && nodes[dvcs[k].value].parent.None?) &&
    (forall a, b :: 0 <= a < b < |dvcs| && dvcs[a].Some? && dvcs[b].Some? ==> dvcs[a].value != dvcs[b].value)
  }

  /** One `addDevice(dvc)` call on the tree: NULL and a full root change nothing. */
  function AddDeviceStep(nodes: seq<Node>, r: nat, dvc: Option<nat>, bytes: seq<bv8>): (n': seq<Node>)
    requires WellFormed(nodes) && r < |nodes| && nodes[r].kind.RootDevice? && |bytes| == 16
    requires dvc.Some? ==> dvc.value < |nodes| && IsPlainDeviceKind(nodes[dvc.value].kind) && nodes[dvc.value].parent.None?
    ensures WellFormed(n') && |n'| == |nodes|
    ensures forall x :: 0 <= x < |nodes| ==> n'[x].kind == nodes[x].kind
    ensures forall x :: 0 <= x < |nodes| && (dvc.None? || x != dvc.value) ==> n'[x].parent == nodes[x].parent
  {
    if dvc.Some? && |nodes[r].devices| < MAX_DEVICES then
      AttachDeviceWellFormed(nodes, r, dvc.value, bytes);
      AttachDevice(nodes, r, dvc.value, bytes)
    else nodes
  }

  /** `addDevices(a, b, ...)`: `addDevice(a)`, then `addDevices(b, ...)`. */
  function AttachDevices(nodes: seq<Node>, r: nat, dvcs: seq<Option<nat>>, bytes: seq<seq<bv8>>): (n': seq<Node>)
    requires WellFormed(nodes) && r < |nodes| && nodes[r].kind.RootDevice? && DeviceArgs(nodes, dvcs, bytes)
    ensures WellFormed(n') && |n'| == |nodes|
    ensures forall x :: 0 <= x < |nodes| ==> n'[x].kind == nodes[x].kind
    decreases |dvcs|
  {
    if dvcs == [] then nodes
    else
      DeviceArgsTail(nodes, r, dvcs, bytes);
      AttachDevices(AddDeviceStep(nodes, r, dvcs[0], bytes[0]), r, dvcs[1..], bytes[1..])
  }

  lemma DeviceArgsTail(nodes: seq<Node>, r: nat, dvcs: seq<Option<nat>>, bytes: seq<seq<bv8>>)
    requires WellFormed(nodes) && r < |nodes| && nodes[r].kind.RootDevice? && DeviceArgs(nodes, dvcs, bytes) && dvcs != []
    ensures DeviceArgs(AddDeviceStep(nodes, r, dvcs[0], bytes[0]), dvcs[1..], bytes[1..])
  {
    forall k | 0 <= k < |dvcs[1..]| ensures dvcs[1..][k] == dvcs[k + 1] && bytes[1..][k] == bytes[k + 1] { }
  }

  lemma DeviceStepAppends(nodes: seq<Node>, r: nat, dvc: Option<nat>, bytes: seq<bv8>)
    requires WellFormed(nodes) && r < |nodes| && nodes[r].kind.RootDevice? && |bytes| == 16
    requires dvc.Some? ==> dvc.value < |nodes| && IsPlainDeviceKind(nodes[dvc.value].kind) && nodes[dvc.value].parent.None?
    ensures AddDeviceStep(nodes, r, dvc, bytes)[r].devices ==
      nodes[r].devices + (if dvc.Some? && |nodes[r].devices| < MAX_DEVICES then [dvc.value] else [])
  {
    if dvc.Some? && |nodes[r].devices| < MAX_DEVICES {
      assert dvc.value != r;
    }
  }

  /** addDevices appends exactly the admitted arguments to the device list. */
  lemma {:induction false} AttachDevicesAppends(nodes: seq<Node>, r: nat, dvcs: seq<Option<nat>>, bytes: seq<seq<bv8>>)
    requires WellFormed(nodes) && r < |nodes| && nodes[r].kind.RootDevice? && DeviceArgs(nodes, dvcs, bytes)
    ensures |nodes[r].devices| <= MAX_DEVICES
    ensures AttachDevices(nodes, r, dvcs, bytes)[r].devices ==
      nodes[r].devices + Admitted(MAX_DEVICES - |nodes[r].devices|, dvcs)
    decreases |dvcs|
  {
    assert NodeOk(nodes, r);
    if dvcs != [] {
      var first := DeviceStepListed(nodes, r, dvcs, bytes);
      AttachDevicesAppends(first, r, dvcs[1..], bytes[1..]);
    }
  }

  /** One addDevice call of addDevices: the root's list so far plus what the remaining
      calls admit is what the whole call admits; first is the tree after that call. */
  lemma DeviceStepListed(nodes: seq<Node>, r: nat, dvcs: seq<Option<nat>>, bytes: seq<seq<bv8>>) returns (first: seq<Node>)
    requires WellFormed(nodes) && r < |nodes| && nodes[r].kind.RootDevice? && DeviceArgs(nodes, dvcs, bytes) && dvcs != []
    requires |nodes[r].devices| <= MAX_DEVICES
    ensures WellFormed(first) && |first| == |nodes| && first[r].kind.RootDevice? && DeviceArgs(first, dvcs[1..], bytes[1..])
    ensures |first[r].devices| <= MAX_DEVICES
    ensures AttachDevices(nodes, r, dvcs, bytes)[r] == AttachDevices(first, r, dvcs[1..], bytes[1..])[r]
    ensures first[r].devices + Admitted(MAX_DEVICES - |first[r].devices|, dvcs[1..]) ==
      nodes[r].devices + Admitted(MAX_DEVICES - |nodes[r].devices|, dvcs)
  {
    first := DeviceStepNext(nodes, r, dvcs, bytes);
    AdmittedAppend(nodes[r].devices, first[r].devices, MAX_DEVICES, dvcs);
  }

  /** The first addDevice call of addDevices, as the tree it leaves behind. */
  lemma DeviceStepNext(nodes: seq<Node>, r: nat, dvcs: seq<Option<nat>>, bytes: seq<seq<bv8>>) returns (first: seq<Node>)
    requires WellFormed(nodes) && r < |nodes| && nodes[r].kind.RootDevice? && DeviceArgs(nodes, dvcs, bytes) && dvcs != []
    ensures WellFormed(first) && |first| == |nodes| && first[r].kind.RootDevice? && DeviceArgs(first, dvcs[1..], bytes[1..])
    ensures AttachDevices(nodes, r, dvcs, bytes)[r] == AttachDevices(first, r, dvcs[1..], bytes[1..])[r]
    ensures first[r].devices ==
      nodes[r].devices + (if dvcs[0].Some? && |nodes[r].devices| < MAX_DEVICES then [dvcs[0].value] else [])
  {
    first := AddDeviceStep(nodes, r, dvcs[0], bytes[0]);
    AttachDevicesUnfold(nodes, r, dvcs, bytes);
    DeviceStepAppends(nodes, r, dvcs[0], bytes[0]);
  }

  /** addDevices touches only the devices it is passed and the root's list: every
      other object keeps all its fields, and the root keeps the rest of its own. */
  lemma {:induction false} AttachDevicesFrame(nodes: seq<Node>, r: nat, dvcs: seq<Option<nat>>, bytes: seq<seq<bv8>>, x: nat)
    requires WellFormed(nodes) && r < |nodes| && nodes[r].kind.RootDevice? && DeviceArgs(nodes, dvcs, bytes)
    requires x < |nodes| && forall k :: 0 <= k < |dvcs| ==> dvcs[k] != Some(x)
    ensures x != r ==> AttachDevices(nodes, r, dvcs, bytes)[x] == nodes[x]
    ensures AttachDevices(nodes, r, dvcs, bytes)[x] == nodes[x].(devices := AttachDevices(nodes, r, dvcs, bytes)[x].devices)
    decreases |dvcs|
  {
    if dvcs != [] {
      DeviceArgsTail(nodes, r, dvcs, bytes);
      assert forall k :: 0 <= k < |dvcs[1..]| ==> dvcs[1..][k] == dvcs[k + 1];
      AttachDevicesFrame(AddDeviceStep(nodes, r, dvcs[0], bytes[0]), r, dvcs[1..], bytes[1..], x);
    }
  }

  /** The default names: the k-th argument that addDevices admits is named "device" +
      its slot number when its target is empty, and keeps its target otherwise. */
  lemma AttachDevicesTargets(nodes: seq<Node>, r: nat, dvcs: seq<Option<nat>>, bytes: seq<seq<bv8>>)
    requires WellFormed(nodes) && r < |nodes| && nodes[r].kind.RootDevice? && DeviceArgs(nodes, dvcs, bytes)
    ensures |nodes[r].devices| <= MAX_DEVICES
    ensures var a := Admitted(MAX_DEVICES - |nodes[r].devices|, dvcs);
      forall k :: 0 <= k < |a| ==> (a[k] < |nodes| &&
        AttachDevices(nodes, r, dvcs, bytes)[a[k]].target == DefaultTarget("device", |nodes[r].devices| + k, nodes[a[k]].target))
  {
    assert NodeOk(nodes, r);
    var a := Admitted(MAX_DEVICES - |nodes[r].devices|, dvcs);
    forall k | 0 <= k < |a|
      ensures a[k] < |nodes| &&
        AttachDevices(nodes, r, dvcs, bytes)[a[k]].target == DefaultTarget("device", |nodes[r].devices| + k, nodes[a[k]].target)
    {
      AttachDevicesTargetAt(nodes, r, dvcs, bytes, k);
    }
  }

  /** AttachDevicesTargets for the k-th admitted argument. */
  lemma {:induction false} AttachDevicesTargetAt(nodes: seq<Node>, r: nat, dvcs: seq<Option<nat>>, bytes: seq<seq<bv8>>, k: nat)
    requires WellFormed(nodes) && r < |nodes| && nodes[r].kind.RootDevice? && DeviceArgs(nodes, dvcs, bytes)
    requires |nodes[r].devices| <= MAX_DEVICES && k < |Admitted(MAX_DEVICES - |nodes[r].devices|, dvcs)|
    ensures Admitted(MAX_DEVICES - |nodes[r].devices|, dvcs)[k] < |nodes|
    ensures var x := Admitted(MAX_DEVICES - |nodes[r].devices|, dvcs)[k];
      AttachDevices(nodes, r, dvcs, bytes)[x].target == DefaultTarget("device", |nodes[r].devices| + k, nodes[x].target)
    decreases |dvcs|, 1
  {
    AdmittedNonEmpty(MAX_DEVICES - |nodes[r].devices|, dvcs, k);
    if dvcs[0].None? {
      AttachDevicesTargetSkip(nodes, r, dvcs, bytes, k);
    } else if k == 0 {
      AttachDevicesTargetFirst(nodes, r, dvcs, bytes, k);
    } else {
      AttachDevicesTargetLater(nodes, r, dvcs, bytes, k);
    }
  }

  /** A NULL first argument leaves the k-th admitted argument and its slot unchanged. */
  lemma {:induction false} AttachDevicesTargetSkip(nodes: seq<Node>, r: nat, dvcs: seq<Option<nat>>, bytes: seq<seq<bv8>>, k: nat)
    requires WellFormed(nodes) && r < |nodes| && nodes[r].kind.RootDevice? && DeviceArgs(nodes, dvcs, bytes)
    requires |nodes[r].devices| <= MAX_DEVICES && k < |Admitted(MAX_DEVICES - |nodes[r].devices|, dvcs)|
    requires dvcs != [] && dvcs[0].None?
    ensures Admitted(MAX_DEVICES - |nodes[r].devices|, dvcs)[k] < |nodes|
    ensures var x := Admitted(MAX_DEVICES - |nodes[r].devices|, dvcs)[k];
      AttachDevices(nodes, r, dvcs, bytes)[x].target == DefaultTarget("device", |nodes[r].devices| + k, nodes[x].target)
    decreases |dvcs|, 0
  {
    AdmittedShift(MAX_DEVICES - |nodes[r].devices|, dvcs, k);
    AttachDevicesSkip(nodes, r, dvcs, bytes);
    AttachDevicesTargetAt(nodes, r, dvcs[1..], bytes[1..], k);
  }

  /** An admitted first argument is named after the slot it takes. */
  lemma AttachDevicesTargetFirst(nodes: seq<Node>, r: nat, dvcs: seq<Option<nat>>, bytes: seq<seq<bv8>>, k: nat)
    requires WellFormed(nodes) && r < |nodes| && nodes[r].kind.RootDevice? && DeviceArgs(nodes, dvcs, bytes)
    requires |nodes[r].devices| <= MAX_DEVICES && k < |Admitted(MAX_DEVICES - |nodes[r].devices|, dvcs)|
    requires dvcs != [] && dvcs[0].Some? && k == 0
    ensures Admitted(MAX_DEVICES - |nodes[r].devices|, dvcs)[k] < |nodes|
    ensures var x := Admitted(MAX_DEVICES - |nodes[r].devices|, dvcs)[k];
      AttachDevices(nodes, r, dvcs, bytes)[x].target == DefaultTarget("device", |nodes[r].devices| + k, nodes[x].target)
  {
    AdmittedShift(MAX_DEVICES - |nodes[r].devices|, dvcs, k);
    var x := dvcs[0].value;
    var first := AddDeviceStep(nodes, r, dvcs[0], bytes[0]);
    DeviceArgsTail(nodes, r, dvcs, bytes);
    DeviceStepTarget(nodes, r, dvcs[0], bytes[0], x);
    forall i | 0 <= i < |dvcs[1..]| ensures dvcs[1..][i] != Some(x) {
      assert dvcs[1..][i] == dvcs[i + 1];
    }
    AttachDevicesFrame(first, r, dvcs[1..], bytes[1..], x);
  }

  /** After an admitted first argument, the later arguments are admitted from the
      next slot on: the k-th admitted argument overall takes slot k. */
  lemma {:induction false} AttachDevicesTargetLater(nodes: seq<Node>, r: nat, dvcs: seq<Option<nat>>, bytes: seq<seq<bv8>>, k: nat)
    requires WellFormed(nodes) && r < |nodes| && nodes[r].kind.RootDevice? && DeviceArgs(nodes, dvcs, bytes)
    requires |nodes[r].devices| <= MAX_DEVICES && k < |Admitted(MAX_DEVICES - |nodes[r].devices|, dvcs)|
    requires dvcs != [] && dvcs[0].Some? && k > 0
    ensures Admitted(MAX_DEVICES - |nodes[r].devices|, dvcs)[k] < |nodes|
    ensures var x := Admitted(MAX_DEVICES - |nodes[r].devices|, dvcs)[k];
      AttachDevices(nodes, r, dvcs, bytes)[x].target == DefaultTarget("device", |nodes[r].devices| + k, nodes[x].target)
    decreases |dvcs|, 0
  {
    var first := DeviceStepPassesOn(nodes, r, dvcs, bytes, k);
    AttachDevicesTargetAt(first, r, dvcs[1..], bytes[1..], k - 1);
    var x := Admitted(MAX_DEVICES - |nodes[r].devices|, dvcs)[k];
    assert AttachDevices(first, r, dvcs[1..], bytes[1..])[x].target ==
      DefaultTarget("device", |first[r].devices| + (k - 1), first[x].target);
  }

  /** After admitting its first argument, addDevices goes on from the next slot with
      the remaining arguments, and the k-th admitted argument keeps its target through
      that first addDevice call; first is the tree after it. */
  lemma DeviceStepPassesOn(nodes: seq<Node>, r: nat, dvcs: seq<Option<nat>>, bytes: seq<seq<bv8>>, k: nat)
      returns (first: seq<Node>)
    requires WellFormed(nodes) && r < |nodes| && nodes[r].kind.RootDevice? && DeviceArgs(nodes, dvcs, bytes)
    requires |nodes[r].devices| <= MAX_DEVICES && k < |Admitted(MAX_DEVICES - |nodes[r].devices|, dvcs)|
    requires dvcs != [] && dvcs[0].Some? && k > 0
    ensures Admitted(MAX_DEVICES - |nodes[r].devices|, dvcs)[k] < |nodes|
    ensures WellFormed(first) && |first| == |nodes| && first[r].kind.RootDevice? && DeviceArgs(first, dvcs[1..], bytes[1..])
    ensures |first[r].devices| <= MAX_DEVICES && k - 1 < |Admitted(MAX_DEVICES - |first[r].devices|, dvcs[1..])|
    ensures var x := Admitted(MAX_DEVICES - |nodes[r].devices|, dvcs)[k];
      Admitted(MAX_DEVICES - |first[r].devices|, dvcs[1..])[k - 1] == x &&
      DefaultTarget("device", |first[r].devices| + (k - 1), first[x].target) ==
        DefaultTarget("device", |nodes[r].devices| + k, nodes[x].target) &&
      AttachDevices(nodes, r, dvcs, bytes)[x] == AttachDevices(first, r, dvcs[1..], bytes[1..])[x]
  {
    var n := |nodes[r].devices|;
    AdmittedLater(MAX_DEVICES - n, dvcs, k);
    var i := AdmittedFromArgs(MAX_DEVICES - n, dvcs, k);
    var x := Admitted(MAX_DEVICES - n, dvcs)[k];
    assert dvcs[i] == Some(x);
    first := AddDeviceStep(nodes, r, dvcs[0], bytes[0]);
    DeviceArgsTail(nodes, r, dvcs, bytes);
    DeviceStepAppends(nodes, r, dvcs[0], bytes[0]);
    DeviceStepTarget(nodes, r, dvcs[0], bytes[0], x);
    assert |first[r].devices| + (k - 1) == n + k;
  }

  /** A NULL argument to addDevices is skipped. */
  lemma AttachDevicesSkip(nodes: seq<Node>, r: nat, dvcs: seq<Option<nat>>, bytes: seq<seq<bv8>>)
    requires WellFormed(nodes) && r < |nodes| && nodes[r].kind.RootDevice? && DeviceArgs(nodes, dvcs, bytes)
    requires dvcs != [] && dvcs[0].None?
    ensures DeviceArgs(nodes, dvcs[1..], bytes[1..])
    ensures AttachDevices(nodes, r, dvcs, bytes) == AttachDevices(nodes, r, dvcs[1..], bytes[1..])
  {
    DeviceArgsTail(nodes, r, dvcs, bytes);
  }

  /** One addDevice call names only the device it admits. */
  lemma DeviceStepTarget(nodes: seq<Node>, r: nat, dvc: Option<nat>, bytes: seq<bv8>, x: nat)
    requires WellFormed(nodes) && r < |nodes| && nodes[r].kind.RootDevice? && |bytes| == 16
    requires dvc.Some? ==> dvc.value < |nodes| && IsPlainDeviceKind(nodes[dvc.value].kind) && nodes[dvc.value].parent.None?
    requires x < |nodes|
    ensures AddDeviceStep(nodes, r, dvc, bytes)[x].target ==
      if dvc == Some(x) && |nodes[r].devices| < MAX_DEVICES
      then DefaultTarget("device", |nodes[r].devices|, nodes[x].target) else nodes[x].target
  {
    if dvc.Some? && |nodes[r].devices| < MAX_DEVICES {
      assert dvc.value != r;
    }
  }

  /** Two devices with empty targets added to a root without devices are named
      "device0" and "device1". */
  lemma DefaultDeviceNames(nodes: seq<Node>, r: nat, dvcs: seq<Option<nat>>, bytes: seq<seq<bv8>>)
    requires WellFormed(nodes) && r < |nodes| && nodes[r].kind.RootDevice? && nodes[r].devices == []
    requires |dvcs| == 2 && dvcs[0].Some? && dvcs[1].Some? && DeviceArgs(nodes, dvcs, bytes)
    requires nodes[dvcs[0].value].target == [] && nodes[dvcs[1].value].target == []
    ensures AttachDevices(nodes, r, dvcs, bytes)[dvcs[0].value].target == "device0"
    ensures AttachDevices(nodes, r, dvcs, bytes)[dvcs[1].value].target == "device1"
  {
    AttachDevicesTargets(nodes, r, dvcs, bytes);
    var a := Admitted(MAX_DEVICES - |nodes[r].devices|, dvcs);
    AdmittedBoth(MAX_DEVICES - |nodes[r].devices|, dvcs);
    var fin := AttachDevices(nodes, r, dvcs, bytes);
    assert fin[a[0]].target == DefaultTarget("device", |nodes[r].devices| + 0, nodes[a[0]].target);
    assert fin[a[1]].target == DefaultTarget("device", |nodes[r].devices| + 1, nodes[a[1]].target);
    assert Decimal(0) == "0" && Decimal(1) == "1";
  }

  /** An object that is attached already, or is no plain device, is not an argument
      of addDevices, so it keeps its class, target, parent and services. */
  lemma AgreeAfterDevices(nodes: seq<Node>, r: nat, dvcs: seq<Option<nat>>, bytes: seq<seq<bv8>>, x: nat)
    requires WellFormed(nodes) && r < |nodes| && nodes[r].kind.RootDevice? && DeviceArgs(nodes, dvcs, bytes)
    requires x < |nodes| && (nodes[x].parent.Some? || !IsPlainDeviceKind(nodes[x].kind))
    ensures Agree(nodes, AttachDevices(nodes, r, dvcs, bytes), x)
  {
    AttachDevicesFrame(nodes, r, dvcs, bytes, x);
  }

  /** The routes of a device already in the root stay what they were while addDevices
      attaches others. */
  lemma AttachDevicesKeepDeviceRoutes(nodes: seq<Node>, r: nat, dvcs: seq<Option<nat>>, bytes: seq<seq<bv8>>, v: nat)
    requires WellFormed(nodes) && r < |nodes| && nodes[r].kind.RootDevice? && DeviceArgs(nodes, dvcs, bytes)
    requires v < |nodes| && nodes[v].parent == Some(r)
    ensures DeviceRoutes(AttachDevices(nodes, r, dvcs, bytes), v) == DeviceRoutes(nodes, v)
  {
    var fin := AttachDevices(nodes, r, dvcs, bytes);
    assert NodeOk(nodes, v) && NodeOk(nodes, r);
    forall x | 0 <= x < |nodes| && InTree(nodes, x, v) ensures Agree(nodes, fin, x) {
      AgreeAfterDevices(nodes, r, dvcs, bytes, x);
    }
    forall k | 0 <= k < |nodes[v].services| ensures Agree(nodes, fin, nodes[v].services[k]) {
      AgreeAfterDevices(nodes, r, dvcs, bytes, nodes[v].services[k]);
    }
    DeviceRoutesFrame(nodes, fin, v);
  }

  /** The devices one addDevices call admits, in argument order. */
  function AddedDevices(nodes: seq<Node>, r: nat, dvcs: seq<Option<nat>>, bytes: seq<seq<bv8>>): (a: seq<nat>)
    requires WellFormed(nodes) && r < |nodes| && nodes[r].kind.RootDevice? && DeviceArgs(nodes, dvcs, bytes)
    ensures AllIn(nodes, a) && NoDup(a)
    ensures forall k :: 0 <= k < |a| ==> Some(a[k]) in dvcs
  {
    assert NodeOk(nodes, r);
    var room := MAX_DEVICES - |nodes[r].devices|;
    AdmittedNoDup(room, dvcs);
    assert forall k :: 0 <= k < |Admitted(room, dvcs)| ==> Some(Admitted(room, dvcs)[k]) in dvcs by {
      forall k | 0 <= k < |Admitted(room, dvcs)| ensures Some(Admitted(room, dvcs)[k]) in dvcs {
        var i := AdmittedFromArgs(room, dvcs, k);
      }
    }
    Admitted(room, dvcs)
  }

  /** Distinct arguments give distinct admitted objects. */
  lemma {:induction false} AdmittedNoDup(room: nat, args: seq<Option<nat>>)
    requires forall a, b :: 0 <= a < b < |args| && args[a].Some? && args[b].Some? ==> args[a].value != args[b].value
    ensures NoDup(Admitted(room, args))
    decreases |args|
  {
    if args != [] && room > 0 {
      var rest := args[1..];
      assert forall k :: 0 <= k < |rest| ==> rest[k] == args[k + 1];
      if args[0].Some? {
        AdmittedNoDup(room - 1, rest);
        var a := Admitted(room, args);
        forall i | 1 <= i < |a| ensures a[i] != a[0] {
          AdmittedShift(room, args, i);
        }
      } else {
        AdmittedNoDup(room, rest);
      }
    }
  }

  /** The admitted list of addDevices, seen after its first argument is handled: the
      first argument, when admitted, followed by what the rest admits. */
  lemma AddedDevicesStep(nodes: seq<Node>, r: nat, dvcs: seq<Option<nat>>, bytes: seq<seq<bv8>>)
    requires WellFormed(nodes) && r < |nodes| && nodes[r].kind.RootDevice? && DeviceArgs(nodes, dvcs, bytes) && dvcs != []
    ensures DeviceArgs(AddDeviceStep(nodes, r, dvcs[0], bytes[0]), dvcs[1..], bytes[1..])
    ensures AttachDevices(nodes, r, dvcs, bytes) ==
      AttachDevices(AddDeviceStep(nodes, r, dvcs[0], bytes[0]), r, dvcs[1..], bytes[1..])
    ensures dvcs[0].Some? && |nodes[r].devices| < MAX_DEVICES ==>
      AddedDevices(nodes, r, dvcs, bytes) ==
        [dvcs[0].value] + AddedDevices(AddDeviceStep(nodes, r, dvcs[0], bytes[0]), r, dvcs[1..], bytes[1..])
    ensures dvcs[0].None? || |nodes[r].devices| >= MAX_DEVICES ==>
      AddedDevices(nodes, r, dvcs, bytes) == AddedDevices(AddDeviceStep(nodes, r, dvcs[0], bytes[0]), r, dvcs[1..], bytes[1..])
  {
    AttachDevicesUnfold(nodes, r, dvcs, bytes);
    AddedDevicesUnfold(nodes, r, dvcs, bytes);
  }

  /** addDevices(a, b, ...) is addDevice(a) followed by addDevices(b, ...). */
  lemma AttachDevicesUnfold(nodes: seq<Node>, r: nat, dvcs: seq<Option<nat>>, bytes: seq<seq<bv8>>)
    requires WellFormed(nodes) && r < |nodes| && nodes[r].kind.RootDevice? && DeviceArgs(nodes, dvcs, bytes) && dvcs != []
    ensures DeviceArgs(AddDeviceStep(nodes, r, dvcs[0], bytes[0]), dvcs[1..], bytes[1..])
    ensures AttachDevices(nodes, r, dvcs, bytes) ==
      AttachDevices(AddDeviceStep(nodes, r, dvcs[0], bytes[0]), r, dvcs[1..], bytes[1..])
  {
    DeviceArgsTail(nodes, r, dvcs, bytes);
  }

  /** The admitted list after the first argument: the first argument heads it when it
      finds a slot. */
  lemma AddedDevicesUnfold(nodes: seq<Node>, r: nat, dvcs: seq<Option<nat>>, bytes: seq<seq<bv8>>)
    requires WellFormed(nodes) && r < |nodes| && nodes[r].kind.RootDevice? && DeviceArgs(nodes, dvcs, bytes) && dvcs != []
    ensures DeviceArgs(AddDeviceStep(nodes, r, dvcs[0], bytes[0]), dvcs[1..], bytes[1..])
    ensures dvcs[0].Some? && |nodes[r].devices| < MAX_DEVICES ==>
      AddedDevices(nodes, r, dvcs, bytes) ==
        [dvcs[0].value] + AddedDevices(AddDeviceStep(nodes, r, dvcs[0], bytes[0]), r, dvcs[1..], bytes[1..])
    ensures dvcs[0].None? || |nodes[r].devices| >= MAX_DEVICES ==>
      AddedDevices(nodes, r, dvcs, bytes) == AddedDevices(AddDeviceStep(nodes, r, dvcs[0], bytes[0]), r, dvcs[1..], bytes[1..])
  {
    DeviceArgsTail(nodes, r, dvcs, bytes);
    DeviceStepAppends(nodes, r, dvcs[0], bytes[0]);
  }
}
