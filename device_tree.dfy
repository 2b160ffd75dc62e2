/**
 * The objects of one program as a mutable arena: `Tree` owns every UPnPObject
 * (as an index into `nodes`), the fields setup and requests change (`runtime`),
 * and the web server's route table, kept as a ghost log of `svr->on` calls.
 * Its invariant `Valid` is the tree shape plus the late-binding promise: every
 * endpoint of every object under a set-up RootDevice is registered exactly once.
 */
module DeviceTree {
  import opened Wrappers
  import opened Text
  import opened ClassTypes
  import opened Paths
  import opened Uuid
  import opened Nodes
  import opened Routes
  import opened Attach
  import opened Requests
  import opened Pages

  /** Target and display name each class's default constructor leaves behind
      (UPnPObject() itself: empty target, display name " "). */
  function Defaults(k: Kind): (string, string) {
    match k
    case Object => ("", " ")
    case Service => ("service", "Service")
    case SetConfiguration => ("setConfiguration", "Set Configuration")
    case GetConfiguration => ("getConfiguration", "Get Configuration")
    case Device => ("", "Device")
    case RootDevice => ("root", "Root Device")
    case Sensor => ("sensor", "Sensor")
    case SimpleSensor => ("sensor", "Simple Sensor")
    case SensorWithConfig => ("sensorwc", "Sensor With Config")
    case Control => ("control", "Control")
    case SimpleControl => ("SimpleControl", "Control Test")
    case CustomControl => ("customControl", "Custom Control")
  }

  /** A newly constructed object of class k, before any wiring. */
  function Fresh(k: Kind, uuid: string): (n: Node)
    ensures n.kind == k && n.parent.None? && n.services == [] && n.devices == [] && n.uuid == uuid
    ensures uuid == [] || IsValidUuid(uuid) ==> FieldsOk(n)
    ensures n.target == Defaults(k).0 && n.displayName == Defaults(k).1
    ensures k.SetConfiguration? ==> n.handler == SetConfigurationDefault && n.formHandler == SetConfigurationDefaultForm
    ensures k.GetConfiguration? ==> n.handler == GetConfigurationDefault
    ensures !k.SetConfiguration? && !k.GetConfiguration? ==> n.handler == NoOpHandler
  {
    var (t, name) := Defaults(k);
    var (h, fh) :=
      if k.SetConfiguration? then (SetConfigurationDefault, SetConfigurationDefaultForm)
      else if k.GetConfiguration? then (GetConfigurationDefault, NoOpHandler)
      else (NoOpHandler, NoOpHandler);
    Node(k, t, name, None, [], [], uuid, h, fh)
  }

  /** Sensor and Control construct a GetConfiguration and a SetConfiguration member
      and add them as their services 0 and 1. */
  predicate HasConfigServices(k: Kind) { IsSensorKind(k) || IsControlKind(k) }

  /** What a new object's runtime fields hold: no context, port 0, and CustomControl's
      `_state = OFF`; SimpleControl leaves `_state` uninitialised, so it is `st0`. */
  function FreshRuntime(k: Kind, st0: ControlState): Runtime {
    Runtime(None, 0, "", if k.CustomControl? then OFF else st0)
  }

  /** The GetConfiguration or SetConfiguration member of a new Sensor or Control
      (kind k, index d) once the constructor has added it: parent d and, for a
      SensorWithConfig, the handlers rebound to the sensor's own methods. */
  function ConfigService(k: Kind, d: nat, sk: Kind): (n: Node)
    requires sk.GetConfiguration? || sk.SetConfiguration?
    ensures n.kind == sk && n.parent == Some(d) && n.services == [] && n.devices == []
    ensures n.target == Defaults(sk).0 && n.displayName == Defaults(sk).1
  {
    var n := Fresh(sk, []).(parent := Some(d));
    if !k.SensorWithConfig? then n
    else if sk.GetConfiguration? then n.(handler := SensorWithConfigGet(d))
    else n.(handler := SensorWithConfigSet(d), formHandler := SensorWithConfigForm(d))
  }

  /** The response a request produces, without its markup. */
  datatype Response =
    | NoResponse
    | Page(node: nat)
    | Form(form: ConfigForm)
    | SensorConfigForm(action: string, name: string, msg: string)
    | Report(name: string)
    | SensorReport(name: string, msg: string)
    | ControlContent(view: ControlView)
    | Stylesheet
    | RootPage(panels: seq<Panel>)

  /** A handler token stands for a lambda that captured a live object of the right
      class: the default handlers their own SetConfiguration or GetConfiguration, the
      SensorWithConfig ones the sensor whose member service holds them. */
  predicate HandlerOk(nodes: seq<Node>, s: nat, h: Handler)
    requires s < |nodes|
  {
    match h
    case NoOpHandler => true
    case SetConfigurationDefault => nodes[s].kind.SetConfiguration?
    case SetConfigurationDefaultForm => nodes[s].kind.SetConfiguration?
    case GetConfigurationDefault => nodes[s].kind.GetConfiguration?
    case SensorWithConfigSet(o) => nodes[s].kind.SetConfiguration? && nodes[s].parent == Some(o) && o < |nodes| && nodes[o].kind.SensorWithConfig?
    case SensorWithConfigForm(o) => nodes[s].kind.SetConfiguration? && nodes[s].parent == Some(o) && o < |nodes| && nodes[o].kind.SensorWithConfig?
    case SensorWithConfigGet(o) => nodes[s].kind.GetConfiguration? && nodes[s].parent == Some(o) && o < |nodes| && nodes[o].kind.SensorWithConfig?
  }

  /** What running handler h on service s does: the new objects, the new runtime
      fields and the response. */
  function Effect(nodes: seq<Node>, runtime: seq<Runtime>, s: nat, h: Handler, args: seq<Arg>): (seq<Node>, seq<Runtime>, Response)
    requires WellFormed(nodes) && |runtime| == |nodes| && s < |nodes| && HandlerOk(nodes, s, h)
  {
    match h
    case NoOpHandler => (nodes, runtime, NoResponse)
    case SetConfigurationDefault =>
      (match nodes[s].parent
       case None => (nodes, runtime, NoResponse)
       case Some(p) =>
         assert NodeOk(nodes, s);
         (nodes[p := nodes[p].(displayName := Assigned(args, DisplayName, nodes[p].displayName))], runtime, Page(p)))
    case SetConfigurationDefaultForm => (nodes, runtime, Form(DefaultForm(nodes, s)))
    case GetConfigurationDefault => (nodes, runtime, Report(ReportedName(nodes, s)))
    case SensorWithConfigSet(o) =>
      (nodes[o := nodes[o].(displayName := Assigned(args, DisplayName, nodes[o].displayName))],
       runtime[o := runtime[o].(msg := Assigned(args, Message, runtime[o].msg))],
       Page(o))
    case SensorWithConfigForm(o) =>
      (nodes, runtime, SensorConfigForm(GetPath(nodes, s, PATH_SIZE), nodes[o].displayName, runtime[o].msg))
    case SensorWithConfigGet(o) => (nodes, runtime, SensorReport(nodes[o].displayName, runtime[o].msg))
  }

  class Tree {
    var nodes: seq<Node>
    var runtime: seq<Runtime>
    ghost var routes: seq<Route>

    ghost predicate Valid()
      reads this
    {
      WellFormed(nodes) && |runtime| == |nodes| && ContextOk(nodes, runtime) &&
      Registered(nodes, runtime, routes) && AtCurrentPaths(nodes, routes)
    }

    constructor()
      ensures Valid() && nodes == [] && runtime == [] && routes == []
    {
      nodes, runtime, routes := [], [], [];
    }

    /** Allocate one new, unattached object. */
    method Append(n: Node, rt: Runtime) returns (j: nat)
      requires Valid()
      requires n.parent.None? && n.services == [] && n.devices == [] && IsConcrete(n.kind) && FieldsOk(n)
      requires rt.context.None?
      modifies this
      ensures Valid()
      ensures j == |old(nodes)| && nodes == old(nodes) + [n] && runtime == old(runtime) + [rt]
      ensures routes == old(routes)
    {
      AppendDetached(nodes, n);
      FreshNodeKeepsRegistered(nodes, runtime, routes, n, rt);
      AtCurrentPathsKept(nodes, nodes + [n], runtime, routes);
      j := |nodes|;
      nodes := nodes + [n];
      runtime := runtime + [rt];
    }

    /** The UPnPService, SetConfiguration and GetConfiguration default constructors. */
    method NewService(k: Kind) returns (s: nat)
      requires Valid() && IsServiceKind(k)
      modifies this
      ensures Valid() && routes == old(routes)
      ensures s == |old(nodes)| && nodes == old(nodes) + [Fresh(k, [])]
      ensures runtime == old(runtime) + [FreshRuntime(k, OFF)]
    {
      s := Append(Fresh(k, []), FreshRuntime(k, OFF));
    }

    /** `RootDevice()`: target "root", display name "Root Device" and a uuid generated
        from the random bytes; no context until setup. */
    method NewRoot(bytes: seq<bv8>) returns (r: nat)
      requires Valid() && |bytes| == 16
      modifies this
      ensures Valid() && routes == old(routes)
      ensures r == |old(nodes)| && nodes == old(nodes) + [Fresh(Kind.RootDevice, GenerateUuid(bytes))]
      ensures runtime == old(runtime) + [FreshRuntime(Kind.RootDevice, OFF)]
      ensures IsValidUuid(nodes[r].uuid) && runtime[r].context.None? && nodes[r].devices == []
    {
      GeneratedUuidIsValid(bytes);
      r := Append(Fresh(Kind.RootDevice, GenerateUuid(bytes)), FreshRuntime(Kind.RootDevice, OFF));
    }

    /** The default constructors of UPnPDevice, SimpleSensor, SensorWithConfig,
        SimpleControl and CustomControl. A Sensor or Control constructs its
        GetConfiguration and SetConfiguration members and adds them with
        `addServices(getConfiguration(), setConfiguration())`; a SensorWithConfig then
        rebinds their handlers. A new device has no uuid until it is added to a root. */
    method NewDevice(k: Kind, st0: ControlState) returns (d: nat)
      requires Valid() && IsPlainDeviceKind(k) && IsConcrete(k)
      modifies this
      ensures Valid() && routes == old(routes)
      ensures d == |old(nodes)| && |nodes| == d + (if HasConfigServices(k) then 3 else 1)
      ensures nodes[..d] == old(nodes) && runtime[..d] == old(runtime) && runtime[d] == FreshRuntime(k, st0)
      ensures nodes[d] == Fresh(k, []).(services := if HasConfigServices(k) then [d + 1, d + 2] else [])
      ensures HasConfigServices(k) ==>
        nodes[d + 1] == ConfigService(k, d, GetConfiguration) && nodes[d + 2] == ConfigService(k, d, SetConfiguration)
    {
      d := Append(Fresh(k, []), FreshRuntime(k, st0));
      if HasConfigServices(k) {
        var g := Append(Fresh(GetConfiguration, []), FreshRuntime(GetConfiguration, st0));
        var s := Append(Fresh(SetConfiguration, []), FreshRuntime(SetConfiguration, st0));
        AddConfigServices(d, g, s);
      }
    }

    /** The body of the Sensor and Control constructors once the two member services
        exist: `addServices(getConfiguration(), setConfiguration())`, and for a
        SensorWithConfig the three handler rebindings. */
    method AddConfigServices(d: nat, g: nat, s: nat)
      requires Valid() && d < |nodes| && g < |nodes| && s < |nodes| && d != g && d != s && g != s
      requires HasConfigServices(nodes[d].kind) && IsConcrete(nodes[d].kind)
      requires nodes[d].parent.None? && nodes[d].services == []
      requires nodes[g] == Fresh(GetConfiguration, []) && nodes[s] == Fresh(SetConfiguration, [])
      modifies this
      ensures Valid() && routes == old(routes) && runtime == old(runtime) && |nodes| == |old(nodes)|
      ensures forall x :: 0 <= x < |nodes| && x != d && x != g && x != s ==> nodes[x] == old(nodes)[x]
      ensures nodes[d] == old(nodes)[d].(services := [g, s])
      ensures nodes[g] == ConfigService(nodes[d].kind, d, GetConfiguration)
      ensures nodes[s] == ConfigService(nodes[d].kind, d, SetConfiguration)
    {
      ConfigServicesAdmitted(nodes, d, g, s);
      ConfigServicesPlaced(nodes, d, g, s);
      AttachTwoServices(nodes, d, g, s);
      AddServices(d, [Some(g), Some(s)]);
      ghost var added := nodes;
      if nodes[d].kind.SensorWithConfig? {
        RebindSensorHandlers(d, g, s);
      }
      ConfigServicesBound(old(nodes), added, nodes, d, g, s);
    }

    /** SensorWithConfig's constructor: SetConfiguration's HTTP and form handlers and
        GetConfiguration's HTTP handler now call the sensor's own methods. */
    method RebindSensorHandlers(d: nat, g: nat, s: nat)
      requires Valid() && d < |nodes| && g < |nodes| && s < |nodes| && g != s
      requires nodes[g].kind.GetConfiguration? && nodes[s].kind.SetConfiguration?
      modifies this
      ensures Valid() && routes == old(routes) && runtime == old(runtime)
      ensures nodes == old(nodes)[s := old(nodes)[s].(handler := SensorWithConfigSet(d), formHandler := SensorWithConfigForm(d))]
                                 [g := old(nodes)[g].(handler := SensorWithConfigGet(d))]
    {
      SetHttpHandler(s, SensorWithConfigSet(d));
      SetFormHandler(s, SensorWithConfigForm(d));
      SetHttpHandler(g, SensorWithConfigGet(d));
    }

    /* ---------- navigation ---------- */

    /** `rootDevice()`: climb the parent pointers, then keep the top only if it is a
        RootDevice. */
    method RootDevice(j: nat) returns (r: Option<nat>)
      requires WellFormed(nodes) && j < |nodes|
      ensures r == RootOf(nodes, j)
    {
      var result: nat := j;
      var p := nodes[j].parent;
      while p.Some?
        invariant result < |nodes| && p == nodes[result].parent
        invariant Top(nodes, result) == Top(nodes, j)
        decreases 2 - Level(nodes[result].kind)
      {
        ParentIsHigher(nodes, result);
        var q := p.value;
        assert NodeOk(nodes, q);
        if nodes[q].parent.Some? { assert NodeOk(nodes, nodes[q].parent.value); }
        result := q;
        p := nodes[result].parent;
      }
      r := if nodes[result].kind.RootDevice? then Some(result) else None;
    }

    /** `service(i)`: the i-th service when 0 <= i < numServices, else NULL. */
    function Service(d: nat, i: int): (r: Option<nat>)
      reads this
      requires WellFormed(nodes) && d < |nodes|
      ensures r.Some? <==> 0 <= i < |nodes[d].services|
      ensures r.Some? ==> (r.value == nodes[d].services[i] && r.value < |nodes| &&
                           nodes[r.value].parent == Some(d) && IsServiceKind(nodes[r.value].kind))
    {
      assert NodeOk(nodes, d);
      if i < |nodes[d].services| && i >= 0 then Some(nodes[d].services[i]) else None
    }

    /** `device(i)` checks only `i < numDevices`; a negative i would read outside the
        array, so callers must pass i >= 0. */
    function Device(r: nat, i: int): (d: Option<nat>)
      reads this
      requires WellFormed(nodes) && r < |nodes| && i >= 0
      ensures d.Some? <==> i < |nodes[r].devices|
      ensures d.Some? ==> (d.value == nodes[r].devices[i] && d.value < |nodes| &&
                           nodes[d.value].parent == Some(r) && IsPlainDeviceKind(nodes[d.value].kind))
    {
      assert NodeOk(nodes, r);
      if i < |nodes[r].devices| then Some(nodes[r].devices[i]) else None
    }

    /** `getDevice(uuid)`: the root itself when `isDevice(u)` (exact string equality),
        otherwise the first of its devices, in insertion order, with that uuid, else
        NULL. */
    method GetDeviceByUuid(r: nat, u: string) returns (res: Option<nat>)
      requires WellFormed(nodes) && r < |nodes| && nodes[r].kind.RootDevice? && AllIn(nodes, nodes[r].devices)
      ensures nodes[r].uuid == u ==> res == Some(r)
      ensures nodes[r].uuid != u ==>
        (res.None? <==> forall k :: 0 <= k < |nodes[r].devices| ==> nodes[nodes[r].devices[k]].uuid != u)
      ensures nodes[r].uuid != u && res.Some? ==>
        exists k :: 0 <= k < |nodes[r].devices| && nodes[r].devices[k] == res.value &&
          nodes[res.value].uuid == u && forall m :: 0 <= m < k ==> nodes[nodes[r].devices[m]].uuid != u
    {
      assert NodeOk(nodes, r);
      res := None;
      if nodes[r].uuid == u {
        res := Some(r);
      } else {
        var i := 0;
        while i < |nodes[r].devices|
          invariant 0 <= i <= |nodes[r].devices| && res.None?
          invariant forall m :: 0 <= m < i ==> nodes[nodes[r].devices[m]].uuid != u
        {
          var d := Device(r, i).value;
          if nodes[d].uuid == u {
            res := Some(d);
            assert nodes[r].devices[i] == d;
            return;
          }
          i := i + 1;
        }
      }
    }

    /** `getDevice(t)`: the first device, in insertion order, whose `as(t)` is not NULL,
        else NULL. The root itself is never a candidate. The scan uses the class
        hierarchy; the type check as the headers write it gives the same answer for
        every tag but SimpleSensor's. */
    method GetDeviceByType(r: nat, t: Option<Kind>) returns (res: Option<nat>)
      requires WellFormed(nodes) && r < |nodes| && nodes[r].kind.RootDevice? && AllIn(nodes, nodes[r].devices)
      ensures res.None? <==> forall k :: 0 <= k < |nodes[r].devices| ==> !IsClassType(nodes[nodes[r].devices[k]].kind, t)
      ensures res.Some? ==>
        exists k :: 0 <= k < |nodes[r].devices| && nodes[r].devices[k] == res.value &&
          IsClassType(nodes[res.value].kind, t) && forall m :: 0 <= m < k ==> !IsClassType(nodes[nodes[r].devices[m]].kind, t)
      ensures res.Some? ==> res.value != r
      ensures t != Some(SimpleSensor) ==>
        (res.None? <==> forall k :: 0 <= k < |nodes[r].devices| ==> !IsClassTypeAsWritten(nodes[nodes[r].devices[k]].kind, t))
      ensures t != Some(SimpleSensor) && res.Some? ==> IsClassTypeAsWritten(nodes[res.value].kind, t)
    {
      DeviceScanFacts(nodes, r, t);
      res := None;
      var i := 0;
      while i < |nodes[r].devices|
        invariant 0 <= i <= |nodes[r].devices| && res.None?
        invariant forall m :: 0 <= m < i ==> !IsClassType(nodes[nodes[r].devices[m]].kind, t)
      {
        var d := Device(r, i).value;
        if As(nodes[d].kind, t).Some? {
          res := Some(d);
          assert nodes[r].devices[i] == d;
          return;
        }
        i := i + 1;
      }
    }

    /** The static `getDevice(root, t)`: NULL for a NULL root, otherwise exactly
        `root->getDevice(t)`. */
    method GetDeviceOf(root: Option<nat>, t: Option<Kind>) returns (res: Option<nat>)
      requires WellFormed(nodes) && (root.Some? ==> root.value < |nodes| && nodes[root.value].kind.RootDevice?)
      ensures root.None? ==> res.None?
      ensures root.Some? ==> (res.None? <==>
        forall k :: 0 <= k < |nodes[root.value].devices| ==>
          (nodes[root.value].devices[k] < |nodes| && !IsClassType(nodes[nodes[root.value].devices[k]].kind, t)))
      ensures res.Some? ==> (root.Some? && res.value < |nodes| && res.value != root.value &&
        exists k :: 0 <= k < |nodes[root.value].devices| && nodes[root.value].devices[k] == res.value &&
          IsClassType(nodes[res.value].kind, t) &&
          forall m :: 0 <= m < k ==>
            (nodes[root.value].devices[m] < |nodes| && !IsClassType(nodes[nodes[root.value].devices[m]].kind, t)))
      ensures root.Some? && t != Some(SimpleSensor) ==> (res.None? <==>
        forall k :: 0 <= k < |nodes[root.value].devices| ==>
          (nodes[root.value].devices[k] < |nodes| && !IsClassTypeAsWritten(nodes[nodes[root.value].devices[k]].kind, t)))
      ensures res.Some? && t != Some(SimpleSensor) ==> IsClassTypeAsWritten(nodes[res.value].kind, t)
    {
      if root.Some? {
        assert NodeOk(nodes, root.value);
        res := GetDeviceByType(root.value, t);
      } else {
        res := None;
      }
    }

    /* ---------- field setters ---------- */

    /** `setTarget`: one leading '/' dropped, at most 31 characters kept. The server
        keeps the paths it was given at setup, so the target is to be set before the
        object is set up. */
    method SetTarget(j: nat, t: string)
      requires Valid() && j < |nodes| && !Live(nodes, runtime, j)
      modifies this
      ensures Valid() && runtime == old(runtime) && routes == old(routes)
      ensures nodes == old(nodes)[j := old(nodes)[j].(target := TargetOf(t))]
    {
      var nodes' := nodes[j := nodes[j].(target := TargetOf(t))];
      assert NodeOk(nodes, j);
      ShapeKept(nodes, nodes', j);
      RegisteredReadsShape(nodes, nodes', runtime, routes);
      AtCurrentPathsKept(nodes, nodes', runtime, routes);
      nodes := nodes';
    }

    /** `setDisplayName`: strlcpy into 32 bytes. */
    method SetDisplayName(j: nat, name: string)
      requires Valid() && j < |nodes|
      modifies this
      ensures Valid() && runtime == old(runtime) && routes == old(routes)
      ensures nodes == old(nodes)[j := old(nodes)[j].(displayName := Fit(name, NAME_SIZE))]
    {
      var nodes' := nodes[j := nodes[j].(displayName := Fit(name, NAME_SIZE))];
      assert NodeOk(nodes, j);
      ShapeKept(nodes, nodes', j);
      RegisteredReadsShape(nodes, nodes', runtime, routes);
      AtCurrentPathsKept(nodes, nodes', runtime, routes);
      nodes := nodes';
    }

    /** `setUUID`: store and report true for a valid uuid, else report false and keep
        the old one. */
    method SetUuid(d: nat, u: string) returns (ok: bool)
      requires Valid() && d < |nodes| && IsDeviceKind(nodes[d].kind)
      modifies this
      ensures Valid() && runtime == old(runtime) && routes == old(routes)
      ensures ok <==> IsValidUuid(u)
      ensures ok ==> nodes == old(nodes)[d := old(nodes)[d].(uuid := u)]
      ensures !ok ==> nodes == old(nodes)
    {
      ok := CheckUuid(u);
      if ok {
        var nodes' := nodes[d := nodes[d].(uuid := u)];
        assert NodeOk(nodes, d);
        ShapeKept(nodes, nodes', d);
        RegisteredReadsShape(nodes, nodes', runtime, routes);
        AtCurrentPathsKept(nodes, nodes', runtime, routes);
        nodes := nodes';
      }
    }

    /** `setHttpHandler`: replace the service's handler. */
    method SetHttpHandler(s: nat, h: Handler)
      requires Valid() && s < |nodes| && IsServiceKind(nodes[s].kind)
      modifies this
      ensures Valid() && runtime == old(runtime) && routes == old(routes)
      ensures nodes == old(nodes)[s := old(nodes)[s].(handler := h)]
    {
      var nodes' := nodes[s := nodes[s].(handler := h)];
      assert NodeOk(nodes, s);
      ShapeKept(nodes, nodes', s);
      RegisteredReadsShape(nodes, nodes', runtime, routes);
      AtCurrentPathsKept(nodes, nodes', runtime, routes);
      nodes := nodes';
    }

    /** SetConfiguration's `setFormHandler`. */
    method SetFormHandler(s: nat, h: Handler)
      requires Valid() && s < |nodes| && nodes[s].kind.SetConfiguration?
      modifies this
      ensures Valid() && runtime == old(runtime) && routes == old(routes)
      ensures nodes == old(nodes)[s := old(nodes)[s].(formHandler := h)]
    {
      var nodes' := nodes[s := nodes[s].(formHandler := h)];
      assert NodeOk(nodes, s);
      ShapeKept(nodes, nodes', s);
      RegisteredReadsShape(nodes, nodes', runtime, routes);
      AtCurrentPathsKept(nodes, nodes', runtime, routes);
      nodes := nodes';
    }

    /** SimpleSensor's `setMessage`: NULL ignored, otherwise snprintf into 100 bytes. */
    method SetMessage(o: nat, m: Option<string>)
      requires Valid() && o < |nodes|
      modifies this
      ensures Valid() && nodes == old(nodes) && routes == old(routes)
      ensures runtime == old(runtime)[o := old(runtime)[o].(msg := MessageAfter(m, old(runtime)[o].msg))]
    {
      var runtime' := runtime[o := runtime[o].(msg := MessageAfter(m, runtime[o].msg))];
      RegisteredReadsContexts(nodes, runtime, runtime', routes);
      runtime := runtime';
    }

    /** The example controls' `setControlState`. */
    method SetControlState(c: nat, st: ControlState)
      requires Valid() && c < |nodes|
      modifies this
      ensures Valid() && nodes == old(nodes) && routes == old(routes)
      ensures runtime == old(runtime)[c := old(runtime)[c].(state := st)]
    {
      var runtime' := runtime[c := runtime[c].(state := st)];
      RegisteredReadsContexts(nodes, runtime, runtime', routes);
      runtime := runtime';
    }

    /* ---------- request handlers ---------- */

    /** `SetConfiguration::defaultHandler`: every DISPLAYNAME argument with a non-empty
        value renames the parent device, so the last one wins; without a parent nothing
        changes. The parent device's page is shown afterwards. */
    method SetConfigurationHandler(s: nat, args: seq<Arg>) returns (resp: Response)
      requires Valid() && s < |nodes| && nodes[s].kind.SetConfiguration?
      modifies this
      ensures Valid() && runtime == old(runtime) && routes == old(routes)
      ensures old(nodes)[s].parent.None? ==> nodes == old(nodes) && resp == NoResponse
      ensures old(nodes)[s].parent.Some? ==>
        var p := old(nodes)[s].parent.value;
        p < |old(nodes)| &&
        nodes == old(nodes)[p := old(nodes)[p].(displayName := Assigned(args, DisplayName, old(nodes)[p].displayName))] &&
        resp == Page(p)
    {
      var parent := nodes[s].parent;
      assert NodeOk(nodes, s);
      var i := 0;
      while i < |args|
        invariant 0 <= i <= |args| && Valid() && runtime == old(runtime) && routes == old(routes)
        invariant parent.None? ==> nodes == old(nodes)
        invariant parent.Some? ==> (parent.value < |old(nodes)| &&
          nodes == old(nodes)[parent.value := old(nodes)[parent.value].(displayName :=
            Assigned(args[..i], DisplayName, old(nodes)[parent.value].displayName))])
      {
        assert args[..i + 1][..i] == args[..i];
        if EqualsIgnoreCase(args[i].name, "DISPLAYNAME") {
          if |args[i].value| > 0 && parent.Some? {
            SetDisplayName(parent.value, args[i].value);
          }
        }
        i := i + 1;
      }
      assert args[..i] == args;
      resp := if parent.Some? then Page(parent.value) else NoResponse;
    }

    /** `SensorWithConfig::setConfiguration`: MSG sets the message, even when empty;
        otherwise a non-empty DISPLAYNAME sets the display name. The sensor's page is
        shown afterwards. */
    method SensorConfigHandler(o: nat, args: seq<Arg>) returns (resp: Response)
      requires Valid() && o < |nodes| && nodes[o].kind.SensorWithConfig?
      modifies this
      ensures Valid() && routes == old(routes) && resp == Page(o)
      ensures nodes == old(nodes)[o := old(nodes)[o].(displayName := Assigned(args, DisplayName, old(nodes)[o].displayName))]
      ensures runtime == old(runtime)[o := old(runtime)[o].(msg := Assigned(args, Message, old(runtime)[o].msg))]
    {
      var i := 0;
      while i < |args|
        invariant 0 <= i <= |args| && Valid() && routes == old(routes)
        invariant nodes == old(nodes)[o := old(nodes)[o].(displayName :=
          ConfigAfter(args[..i], old(nodes)[o].displayName, old(runtime)[o].msg).0)]
        invariant runtime == old(runtime)[o := old(runtime)[o].(msg :=
          ConfigAfter(args[..i], old(nodes)[o].displayName, old(runtime)[o].msg).1)]
      {
        assert args[..i + 1][..i] == args[..i];
        if EqualsIgnoreCase(args[i].name, "MSG") {
          SetMessage(o, Some(args[i].value));
        } else if EqualsIgnoreCase(args[i].name, "DISPLAYNAME") {
          if |args[i].value| > 0 {
            SetDisplayName(o, args[i].value);
          }
        }
        i := i + 1;
      }
      assert args[..i] == args;
      ConfigAfterSplits(args, old(nodes)[o].displayName, old(runtime)[o].msg);
      resp := Page(o);
    }

    /** The example controls' `setState`: the first STATE argument decides, ON or OFF
        in any case, and ends the scan; the control's frame content is sent back. */
    method SetStateHandler(c: nat, args: seq<Arg>) returns (resp: Response)
      requires Valid() && c < |nodes| && HasSetState(nodes[c].kind)
      modifies this
      ensures Valid() && nodes == old(nodes) && routes == old(routes)
      ensures runtime == old(runtime)[c := old(runtime)[c].(state := StateAfter(args, old(runtime)[c].state))]
      ensures resp == ControlContent(Content(runtime[c].state))
    {
      StateAfterIsFirstState(args, runtime[c].state);
      var i := 0;
      while i < |args|
        invariant 0 <= i <= |args| && runtime == old(runtime)
        invariant forall m :: 0 <= m < i ==> !IsStateArg(args[m])
      {
        if EqualsIgnoreCase(args[i].name, "STATE") {
          if EqualsIgnoreCase(args[i].value, "ON") {
            SetControlState(c, ON);
          } else if EqualsIgnoreCase(args[i].value, "OFF") {
            SetControlState(c, OFF);
          }
          break;
        }
        i := i + 1;
      }
      resp := ControlContent(Content(runtime[c].state));
    }

    /** Running a handler token: `handleRequest`'s `_handler(svr)` and SetConfiguration's
        `_formHandler(svr)`. */
    method Invoke(s: nat, h: Handler, args: seq<Arg>) returns (resp: Response)
      requires Valid() && s < |nodes| && HandlerOk(nodes, s, h)
      modifies this
      ensures Valid() && routes == old(routes)
      ensures (nodes, runtime, resp) == Effect(old(nodes), old(runtime), s, h, args)
    {
      match h
      case NoOpHandler =>
        resp := NoResponse;
      case SetConfigurationDefault =>
        resp := SetConfigurationHandler(s, args);
      case SetConfigurationDefaultForm =>
        resp := Form(DefaultForm(nodes, s));
      case GetConfigurationDefault =>
        resp := Report(ReportedName(nodes, s));
      case SensorWithConfigSet(o) =>
        resp := SensorConfigHandler(o, args);
      case SensorWithConfigForm(o) =>
        resp := SensorConfigForm(GetPath(nodes, s, PATH_SIZE), nodes[o].displayName, runtime[o].msg);
      case SensorWithConfigGet(o) =>
        resp := SensorReport(nodes[o].displayName, runtime[o].msg);
    }

    /** `formatContent` of root r: the loop over the devices, then "This Device". */
    method FormatContent(r: nat) returns (panels: seq<Panel>)
      requires Valid() && r < |nodes| && nodes[r].kind.RootDevice?
      ensures panels == RootPanels(nodes, runtime, r)
    {
      assert NodeOk(nodes, r);
      panels := [];
      var i := 0;
      while i < |nodes[r].devices|
        invariant 0 <= i <= |nodes[r].devices|
        invariant panels == Panels(nodes, runtime, nodes[r].devices[..i])
      {
        var d := Device(r, i).value;
        var k := nodes[d].kind;
        var p;
        if As(k, Some(Kind.Sensor)).Some? {
          p := SensorPanel(d, runtime[d].msg);
        } else if As(k, Some(Kind.Control)).Some? {
          p := ControlPanel(nodes[d].displayName, ContentPath(nodes, d), FrameHeight(k), FRAME_WIDTH);
        } else {
          p := AppButton(GetPath(nodes, d, PATH_SIZE), nodes[d].displayName);
        }
        assert nodes[r].devices[..i + 1][..i] == nodes[r].devices[..i];
        panels := panels + [p];
        i := i + 1;
      }
      assert nodes[r].devices[..i] == nodes[r].devices;
      panels := panels + [AppButton(GetPath(nodes, r, PATH_SIZE), "This Device")];
    }

    /** The web server calling the lambda a route binds: action a with the request's
        arguments. */
    method Serve(a: Action, args: seq<Arg>) returns (resp: Response)
      requires Valid() && Owns(nodes, a)
      requires a.endpoint.HandleRequest? ==> HandlerOk(nodes, a.node, nodes[a.node].handler)
      requires a.endpoint.ConfigForm? ==> HandlerOk(nodes, a.node, nodes[a.node].formHandler)
      modifies this
      ensures Valid() && routes == old(routes)
      ensures a.endpoint.HandleRequest? ==>
        (nodes, runtime, resp) == Effect(old(nodes), old(runtime), a.node, old(nodes)[a.node].handler, args)
      ensures a.endpoint.ConfigForm? ==>
        (nodes, runtime, resp) == Effect(old(nodes), old(runtime), a.node, old(nodes)[a.node].formHandler, args)
      ensures a.endpoint.SetState? ==>
        nodes == old(nodes) &&
        runtime == old(runtime)[a.node := old(runtime)[a.node].(state := StateAfter(args, old(runtime)[a.node].state))]
      ensures !a.endpoint.HandleRequest? && !a.endpoint.ConfigForm? && !a.endpoint.SetState? ==>
        nodes == old(nodes) && runtime == old(runtime)
      ensures a.endpoint.Styles? ==> resp == Stylesheet
      ensures a.endpoint.DisplayRoot? ==> resp == RootPage(RootPanels(nodes, runtime, a.node))
      ensures a.endpoint.Display? ==> resp == Page(a.node)
      ensures a.endpoint.DisplayControl? || a.endpoint.SetState? ==> resp == ControlContent(Content(runtime[a.node].state))
    {
      var j := a.node;
      match a.endpoint
      case Styles =>
        resp := Stylesheet;
      case DisplayRoot =>
        var panels := FormatContent(j);
        resp := RootPage(panels);
      case Display =>
        resp := Page(j);
      case HandleRequest =>
        resp := Invoke(j, nodes[j].handler, args);
      case ConfigForm =>
        resp := Invoke(j, nodes[j].formHandler, args);
      case DisplayControl =>
        resp := ControlContent(Content(runtime[j].state));
      case SetState =>
        resp := SetStateHandler(j, args);
    }

    /* ---------- setup ---------- */

    /** `UPnPService::setup`, and SetConfiguration's which adds the form route. */
    method SetupService(s: nat)
      requires WellFormed(nodes) && s < |nodes| && IsServiceKind(nodes[s].kind)
      modifies this`routes
      ensures routes == old(routes) + SetupRoutes(nodes, s)
      ensures routes == old(routes) + PreRoutes(nodes, s)
    {
      routes := routes + On(GetPath(nodes, s, PATH_SIZE), s, HandleRequest);
      if nodes[s].kind.SetConfiguration? {
        routes := routes + On(FormPath(nodes, s), s, Endpoint.ConfigForm);
      }
    }

    /** `for (i = 0; i < numServices(); i++) service(i)->setup(svr);` */
    method SetupServices(ss: seq<nat>)
      requires WellFormed(nodes) && AllIn(nodes, ss)
      requires forall k :: 0 <= k < |ss| ==> IsServiceKind(nodes[ss[k]].kind)
      modifies this`routes
      ensures routes == old(routes) + AllServices(nodes, ss)
    {
      var i := 0;
      while i < |ss|
        invariant 0 <= i <= |ss|
        invariant routes == old(routes) + AllServices(nodes, ss[..i])
      {
        ghost var before := routes;
        SetupService(ss[i]);
        ServicesStep(nodes, old(routes), before, ss, i);
        i := i + 1;
      }
      assert ss[..i] == ss;
    }

    /** `setup` of a device below a root: its page, its services in order, then the
        Control content and setState routes; a sensor then resets its message. */
    method SetupDevice(d: nat, svr: Server)
      requires WellFormed(nodes) && |runtime| == |nodes| && d < |nodes| && IsPlainDeviceKind(nodes[d].kind)
      modifies this`routes, this`runtime
      ensures routes == old(routes) + SetupRoutes(nodes, d)
      ensures routes == old(routes) + DeviceRoutes(nodes, d)
      ensures runtime == old(runtime)[d := SetUp(nodes[d].kind, old(runtime)[d], svr)]
    {
      DeviceSetupRoutes(nodes, d);
      ghost var own := On(GetPath(nodes, d, PATH_SIZE), d, Display);
      routes := routes + own;
      SetupServices(nodes[d].services);
      SetupControl(d);
      Concat3(old(routes), own, AllServices(nodes, nodes[d].services), PostRoutes(nodes, d));
      runtime := runtime[d := SetUp(nodes[d].kind, runtime[d], svr)];
    }

    /** Control::setup's content route, then the example controls' setState route. */
    method SetupControl(d: nat)
      requires WellFormed(nodes) && d < |nodes|
      modifies this`routes
      ensures routes == old(routes) + PostRoutes(nodes, d)
    {
      var k := nodes[d].kind;
      if IsControlKind(k) {
        routes := routes + On(ContentPath(nodes, d), d, DisplayControl);
        if HasSetState(k) {
          routes := routes + On(SetStatePath(nodes, d), d, SetState);
        }
      }
    }

    /** `for (i = 0; i < _numDevices; i++) device(i)->setup(svr);` */
    method SetupDevices(ds: seq<nat>, svr: Server)
      requires WellFormed(nodes) && |runtime| == |nodes| && AllIn(nodes, ds) && NoDup(ds)
      requires forall k :: 0 <= k < |ds| ==> IsPlainDeviceKind(nodes[ds[k]].kind)
      modifies this`routes, this`runtime
      ensures routes == old(routes) + AllDevices(nodes, ds)
      ensures |runtime| == |old(runtime)|
      ensures runtime == SetUpAll(nodes, old(runtime), ds, svr)
    {
      var i := 0;
      while i < |ds|
        invariant 0 <= i <= |ds| && |runtime| == |nodes|
        invariant routes == old(routes) + AllDevices(nodes, ds[..i])
        invariant runtime == SetUpAll(nodes, old(runtime), ds[..i], svr)
      {
        ghost var before := routes;
        SetupDevice(ds[i], svr);
        DevicesStep(nodes, old(routes), before, ds, i);
        SetUpAllSnoc(nodes, old(runtime), ds, i, svr);
        i := i + 1;
      }
      assert ds[..i] == ds;
    }

    /** `RootDevice::setup`: store the context and port, bind the style sheet, the
        root page and the device page, then set up the services and the devices. */
    method SetupRoot(r: nat, svr: Server)
      requires Valid() && r < |nodes| && nodes[r].kind.RootDevice? && runtime[r].context.None?
      modifies this`routes, this`runtime
      ensures Valid()
      ensures routes == old(routes) + SetupRoutes(nodes, r)
      ensures |runtime| == |old(runtime)|
      ensures forall x :: 0 <= x < |runtime| ==>
        runtime[x] == if InTree(nodes, r, x) then SetUp(nodes[x].kind, old(runtime)[x], svr) else old(runtime)[x]
    {
      SetupRootTree(r, svr);
      RootSetupKeepsRegistered(nodes, old(runtime), runtime, old(routes), r, svr);
      SetupRoutesAtPaths(nodes, r);
      AtCurrentPathsAppend(nodes, old(routes), SetupRoutes(nodes, r));
    }

    /** The steps of RootDevice::setup, in order, on a well-formed tree. */
    method SetupRootTree(r: nat, svr: Server)
      requires WellFormed(nodes) && |runtime| == |nodes| && r < |nodes| && nodes[r].kind.RootDevice?
      modifies this`routes, this`runtime
      ensures routes == old(routes) + SetupRoutes(nodes, r)
      ensures |runtime| == |old(runtime)|
      ensures forall x :: 0 <= x < |runtime| ==>
        runtime[x] == if InTree(nodes, r, x) then SetUp(nodes[x].kind, old(runtime)[x], svr) else old(runtime)[x]
    {
      RootSetupRoutes(nodes, r);
      runtime := runtime[r := SetUp(nodes[r].kind, runtime[r], svr)];
      ghost var own := On("/styles.css", r, Styles) + On("/", r, DisplayRoot) + On("/" + nodes[r].target, r, Display);
      routes := routes + own;
      SetupServices(nodes[r].services);
      SetupDevices(nodes[r].devices, svr);
      Concat3(old(routes), own, AllServices(nodes, nodes[r].services), AllDevices(nodes, nodes[r].devices));
      RootSetUpRuntime(nodes, old(runtime), runtime, r, svr);
    }

    /* ---------- attaching ---------- */

    /** `addService`: NULL and a full device are ignored; otherwise the default target,
        the slot, the parent pointer, and an immediate setup when the device's root
        already holds a context. */
    method AddService(d: nat, svc: Option<nat>)
      requires Valid() && d < |nodes| && IsDeviceKind(nodes[d].kind)
      requires svc.Some? ==> svc.value < |nodes| && IsServiceKind(nodes[svc.value].kind) && nodes[svc.value].parent.None?
      modifies this
      ensures Valid() && runtime == old(runtime)
      ensures nodes == AddServiceStep(old(nodes), d, svc)
      ensures RootOf(nodes, d) == RootOf(old(nodes), d)
      ensures !Live(old(nodes), runtime, d) ==> routes == old(routes)
      ensures svc.None? || |old(nodes)[d].services| >= MAX_SERVICES ==> nodes == old(nodes) && routes == old(routes)
      ensures svc.Some? && |old(nodes)[d].services| < MAX_SERVICES ==>
        nodes == AttachService(old(nodes), d, svc.value) &&
        routes == old(routes) + (if Live(old(nodes), runtime, d) then SetupRoutes(nodes, svc.value) else [])
    {
      if svc.Some? && |nodes[d].services| < MAX_SERVICES {
        var s := svc.value;
        AttachServiceKeepsRegistered(nodes, runtime, routes, d, s);
        AttachServiceAtPaths(nodes, runtime, routes, d, s);
        AttachServiceRoots(nodes, d, s, d);
        var nodes' := AttachService(nodes, d, s);
        assert forall x :: 0 <= x < |nodes| ==> nodes'[x].kind == nodes[x].kind;
        ghost var live := Live(nodes', runtime, s);
        assert live == Live(nodes, runtime, d);
        assert Registered(nodes', runtime, routes + (if live then SetupRoutes(nodes', s) else []));
        nodes := nodes';
        assert ContextOk(nodes, runtime);
        var root := RootDevice(d);
        assert root == RootOf(old(nodes), d);
        if root.Some? && runtime[root.value].context.Some? {
          assert live;
          SetupService(s);
        } else {
          assert !live;
          assert routes + [] == routes;
        }
      }
    }

    /** `addDevice`: NULL and a full root are ignored; otherwise the default target, a
        generated uuid when none is set, the slot, the parent pointer, and an immediate
        setup when the root already holds a context. */
    method AddDevice(r: nat, dvc: Option<nat>, bytes: seq<bv8>)
      requires Valid() && r < |nodes| && nodes[r].kind.RootDevice? && |bytes| == 16
      requires dvc.Some? ==> dvc.value < |nodes| && IsPlainDeviceKind(nodes[dvc.value].kind) && nodes[dvc.value].parent.None?
      modifies this
      ensures Valid()
      ensures nodes == AddDeviceStep(old(nodes), r, dvc, bytes)
      ensures old(runtime)[r].context.None? ==> runtime == old(runtime) && routes == old(routes)
      ensures dvc.None? || |old(nodes)[r].devices| >= MAX_DEVICES ==>
        nodes == old(nodes) && runtime == old(runtime) && routes == old(routes)
      ensures dvc.Some? && |old(nodes)[r].devices| < MAX_DEVICES ==>
        nodes == AttachDevice(old(nodes), r, dvc.value, bytes) &&
        routes == old(routes) + (if old(runtime)[r].context.Some? then SetupRoutes(nodes, dvc.value) else []) &&
        runtime == if old(runtime)[r].context.Some?
                   then old(runtime)[dvc.value := SetUp(nodes[dvc.value].kind, old(runtime)[dvc.value], old(runtime)[r].context.value)]
                   else old(runtime)
    {
      if dvc.Some? && |nodes[r].devices| < MAX_DEVICES {
        var v := dvc.value;
        AttachDeviceKeepsRegistered(nodes, runtime, routes, r, v, bytes);
        AttachDeviceAtPaths(nodes, runtime, routes, r, v, bytes);
        var nodes' := AttachDevice(nodes, r, v, bytes);
        assert forall x :: 0 <= x < |nodes| ==> nodes'[x].kind == nodes[x].kind;
        ghost var added := if runtime[r].context.Some? then SetupRoutes(nodes', v) else [];
        assert Registered(nodes', runtime, routes + added);
        nodes := nodes';
        assert ContextOk(nodes, runtime);
        if runtime[r].context.Some? {
          var rt := runtime;
          SetupDevice(v, runtime[r].context.value);
          assert !nodes[v].kind.RootDevice?;
          assert forall j :: 0 <= j < |nodes| ==> runtime[j].context == rt[j].context;
          RegisteredReadsContexts(nodes, rt, runtime, routes);
        } else {
          assert routes + [] == routes;
        }
      }
    }

    /** `addServices(a, b, ...)`: one `addService` call per argument, left to right.
        Under a live device the admitted services are set up in argument order, exactly
        as the device's own setup would set them up. */
    method AddServices(d: nat, svcs: seq<Option<nat>>)
      requires Valid() && d < |nodes| && IsDeviceKind(nodes[d].kind) && ServiceArgs(nodes, svcs)
      modifies this
      ensures Valid() && runtime == old(runtime)
      ensures nodes == AttachServices(old(nodes), d, svcs)
      ensures RootOf(nodes, d) == RootOf(old(nodes), d)
      ensures !Live(old(nodes), runtime, d) ==> routes == old(routes)
      ensures Live(old(nodes), runtime, d) ==>
        routes == old(routes) + AllServices(nodes, AddedServices(old(nodes), d, svcs))
      decreases |svcs|
    {
      if svcs != [] {
        AddedServicesStep(nodes, d, svcs);
        ghost var n0, routes0 := nodes, routes;
        AddService(d, svcs[0]);
        ghost var routes1 := routes;
        AddServices(d, svcs[1..]);
        if Live(n0, runtime, d) {
          AddServicesRoutes(n0, d, svcs, nodes, routes0, routes1, routes);
        }
      } else {
        assert old(routes) + [] == old(routes);
      }
    }

    /** `addDevices(a, b, ...)`: one `addDevice` call per argument, left to right, each
        drawing its own random bytes. Under a set-up root the admitted devices are set
        up in argument order, exactly as the root's own setup would set them up. */
    method AddDevices(r: nat, dvcs: seq<Option<nat>>, bytes: seq<seq<bv8>>)
      requires Valid() && r < |nodes| && nodes[r].kind.RootDevice? && DeviceArgs(nodes, dvcs, bytes)
      modifies this
      ensures Valid()
      ensures nodes == AttachDevices(old(nodes), r, dvcs, bytes)
      ensures old(runtime)[r].context.None? ==> runtime == old(runtime) && routes == old(routes)
      ensures old(runtime)[r].context.Some? ==>
        routes == old(routes) + AllDevices(nodes, AddedDevices(old(nodes), r, dvcs, bytes)) &&
        runtime == SetUpAll(nodes, old(runtime), AddedDevices(old(nodes), r, dvcs, bytes), old(runtime)[r].context.value)
      decreases |dvcs|
    {
      if dvcs != [] {
        AddedDevicesStep(nodes, r, dvcs, bytes);
        ghost var n0, rt0, routes0 := nodes, runtime, routes;
        AddDevice(r, dvcs[0], bytes[0]);
        ghost var rt1, routes1 := runtime, routes;
        if dvcs[0].Some? && |n0[r].devices| < MAX_DEVICES {
          assert rt1[r] == rt0[r];
        }
        AddDevices(r, dvcs[1..], bytes[1..]);
        if rt0[r].context.Some? {
          AddDevicesRoutes(n0, r, dvcs, bytes, routes0, routes1, routes);
          AddDevicesRuntime(n0, r, dvcs, bytes, rt0, rt1, runtime, rt0[r].context.value);
        }
      } else {
        assert old(routes) + [] == old(routes);
      }
    }
  }

  /** What the device scan of `getDevice(t)` relies on: a root never lists itself, and
      away from SimpleSensor the corrected class check agrees with the one as written. */
  lemma DeviceScanFacts(nodes: seq<Node>, r: nat, t: Option<Kind>)
    requires WellFormed(nodes) && r < |nodes| && AllIn(nodes, nodes[r].devices)
    ensures forall k :: 0 <= k < |nodes[r].devices| ==> nodes[r].devices[k] != r
    ensures t != Some(SimpleSensor) ==> forall k :: 0 <= k < |nodes[r].devices| ==>
      (IsClassType(nodes[nodes[r].devices[k]].kind, t) <==> IsClassTypeAsWritten(nodes[nodes[r].devices[k]].kind, t))
  {
    assert NodeOk(nodes, r);
    forall k | 0 <= k < |nodes[r].devices|
      ensures t != Some(SimpleSensor) ==>
        (IsClassType(nodes[nodes[r].devices[k]].kind, t) <==> IsClassTypeAsWritten(nodes[nodes[r].devices[k]].kind, t))
    {
      AsWrittenDiffersOnlyAtSensorWithConfig(nodes[nodes[r].devices[k]].kind, t);
    }
  }

  /** `addServices(getConfiguration(), setConfiguration())` on a new Sensor or Control:
      the two members are unattached services and the device has room for both. */
  lemma ConfigServicesAdmitted(nodes: seq<Node>, d: nat, g: nat, s: nat)
    requires WellFormed(nodes) && d < |nodes| && g < |nodes| && s < |nodes| && d != g && d != s && g != s
    requires HasConfigServices(nodes[d].kind) && IsConcrete(nodes[d].kind)
    requires nodes[d].parent.None? && nodes[d].services == []
    requires nodes[g] == Fresh(GetConfiguration, []) && nodes[s] == Fresh(SetConfiguration, [])
    ensures IsDeviceKind(nodes[d].kind) && ServiceArgs(nodes, [Some(g), Some(s)]) && RootOf(nodes, d) == None
    ensures |nodes[d].services| + 2 <= MAX_SERVICES
  {
  }

  /** ... after which they are its services 0 and 1 under their default targets. */
  lemma ConfigServicesPlaced(nodes: seq<Node>, d: nat, g: nat, s: nat)
    requires WellFormed(nodes) && d < |nodes| && g < |nodes| && s < |nodes| && d != g && d != s && g != s
    requires HasConfigServices(nodes[d].kind) && IsConcrete(nodes[d].kind)
    requires nodes[d].parent.None? && nodes[d].services == []
    requires nodes[g] == Fresh(GetConfiguration, []) && nodes[s] == Fresh(SetConfiguration, [])
    ensures CanAttachService(nodes, d, g) && CanAttachService(AttachService(nodes, d, g), d, s)
    ensures var n2 := AttachService(AttachService(nodes, d, g), d, s);
      (forall x :: 0 <= x < |nodes| && x != d && x != g && x != s ==> n2[x] == nodes[x]) &&
      n2[d] == nodes[d].(services := [g, s]) &&
      n2[g] == Fresh(GetConfiguration, []).(parent := Some(d)) &&
      n2[s] == Fresh(SetConfiguration, []).(parent := Some(d))
  {
    AttachServiceWellFormed(nodes, d, g);
  }

  /** ... and, once a SensorWithConfig has rebound their handlers, they are the
      members ConfigService describes. */
  lemma ConfigServicesBound(n0: seq<Node>, n2: seq<Node>, n3: seq<Node>, d: nat, g: nat, s: nat)
    requires d < |n0| && g < |n0| && s < |n0| && |n2| == |n0| && d != g && d != s && g != s
    requires forall x :: 0 <= x < |n0| && x != d && x != g && x != s ==> n2[x] == n0[x]
    requires n2[d] == n0[d].(services := [g, s])
    requires n2[g] == Fresh(GetConfiguration, []).(parent := Some(d))
    requires n2[s] == Fresh(SetConfiguration, []).(parent := Some(d))
    requires n3 == if n2[d].kind.SensorWithConfig?
      then n2[s := n2[s].(handler := SensorWithConfigSet(d), formHandler := SensorWithConfigForm(d))]
             [g := n2[g].(handler := SensorWithConfigGet(d))]
      else n2
    ensures |n3| == |n0|
    ensures forall x :: 0 <= x < |n3| && x != d && x != g && x != s ==> n3[x] == n0[x]
    ensures n3[d] == n0[d].(services := [g, s])
    ensures n3[g] == ConfigService(n3[d].kind, d, GetConfiguration)
    ensures n3[s] == ConfigService(n3[d].kind, d, SetConfiguration)
  {
  }

  /** Two services added to a device with room for both, one after the other. */
  lemma AttachTwoServices(nodes: seq<Node>, d: nat, a: nat, b: nat)
    requires WellFormed(nodes) && d < |nodes| && IsDeviceKind(nodes[d].kind) && a != b
    requires ServiceArgs(nodes, [Some(a), Some(b)]) && |nodes[d].services| + 2 <= MAX_SERVICES
    ensures CanAttachService(nodes, d, a) && CanAttachService(AttachService(nodes, d, a), d, b)
    ensures AttachServices(nodes, d, [Some(a), Some(b)]) == AttachService(AttachService(nodes, d, a), d, b)
  {
    var args := [Some(a), Some(b)];
    assert args[0] == Some(a) && args[1] == Some(b);
    AttachServiceWellFormed(nodes, d, a);
    var n1 := AttachService(nodes, d, a);
    assert AddServiceStep(nodes, d, Some(a)) == n1;
    var n2 := AttachService(n1, d, b);
    assert AddServiceStep(n1, d, Some(b)) == n2;
    assert args[1..] == [Some(b)] && [Some(b)][1..] == [];
    assert AttachServices(n1, d, [Some(b)]) == AttachServices(n2, d, []);
  }

  /** Editing one object's fields in place: the edit changes its class and parent
      pointer nowhere, and a well-formed tree stays well formed when the fields fit. */
  lemma ShapeKept(nodes: seq<Node>, nodes': seq<Node>, j: nat)
    requires WellFormed(nodes) && j < |nodes| == |nodes'| && nodes' == nodes[j := nodes'[j]]
    requires nodes'[j].kind == nodes[j].kind && nodes'[j].parent == nodes[j].parent
    requires nodes'[j].services == nodes[j].services && nodes'[j].devices == nodes[j].devices
    requires FieldsOk(nodes'[j])
    ensures WellFormed(nodes')
    ensures forall x :: 0 <= x < |nodes| ==> nodes'[x].kind == nodes[x].kind && nodes'[x].parent == nodes[x].parent
  {
    forall x | 0 <= x < |nodes'| ensures NodeOk(nodes', x) {
      assert NodeOk(nodes, x);
      var c := nodes[x];
      forall k | 0 <= k < |c.services| ensures nodes'[c.services[k]].parent == nodes[c.services[k]].parent { }
      forall k | 0 <= k < |c.devices| ensures nodes'[c.devices[k]].parent == nodes[c.devices[k]].parent { }
    }
  }
  /** `parentAsDevice()` is `_parent->asDevice()`: in a well-formed tree every parent
      is a device, so it is NULL exactly when there is no parent (`hasParent()`). */
  lemma ParentAsDeviceIsParent(nodes: seq<Node>, j: nat)
    requires WellFormed(nodes) && j < |nodes|
    ensures nodes[j].parent.Some? ==> nodes[j].parent.value < |nodes| && IsDeviceKind(nodes[nodes[j].parent.value].kind)
  {
    assert NodeOk(nodes, j);
  }

  /** One turn of the service setup loop, for the routes. */
  lemma ServicesStep(nodes: seq<Node>, base: seq<Route>, before: seq<Route>, ss: seq<nat>, i: nat)
    requires WellFormed(nodes) && AllIn(nodes, ss) && i < |ss|
    requires before == base + AllServices(nodes, ss[..i])
    ensures before + PreRoutes(nodes, ss[i]) == base + AllServices(nodes, ss[..i + 1])
  {
    AllServicesSnoc(nodes, ss, i);
    Concat2(base, AllServices(nodes, ss[..i]), PreRoutes(nodes, ss[i]));
  }

  /** One addService call on a live device, then the remaining ones: together they
      bind the admitted services' routes in argument order. */
  lemma AddServicesRoutes(n0: seq<Node>, d: nat, svcs: seq<Option<nat>>, fin: seq<Node>,
                          routes0: seq<Route>, routes1: seq<Route>, routes2: seq<Route>)
    requires WellFormed(n0) && d < |n0| && IsDeviceKind(n0[d].kind) && ServiceArgs(n0, svcs) && svcs != []
    requires ServiceArgs(AddServiceStep(n0, d, svcs[0]), svcs[1..])
    requires fin == AttachServices(AddServiceStep(n0, d, svcs[0]), d, svcs[1..]) && WellFormed(fin)
    requires fin == AttachServices(n0, d, svcs)
    requires routes1 == routes0 +
      (if svcs[0].Some? && |n0[d].services| < MAX_SERVICES
       then SetupRoutes(AddServiceStep(n0, d, svcs[0]), svcs[0].value) else [])
    requires routes2 == routes1 + AllServices(fin, AddedServices(AddServiceStep(n0, d, svcs[0]), d, svcs[1..]))
    ensures routes2 == routes0 + AllServices(fin, AddedServices(n0, d, svcs))
  {
    AddedServicesStep(n0, d, svcs);
    var n1 := AddServiceStep(n0, d, svcs[0]);
    var rest := AddedServices(n1, d, svcs[1..]);
    if svcs[0].Some? && |n0[d].services| < MAX_SERVICES {
      var s := svcs[0].value;
      assert n1[s].parent == Some(d) && IsServiceKind(n1[s].kind);
      assert SetupRoutes(n1, s) == PreRoutes(n1, s);
      AttachServicesKeepServiceRoutes(n1, d, svcs[1..], s);
      AllServicesCons(fin, s, rest);
      Concat2(routes0, PreRoutes(fin, s), AllServices(fin, rest));
    } else {
      assert routes0 + [] == routes0;
    }
  }

  /** One addDevice call under a set-up root, then the remaining ones: together they
      bind the admitted devices' routes in argument order. */
  lemma AddDevicesRoutes(n0: seq<Node>, r: nat, dvcs: seq<Option<nat>>, bytes: seq<seq<bv8>>,
                         routes0: seq<Route>, routes1: seq<Route>, routes2: seq<Route>)
    requires WellFormed(n0) && r < |n0| && n0[r].kind.RootDevice? && DeviceArgs(n0, dvcs, bytes) && dvcs != []
    requires DeviceArgs(AddDeviceStep(n0, r, dvcs[0], bytes[0]), dvcs[1..], bytes[1..])
    requires routes1 == routes0 +
      (if dvcs[0].Some? && |n0[r].devices| < MAX_DEVICES
       then SetupRoutes(AddDeviceStep(n0, r, dvcs[0], bytes[0]), dvcs[0].value) else [])
    requires var n1 := AddDeviceStep(n0, r, dvcs[0], bytes[0]);
      routes2 == routes1 + AllDevices(AttachDevices(n1, r, dvcs[1..], bytes[1..]), AddedDevices(n1, r, dvcs[1..], bytes[1..]))
    ensures routes2 == routes0 + AllDevices(AttachDevices(n0, r, dvcs, bytes), AddedDevices(n0, r, dvcs, bytes))
  {
    AddedDevicesStep(n0, r, dvcs, bytes);
    var n1 := AddDeviceStep(n0, r, dvcs[0], bytes[0]);
    var fin := AttachDevices(n1, r, dvcs[1..], bytes[1..]);
    var rest := AddedDevices(n1, r, dvcs[1..], bytes[1..]);
    if dvcs[0].Some? && |n0[r].devices| < MAX_DEVICES {
      var v := dvcs[0].value;
      assert n1[v].parent == Some(r) && IsPlainDeviceKind(n1[v].kind);
      assert SetupRoutes(n1, v) == DeviceRoutes(n1, v);
      AttachDevicesKeepDeviceRoutes(n1, r, dvcs[1..], bytes[1..], v);
      AllDevicesCons(fin, v, rest);
      Concat2(routes0, DeviceRoutes(fin, v), AllDevices(fin, rest));
    } else {
      assert routes0 + [] == routes0;
    }
  }

  /** The same for the runtime: the admitted devices are set up one by one. */
  lemma AddDevicesRuntime(n0: seq<Node>, r: nat, dvcs: seq<Option<nat>>, bytes: seq<seq<bv8>>,
                          rt0: seq<Runtime>, rt1: seq<Runtime>, rt2: seq<Runtime>, svr: Server)
    requires WellFormed(n0) && r < |n0| && n0[r].kind.RootDevice? && DeviceArgs(n0, dvcs, bytes) && dvcs != []
    requires DeviceArgs(AddDeviceStep(n0, r, dvcs[0], bytes[0]), dvcs[1..], bytes[1..]) && |rt0| == |n0|
    requires rt1 ==
      if dvcs[0].Some? && |n0[r].devices| < MAX_DEVICES
      then rt0[dvcs[0].value := SetUp(n0[dvcs[0].value].kind, rt0[dvcs[0].value], svr)] else rt0
    requires var n1 := AddDeviceStep(n0, r, dvcs[0], bytes[0]);
      rt2 == SetUpAll(AttachDevices(n1, r, dvcs[1..], bytes[1..]), rt1, AddedDevices(n1, r, dvcs[1..], bytes[1..]), svr)
    ensures rt2 == SetUpAll(AttachDevices(n0, r, dvcs, bytes), rt0, AddedDevices(n0, r, dvcs, bytes), svr)
  {
    AddedDevicesStep(n0, r, dvcs, bytes);
    var n1 := AddDeviceStep(n0, r, dvcs[0], bytes[0]);
    var fin := AttachDevices(n1, r, dvcs[1..], bytes[1..]);
    var rest := AddedDevices(n1, r, dvcs[1..], bytes[1..]);
    if dvcs[0].Some? && |n0[r].devices| < MAX_DEVICES {
      var v := dvcs[0].value;
      assert fin[v].kind == n0[v].kind;
      SetUpFirst(fin, rt0, v, rest, svr);
    }
  }

  /** Setting up v first and then the others is setting up v followed by the others. */
  lemma SetUpFirst(nodes: seq<Node>, rt: seq<Runtime>, v: nat, rest: seq<nat>, svr: Server)
    requires |rt| == |nodes| && v < |nodes| && AllIn(nodes, rest) && NoDup([v] + rest)
    ensures AllIn(nodes, [v] + rest)
    ensures SetUpAll(nodes, rt[v := SetUp(nodes[v].kind, rt[v], svr)], rest, svr) == SetUpAll(nodes, rt, [v] + rest, svr)
  {
    var all := [v] + rest;
    var rt1 := rt[v := SetUp(nodes[v].kind, rt[v], svr)];
    assert forall k :: 0 <= k < |rest| ==> rest[k] == all[k + 1];
    assert NoDup(rest);
    forall i | 0 <= i < |rest| ensures rest[i] != v {
      assert all[0] != all[i + 1];
    }
    SetUpAllPointwise(nodes, rt1, rest, svr);
    SetUpAllPointwise(nodes, rt, all, svr);
    forall x | 0 <= x < |rt| ensures SetUpAll(nodes, rt1, rest, svr)[x] == SetUpAll(nodes, rt, all, svr)[x] {
      assert x in all <==> x == v || x in rest;
    }
  }

  /** One turn of the device setup loop, for the routes. */
  lemma DevicesStep(nodes: seq<Node>, base: seq<Route>, before: seq<Route>, ds: seq<nat>, i: nat)
    requires WellFormed(nodes) && AllIn(nodes, ds) && i < |ds|
    requires before == base + AllDevices(nodes, ds[..i])
    ensures before + DeviceRoutes(nodes, ds[i]) == base + AllDevices(nodes, ds[..i + 1])
  {
    AllDevicesSnoc(nodes, ds, i);
    Concat2(base, AllDevices(nodes, ds[..i]), DeviceRoutes(nodes, ds[i]));
  }

  /** One more device of the loop set up. */
  lemma SetUpAllSnoc(nodes: seq<Node>, rt: seq<Runtime>, ds: seq<nat>, i: nat, svr: Server)
    requires |rt| == |nodes| && AllIn(nodes, ds) && i < |ds|
    ensures var prev := SetUpAll(nodes, rt, ds[..i], svr);
      SetUpAll(nodes, rt, ds[..i + 1], svr) == prev[ds[i] := SetUp(nodes[ds[i]].kind, prev[ds[i]], svr)]
  {
    assert ds[..i + 1][..i] == ds[..i];
  }

  /** RootDevice::setup sets up the root, then its devices in order: that is SetUp
      applied to the whole tree of r. */
  lemma RootSetUpRuntime(nodes: seq<Node>, runtime: seq<Runtime>, runtime': seq<Runtime>, r: nat, svr: Server)
    requires WellFormed(nodes) && r < |nodes| && nodes[r].kind.RootDevice? && |runtime| == |nodes|
    requires AllIn(nodes, nodes[r].devices)
    requires runtime' == SetUpAll(nodes, runtime[r := SetUp(nodes[r].kind, runtime[r], svr)], nodes[r].devices, svr)
    ensures |runtime'| == |runtime|
    ensures forall x :: 0 <= x < |runtime'| ==>
      runtime'[x] == if InTree(nodes, r, x) then SetUp(nodes[x].kind, runtime[x], svr) else runtime[x]
  {
    assert NodeOk(nodes, r);
    SetUpAllPointwise(nodes, runtime[r := SetUp(nodes[r].kind, runtime[r], svr)], nodes[r].devices, svr);
    RootRuntime(nodes, runtime, runtime', r, svr);
  }

  /** After the device loop of RootDevice::setup, the runtime is SetUp applied to the
      whole tree of r: services are untouched by SetUp, devices and r were set up. */
  lemma RootRuntime(nodes: seq<Node>, runtime: seq<Runtime>, runtime': seq<Runtime>, r: nat, svr: Server)
    requires WellFormed(nodes) && r < |nodes| && nodes[r].kind.RootDevice?
    requires |runtime| == |nodes| == |runtime'|
    requires forall x :: 0 <= x < |runtime'| ==>
      runtime'[x] == if x == r || x in nodes[r].devices then SetUp(nodes[x].kind, runtime[x], svr) else runtime[x]
    ensures forall x :: 0 <= x < |runtime'| ==>
      runtime'[x] == if InTree(nodes, r, x) then SetUp(nodes[x].kind, runtime[x], svr) else runtime[x]
  {
    assert NodeOk(nodes, r);
    forall x | 0 <= x < |runtime'|
      ensures runtime'[x] == if InTree(nodes, r, x) then SetUp(nodes[x].kind, runtime[x], svr) else runtime[x]
    {
      RootSubtree(nodes, r, x);
      assert NodeOk(nodes, x);
      if x in nodes[r].devices {
        var k :| 0 <= k < |nodes[r].devices| && nodes[r].devices[k] == x;
      } else if x != r && InTree(nodes, r, x) {
        assert IsServiceKind(nodes[x].kind) by {
          if x in nodes[r].services {
            var k :| 0 <= k < |nodes[r].services| && nodes[r].services[k] == x;
          } else {
            var p := nodes[x].parent.value;
            assert p in nodes[r].devices;
            var k :| 0 <= k < |nodes[r].devices| && nodes[r].devices[k] == p;
            assert NodeOk(nodes, p);
          }
        }
      }
    }
  }

  lemma AllServicesSnoc(nodes: seq<Node>, ss: seq<nat>, i: nat)
    requires WellFormed(nodes) && AllIn(nodes, ss) && i < |ss|
    ensures AllServices(nodes, ss[..i + 1]) == AllServices(nodes, ss[..i]) + PreRoutes(nodes, ss[i])
  {
    assert ss[..i + 1][..i] == ss[..i];
  }

  lemma AllDevicesSnoc(nodes: seq<Node>, ds: seq<nat>, i: nat)
    requires WellFormed(nodes) && AllIn(nodes, ds) && i < |ds|
    ensures AllDevices(nodes, ds[..i + 1]) == AllDevices(nodes, ds[..i]) + DeviceRoutes(nodes, ds[i])
  {
    assert ds[..i + 1][..i] == ds[..i];
  }

  /** The routes of a device's setup, written out in the order they are bound. */
  lemma DeviceSetupRoutes(nodes: seq<Node>, d: nat)
    requires WellFormed(nodes) && d < |nodes| && IsPlainDeviceKind(nodes[d].kind)
    ensures AllIn(nodes, nodes[d].services)
    ensures forall k :: 0 <= k < |nodes[d].services| ==> IsServiceKind(nodes[nodes[d].services[k]].kind)
    ensures SetupRoutes(nodes, d) ==
      On(GetPath(nodes, d, PATH_SIZE), d, Display) + AllServices(nodes, nodes[d].services) + PostRoutes(nodes, d)
  {
    assert NodeOk(nodes, d);
  }

  /** The routes of RootDevice::setup, written out in the order they are bound. */
  lemma RootSetupRoutes(nodes: seq<Node>, r: nat)
    requires WellFormed(nodes) && r < |nodes| && nodes[r].kind.RootDevice?
    ensures AllIn(nodes, nodes[r].services) && AllIn(nodes, nodes[r].devices)
    ensures forall k :: 0 <= k < |nodes[r].services| ==> IsServiceKind(nodes[nodes[r].services[k]].kind)
    ensures forall k :: 0 <= k < |nodes[r].devices| ==> IsPlainDeviceKind(nodes[nodes[r].devices[k]].kind)
    ensures NoDup(nodes[r].devices)
    ensures SetupRoutes(nodes, r) ==
      On("/styles.css", r, Styles) + On("/", r, DisplayRoot) + On("/" + nodes[r].target, r, Display) +
      AllServices(nodes, nodes[r].services) + AllDevices(nodes, nodes[r].devices)
  {
    assert NodeOk(nodes, r);
  }
}
