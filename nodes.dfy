/**
 * The object tree of UPnPDevice as an arena: every UPnPObject (RootDevice,
 * UPnPDevice and its subclasses, UPnPService and its subclasses) is an entry of a
 * sequence, and the C++ pointers between them (`_parent`, `_services[]`,
 * `_devices[]`) are indices into it. This module holds the values, the shape
 * invariant the adders keep, and the paths computed from the parent chain.
 */
module Nodes {
  import opened Wrappers
  import opened Text
  import opened ClassTypes
  import opened Paths
  import opened Uuid

  const MAX_SERVICES: nat := 8
  const MAX_DEVICES: nat := 8
  /** `_displayName[NAME_SIZE]`. */
  const NAME_SIZE: nat := 32
  /** The `char pathBuffer[100]` every caller hands to getPath and handlerPath. */
  const PATH_SIZE: nat := 100
  /** `_msg[BUFF_SIZE]` of the example sensors. */
  const MSG_SIZE: nat := 100

  /** The std::function values stored in `_handler` / `_formHandler`, as tokens naming
      the lambda that was bound (the owner is the object whose method it calls). */
  datatype Handler =
    | NoOpHandler
    | SetConfigurationDefault
    | SetConfigurationDefaultForm
    | GetConfigurationDefault
    | SensorWithConfigSet(owner: nat)
    | SensorWithConfigForm(owner: nat)
    | SensorWithConfigGet(owner: nat)

  datatype ControlState = ON | OFF

  /** The WebContext a RootDevice is set up with; only its local port is read. */
  datatype Server = Server(localPort: int)

  /** The fields of one UPnPObject that shape the tree and its addresses. */
  datatype Node = Node(
    kind: Kind,
    target: string,
    displayName: string,
    parent: Option<nat>,
    services: seq<nat>,
    devices: seq<nat>,
    uuid: string,
    handler: Handler,
    formHandler: Handler)

  /** The fields that setup and request handling change: a RootDevice's `_context` and
      `_serverPort`, a sensor's `_msg`, a control's `_state`. */
  datatype Runtime = Runtime(context: Option<Server>, serverPort: int, msg: string, state: ControlState)

  /** Classes that can be instantiated: UPnPObject, Sensor and Control are abstract. */
  predicate IsConcrete(k: Kind) { !(k.Object? || k.Sensor? || k.Control?) }

  predicate NoDup(s: seq<nat>) { forall a, b :: 0 <= a < b < |s| ==> s[a] != s[b] }

  /** A node's parent lists it: a service hangs off a device, a device off a root,
      and a root has no parent. */
  predicate ParentOk(nodes: seq<Node>, j: nat)
    requires j < |nodes|
  {
    match nodes[j].parent
    case None => true
    case Some(p) =>
      p < |nodes| && !nodes[j].kind.RootDevice? &&
      if IsServiceKind(nodes[j].kind) then IsDeviceKind(nodes[p].kind) && j in nodes[p].services
      else nodes[p].kind.RootDevice? && j in nodes[p].devices
  }

  /** The child arrays: within capacity, in range, pointing back, of the right kind,
      without repeats; only devices have services and only roots have devices. */
  predicate ChildrenOk(nodes: seq<Node>, j: nat)
    requires j < |nodes|
  {
    var n := nodes[j];
    |n.services| <= MAX_SERVICES && |n.devices| <= MAX_DEVICES &&
    NoDup(n.services) && NoDup(n.devices) &&
    (!IsDeviceKind(n.kind) ==> n.services == []) &&
    (!n.kind.RootDevice? ==> n.devices == []) &&
    (forall k :: 0 <= k < |n.services| ==>
       n.services[k] < |nodes| && nodes[n.services[k]].parent == Some(j) && IsServiceKind(nodes[n.services[k]].kind)) &&
    (forall k :: 0 <= k < |n.devices| ==>
       n.devices[k] < |nodes| && nodes[n.devices[k]].parent == Some(j) && IsPlainDeviceKind(nodes[n.devices[k]].kind))
  }

  /** The char arrays hold C strings that fit them, and a uuid is empty or valid. */
  predicate FieldsOk(n: Node) {
    |n.target| < TARGET_SIZE && |n.displayName| < NAME_SIZE && (n.uuid == [] || IsValidUuid(n.uuid))
  }

  predicate NodeOk(nodes: seq<Node>, j: nat)
    requires j < |nodes|
  {
    IsConcrete(nodes[j].kind) && ParentOk(nodes, j) && ChildrenOk(nodes, j) && FieldsOk(nodes[j])
  }

  predicate WellFormed(nodes: seq<Node>) {
    forall j :: 0 <= j < |nodes| ==> NodeOk(nodes, j)
  }

  /** Height in the tree: services are leaves, roots are the top. */
  function Level(k: Kind): nat {
    if IsServiceKind(k) then 0 else if k.RootDevice? then 2 else 1
  }

  /** A parent sits strictly higher than its child, so the parent chain is at most
      two links long. */
  lemma ParentIsHigher(nodes: seq<Node>, j: nat)
    requires WellFormed(nodes) && j < |nodes| && nodes[j].parent.Some?
    ensures nodes[j].parent.value < |nodes|
    ensures Level(nodes[j].kind) < Level(nodes[nodes[j].parent.value].kind)
  {
    assert NodeOk(nodes, j);
  }

  /** A node's parent lists it, and a node listed by another has it as parent. */
  lemma ChildIffListed(nodes: seq<Node>, x: nat, p: nat)
    requires WellFormed(nodes) && x < |nodes| && p < |nodes|
    ensures nodes[x].parent == Some(p) <==> x in nodes[p].services || x in nodes[p].devices
  {
    assert NodeOk(nodes, x) && NodeOk(nodes, p);
    if x in nodes[p].services {
      var k :| 0 <= k < |nodes[p].services| && nodes[p].services[k] == x;
    } else if x in nodes[p].devices {
      var k :| 0 <= k < |nodes[p].devices| && nodes[p].devices[k] == x;
    }
  }

  /** The topmost ancestor: the node, its parent or its grandparent. */
  function Top(nodes: seq<Node>, j: nat): (t: nat)
    requires WellFormed(nodes) && j < |nodes|
    ensures t < |nodes| && nodes[t].parent.None?
  {
    match nodes[j].parent
    case None => j
    case Some(p) =>
      ParentIsHigher(nodes, j);
      match nodes[p].parent
      case None => p
      case Some(g) => ParentIsHigher(nodes, p); assert NodeOk(nodes, g); g
  }

  /** `rootDevice()`: the topmost ancestor if it is a RootDevice, else NULL. */
  function RootOf(nodes: seq<Node>, j: nat): (r: Option<nat>)
    requires WellFormed(nodes) && j < |nodes|
    ensures r.Some? ==> r.value < |nodes| && nodes[r.value].kind.RootDevice?
  {
    var t := Top(nodes, j);
    if nodes[t].kind.RootDevice? then Some(t) else None
  }

  /** j is i or lies below it. */
  predicate InTree(nodes: seq<Node>, i: nat, j: nat)
    requires WellFormed(nodes) && j < |nodes|
  {
    j == i || nodes[j].parent == Some(i) ||
    (nodes[j].parent.Some? && nodes[j].parent.value < |nodes| && nodes[nodes[j].parent.value].parent == Some(i))
  }

  /** Under a root, "below r" and "r is the root of" are the same thing. */
  lemma InTreeOfRoot(nodes: seq<Node>, r: nat, j: nat)
    requires WellFormed(nodes) && r < |nodes| && j < |nodes| && nodes[r].kind.RootDevice?
    ensures InTree(nodes, r, j) <==> RootOf(nodes, j) == Some(r)
  {
    assert NodeOk(nodes, r);
    if nodes[j].parent.Some? {
      ParentIsHigher(nodes, j);
      var p := nodes[j].parent.value;
      if nodes[p].parent.Some? { ParentIsHigher(nodes, p); }
    }
  }

  /** An object and its ancestors share one root. */
  lemma AncestorSharesRoot(nodes: seq<Node>, y: nat, x: nat)
    requires WellFormed(nodes) && x < |nodes| && y < |nodes| && InTree(nodes, y, x)
    ensures RootOf(nodes, y) == RootOf(nodes, x)
  {
    if x != y {
      ParentIsHigher(nodes, x);
      var p := nodes[x].parent.value;
      if nodes[p].parent.Some? { ParentIsHigher(nodes, p); }
      if nodes[y].parent.Some? { ParentIsHigher(nodes, y); }
    }
  }

  /** A node is live when its tree's RootDevice holds a server context, i.e. when
      `rootDevice() != NULL && rootDevice()->getContext() != NULL`. */
  predicate Live(nodes: seq<Node>, runtime: seq<Runtime>, j: nat)
    requires WellFormed(nodes) && |runtime| == |nodes| && j < |nodes|
  {
    RootOf(nodes, j).Some? && runtime[RootOf(nodes, j).value].context.Some?
  }

  /* ---------- paths ---------- */

  /** The untruncated text of `getPath`: "/t", "/p/t" or "/g/p/t". */
  function FullPath(nodes: seq<Node>, j: nat): string
    requires WellFormed(nodes) && j < |nodes|
  {
    var t := nodes[j].target;
    match nodes[j].parent
    case None => "/" + t
    case Some(p) =>
      ParentIsHigher(nodes, j);
      match nodes[p].parent
      case None => "/" + nodes[p].target + "/" + t
      case Some(g) => ParentIsHigher(nodes, p); "/" + nodes[g].target + "/" + nodes[p].target + "/" + t
  }

  /** `getPath(buffer, size)`: the path as snprintf leaves it in the buffer. */
  function GetPath(nodes: seq<Node>, j: nat, size: nat): string
    requires WellFormed(nodes) && j < |nodes| && size >= 1
  {
    Fit(FullPath(nodes, j), size)
  }

  /** Independent reference: the targets of the whole parent chain, topmost first. */
  function Ancestry(nodes: seq<Node>, j: nat): (r: seq<string>)
    requires WellFormed(nodes) && j < |nodes|
    ensures 1 <= |r| <= 3 - Level(nodes[j].kind) && r[|r| - 1] == nodes[j].target
    ensures forall k :: 0 <= k < |r| ==> |r[k]| < TARGET_SIZE
    decreases 2 - Level(nodes[j].kind)
  {
    assert NodeOk(nodes, j);
    match nodes[j].parent
    case None => [nodes[j].target]
    case Some(p) =>
      ParentIsHigher(nodes, j);
      assert Level(nodes[p].kind) <= 2;
      Ancestry(nodes, p) + [nodes[j].target]
  }

  /** The chain has one, two or three entries, read off the parent links. */
  lemma AncestryCases(nodes: seq<Node>, j: nat)
    requires WellFormed(nodes) && j < |nodes|
    ensures nodes[j].parent.None? ==> Ancestry(nodes, j) == [nodes[j].target]
    ensures nodes[j].parent.Some? ==> (
      nodes[j].parent.value < |nodes| &&
      var p := nodes[j].parent.value;
      (nodes[p].parent.None? ==> Ancestry(nodes, j) == [nodes[p].target, nodes[j].target]) &&
      (nodes[p].parent.Some? ==> (
        nodes[p].parent.value < |nodes| &&
        Ancestry(nodes, j) == [nodes[nodes[p].parent.value].target, nodes[p].target, nodes[j].target])))
  {
    if nodes[j].parent.Some? {
      var p := nodes[j].parent.value;
      ParentIsHigher(nodes, j);
      if nodes[p].parent.Some? {
        var g := nodes[p].parent.value;
        ParentIsHigher(nodes, p);
        assert NodeOk(nodes, g);
      }
    }
  }

  /** getPath's three-way split is the join of the whole chain: no ancestor is dropped,
      and the result (at most 96 characters) is never cut by a 100-byte buffer. */
  lemma PathIsJoinedAncestry(nodes: seq<Node>, j: nat)
    requires WellFormed(nodes) && j < |nodes|
    ensures FullPath(nodes, j) == Join(Ancestry(nodes, j))
    ensures |FullPath(nodes, j)| <= 96
    ensures GetPath(nodes, j, PATH_SIZE) == FullPath(nodes, j)
  {
    AncestryCases(nodes, j);
    var t := nodes[j].target;
    if nodes[j].parent.Some? {
      var p := nodes[j].parent.value;
      if nodes[p].parent.Some? {
        JoinThree(nodes[nodes[p].parent.value].target, nodes[p].target, t);
      } else {
        JoinTwo(nodes[p].target, t);
      }
    } else {
      JoinOne(t);
    }
    JoinLength(Ancestry(nodes, j));
  }

  /** `handlerPath(buffer, 100, name)` of node j. */
  function NamedPath(nodes: seq<Node>, j: nat, name: string): string
    requires WellFormed(nodes) && j < |nodes|
  {
    HandlerPath(FullPath(nodes, j), name, PATH_SIZE)
  }

  /** handlerPath is the node's path, "/" and the name, cut to 99 characters. */
  lemma NamedPathIsAppend(nodes: seq<Node>, j: nat, name: string)
    requires WellFormed(nodes) && j < |nodes|
    ensures NamedPath(nodes, j, name) == Fit(GetPath(nodes, j, PATH_SIZE) + "/" + name, PATH_SIZE)
    ensures |FullPath(nodes, j)| + 1 + |name| < PATH_SIZE ==>
      NamedPath(nodes, j, name) == FullPath(nodes, j) + "/" + name
  {
    PathIsJoinedAncestry(nodes, j);
    HandlerPathIsTruncatedAppend(FullPath(nodes, j), name, PATH_SIZE);
  }

  /** `formPath` of a SetConfiguration service. */
  function FormPath(nodes: seq<Node>, s: nat): string
    requires WellFormed(nodes) && s < |nodes|
  {
    NamedPath(nodes, s, "configForm")
  }

  /** `contentPath` of a Control. */
  function ContentPath(nodes: seq<Node>, c: nat): string
    requires WellFormed(nodes) && c < |nodes|
  {
    NamedPath(nodes, c, "displayControl")
  }

  /** The path the example controls bind `setState` to. */
  function SetStatePath(nodes: seq<Node>, c: nat): string
    requires WellFormed(nodes) && c < |nodes|
  {
    NamedPath(nodes, c, "setState")
  }
}
