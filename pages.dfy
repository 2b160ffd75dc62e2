/**
 * What `RootDevice::formatContent` puts on the root page, without the markup: one
 * entry per device, in insertion order, then a "This Device" button. The choice
 * for each device is made with the library's own checked downcasts, Sensor first,
 * then Control, else a plain button.
 */
module Pages {
  import opened Wrappers
  import opened Text
  import opened ClassTypes
  import opened Nodes
  import opened Routes

  /** One entry of the root page. */
  datatype Panel =
    | SensorPanel(sensor: nat, msg: string)                            // s->content(...)
    | ControlPanel(title: string, src: string, height: int, width: int) // title and iframe
    | AppButton(path: string, caption: string)                         // app_button

  /** `frameHeight()`: the example controls override Control's 75 with 100. */
  function FrameHeight(k: Kind): int { if HasSetState(k) then 100 else 75 }

  /** `frameWidth()`: Control's 300, never overridden. */
  const FRAME_WIDTH: int := 300

  /** formatContent's entry for device d: `as(Sensor::classType())` first, then
      `as(Control::classType())`, else a button to the device page. A sensor shows its
      message through `content`. */
  function PanelFor(nodes: seq<Node>, runtime: seq<Runtime>, d: nat): Panel
    requires WellFormed(nodes) && |runtime| == |nodes| && d < |nodes|
  {
    var k := nodes[d].kind;
    if As(k, Some(Kind.Sensor)).Some? then SensorPanel(d, runtime[d].msg)
    else if As(k, Some(Kind.Control)).Some? then
      ControlPanel(nodes[d].displayName, ContentPath(nodes, d), FrameHeight(k), FRAME_WIDTH)
    else AppButton(GetPath(nodes, d, PATH_SIZE), nodes[d].displayName)
  }

  /** The entries of the devices ds, in order. */
  function Panels(nodes: seq<Node>, runtime: seq<Runtime>, ds: seq<nat>): (r: seq<Panel>)
    requires WellFormed(nodes) && |runtime| == |nodes| && AllIn(nodes, ds)
    ensures |r| == |ds|
  {
    if ds == [] then [] else Panels(nodes, runtime, ds[..|ds| - 1]) + [PanelFor(nodes, runtime, ds[|ds| - 1])]
  }

  /** The whole root page of root r. */
  function RootPanels(nodes: seq<Node>, runtime: seq<Runtime>, r: nat): seq<Panel>
    requires WellFormed(nodes) && |runtime| == |nodes| && r < |nodes|
  {
    assert NodeOk(nodes, r);
    Panels(nodes, runtime, nodes[r].devices) + [AppButton(GetPath(nodes, r, PATH_SIZE), "This Device")]
  }

  /** Entry k of the list is the entry of device k. */
  lemma {:induction false} PanelsAt(nodes: seq<Node>, runtime: seq<Runtime>, ds: seq<nat>, k: nat)
    requires WellFormed(nodes) && |runtime| == |nodes| && AllIn(nodes, ds) && k < |ds|
    ensures Panels(nodes, runtime, ds)[k] == PanelFor(nodes, runtime, ds[k])
  {
    var front := ds[..|ds| - 1];
    if k < |ds| - 1 {
      assert front[k] == ds[k];
      PanelsAt(nodes, runtime, front, k);
    }
  }

  /** Each device gets exactly the entry its class calls for, and every link on the
      page leads to a route that the linked object's own setup binds: a control's
      frame to its content route, a plain device's button to its page. */
  lemma PanelClasses(nodes: seq<Node>, runtime: seq<Runtime>, d: nat)
    requires WellFormed(nodes) && |runtime| == |nodes| && d < |nodes| && IsPlainDeviceKind(nodes[d].kind)
    ensures PanelFor(nodes, runtime, d).SensorPanel? <==> IsSensorKind(nodes[d].kind)
    ensures PanelFor(nodes, runtime, d).ControlPanel? <==> IsControlKind(nodes[d].kind)
    ensures PanelFor(nodes, runtime, d).SensorPanel? ==> PanelFor(nodes, runtime, d).msg == runtime[d].msg
    ensures PanelFor(nodes, runtime, d).ControlPanel? ==> (
      var p := PanelFor(nodes, runtime, d);
      Route(p.src, Action(d, DisplayControl)) in PostRoutes(nodes, d) &&
      p.height == (if HasSetState(nodes[d].kind) then 100 else 75) && p.width == 300 &&
      p.title == nodes[d].displayName)
    ensures PanelFor(nodes, runtime, d).AppButton? ==> (
      var p := PanelFor(nodes, runtime, d);
      Route(p.path, Action(d, Display)) in PreRoutes(nodes, d) && p.caption == nodes[d].displayName)
  {
    KindTestsAreTypeChecks(nodes[d].kind);
    var k := nodes[d].kind;
    assert IsSensorKind(k) ==> !IsControlKind(k);
  }

  /** The root page lists one entry per device, in insertion order, and ends with a
      button to the root's own page, which RootDevice::setup binds. */
  lemma RootPanelsShape(nodes: seq<Node>, runtime: seq<Runtime>, r: nat)
    requires WellFormed(nodes) && |runtime| == |nodes| && r < |nodes| && nodes[r].kind.RootDevice?
    ensures |RootPanels(nodes, runtime, r)| == |nodes[r].devices| + 1
    ensures forall k :: 0 <= k < |nodes[r].devices| ==>
      nodes[r].devices[k] < |nodes| && RootPanels(nodes, runtime, r)[k] == PanelFor(nodes, runtime, nodes[r].devices[k])
    ensures RootPanels(nodes, runtime, r)[|nodes[r].devices|] == AppButton("/" + nodes[r].target, "This Device")
    ensures Route("/" + nodes[r].target, Action(r, Display)) in PreRoutes(nodes, r)
  {
    assert NodeOk(nodes, r);
    var ds := nodes[r].devices;
    forall k | 0 <= k < |ds| ensures RootPanels(nodes, runtime, r)[k] == PanelFor(nodes, runtime, ds[k]) {
      PanelsAt(nodes, runtime, ds, k);
    }
    PathIsJoinedAncestry(nodes, r);
  }

  /** The "Configure" button of `Sensor::display` and `Control::display` links to the
      form path of the device's SetConfiguration member, services[1]: the device's path
      followed by "/setConfiguration/configForm", a route that service's own setup binds. */
  lemma ConfigureLink(nodes: seq<Node>, d: nat)
    requires WellFormed(nodes) && d < |nodes| && (IsSensorKind(nodes[d].kind) || IsControlKind(nodes[d].kind))
    requires |nodes[d].services| >= 2 && nodes[d].services[1] < |nodes|
    requires nodes[nodes[d].services[1]].kind.SetConfiguration? && nodes[nodes[d].services[1]].target == "setConfiguration"
    ensures Route(FormPath(nodes, nodes[d].services[1]), Action(nodes[d].services[1], ConfigForm))
      in PreRoutes(nodes, nodes[d].services[1])
    ensures FormPath(nodes, nodes[d].services[1]) == Fit(FullPath(nodes, d) + "/setConfiguration/configForm", PATH_SIZE)
  {
    var s := nodes[d].services[1];
    var full := FullPath(nodes, s);
    assert full == FullPath(nodes, d) + "/" + "setConfiguration" by { MemberPath(nodes, d, 1); }
    assert FormPath(nodes, s) == Fit(full + "/" + "configForm", PATH_SIZE) by {
      NamedPathIsAppend(nodes, s, "configForm");
      PathIsJoinedAncestry(nodes, s);
    }
    FormSuffix(FullPath(nodes, d));
    assert Route(FormPath(nodes, s), Action(s, ConfigForm)) in PreRoutes(nodes, s) by {
      assert NodeOk(nodes, s);
    }
  }

  lemma FormSuffix(p: string)
    ensures p + "/" + "setConfiguration" + "/" + "configForm" == p + "/setConfiguration/configForm"
  {
  }

  /** A member service's path is its device's path, "/" and its target. */
  lemma MemberPath(nodes: seq<Node>, d: nat, i: nat)
    requires WellFormed(nodes) && d < |nodes| && i < |nodes[d].services|
    ensures nodes[d].services[i] < |nodes|
    ensures FullPath(nodes, nodes[d].services[i]) == FullPath(nodes, d) + "/" + nodes[nodes[d].services[i]].target
  {
    assert NodeOk(nodes, d);
    var s := nodes[d].services[i];
    assert nodes[s].parent == Some(d);
    match nodes[d].parent
    case None =>
    case Some(g) =>
      assert NodeOk(nodes, g);
      assert nodes[g].parent.None?;
  }
}
