/**
 * The request-argument rules of the HTTP handlers: each handler walks the
 * (name, value) pairs of one request and updates a field. Names are compared with
 * Arduino's `String::equalsIgnoreCase`. The functions here are the specifications
 * the handler loops of DeviceTree.Tree are proved against.
 */
module Requests {
  import opened Wrappers
  import opened Text
  import opened Nodes

  /** One request argument, `svr->argName(i)` and `svr->arg(i)`. */
  datatype Arg = Arg(name: string, value: string)

  /** The two text fields a configuration request can set. */
  datatype Field = DisplayName | Message

  /** The capacity of the char array a field is copied into. */
  function FieldSize(f: Field): nat {
    match f
    case DisplayName => NAME_SIZE
    case Message => MSG_SIZE
  }

  /** An argument that writes field f: a DISPLAYNAME with a non-empty value, or any MSG,
      even an empty one. */
  predicate Sets(a: Arg, f: Field) {
    match f
    case DisplayName => EqualsIgnoreCase(a.name, "DISPLAYNAME") && |a.value| > 0
    case Message => EqualsIgnoreCase(a.name, "MSG")
  }

  /* ---------- last writer wins ---------- */

  /** The value of field f after the arguments have been applied in order: every
      argument that sets f overwrites it with its value, truncated to the field. */
  function Assigned(args: seq<Arg>, f: Field, init: string): (r: string)
    ensures |init| < FieldSize(f) ==> |r| < FieldSize(f)
  {
    if args == [] then init
    else
      var prev := Assigned(args[..|args| - 1], f, init);
      var a := args[|args| - 1];
      if Sets(a, f) then Fit(a.value, FieldSize(f)) else prev
  }

  /** With no argument that sets f, the field is unchanged. */
  lemma {:induction false} AssignedUntouched(args: seq<Arg>, f: Field, init: string)
    requires forall k :: 0 <= k < |args| ==> !Sets(args[k], f)
    ensures Assigned(args, f, init) == init
  {
    if args != [] {
      var front := args[..|args| - 1];
      assert forall k :: 0 <= k < |front| ==> front[k] == args[k];
      AssignedUntouched(front, f, init);
    }
  }

  /** The last argument that sets f decides. */
  lemma {:induction false} AssignedByLast(args: seq<Arg>, f: Field, init: string, k: nat)
    requires k < |args| && Sets(args[k], f)
    requires forall m :: k < m < |args| ==> !Sets(args[m], f)
    ensures Assigned(args, f, init) == Fit(args[k].value, FieldSize(f))
  {
    if k < |args| - 1 {
      var front := args[..|args| - 1];
      assert front[k] == args[k];
      assert forall m :: k < m < |front| ==> front[m] == args[m];
      AssignedByLast(front, f, init, k);
    }
  }

  /** Arguments that do not set f can be dropped. */
  lemma {:induction false} AssignedIgnoresOthers(args: seq<Arg>, more: seq<Arg>, f: Field, init: string)
    requires forall k :: 0 <= k < |more| ==> !Sets(more[k], f)
    ensures Assigned(args + more, f, init) == Assigned(args, f, init)
  {
    if more != [] {
      var front := more[..|more| - 1];
      assert (args + more)[..|args + more| - 1] == args + front;
      assert (args + more)[|args + more| - 1] == more[|more| - 1];
      assert forall k :: 0 <= k < |front| ==> front[k] == more[k];
      assert !Sets(more[|more| - 1], f);
      AssignedIgnoresOthers(args, front, f, init);
      assert Assigned(args + more, f, init) == Assigned(args + front, f, init);
    } else {
      assert args + more == args;
    }
  }

  /** SensorWithConfig::setConfiguration, one argument: MSG first, else a non-empty
      DISPLAYNAME. */
  function ConfigStep(name: string, msg: string, a: Arg): (string, string) {
    if EqualsIgnoreCase(a.name, "MSG") then (name, Fit(a.value, MSG_SIZE))
    else if EqualsIgnoreCase(a.name, "DISPLAYNAME") && |a.value| > 0 then (Fit(a.value, NAME_SIZE), msg)
    else (name, msg)
  }

  /** SensorWithConfig::setConfiguration over all arguments: (display name, message). */
  function ConfigAfter(args: seq<Arg>, name: string, msg: string): (string, string) {
    if args == [] then (name, msg)
    else
      var prev := ConfigAfter(args[..|args| - 1], name, msg);
      ConfigStep(prev.0, prev.1, args[|args| - 1])
  }

  /** The MSG / DISPLAYNAME handler is two independent last-writer-wins fields: the
      else-if never hides a DISPLAYNAME, because no name equals both. */
  lemma {:induction false} ConfigAfterSplits(args: seq<Arg>, name: string, msg: string)
    ensures ConfigAfter(args, name, msg) == (Assigned(args, DisplayName, name), Assigned(args, Message, msg))
  {
    if args != [] {
      ConfigAfterSplits(args[..|args| - 1], name, msg);
      var a := args[|args| - 1];
      assert Sets(a, Message) ==> !Sets(a, DisplayName);
    }
  }

  /* ---------- setState ---------- */

  predicate IsStateArg(a: Arg) { EqualsIgnoreCase(a.name, "STATE") }

  /** The value of the STATE argument: ON or OFF in any case; anything else keeps st. */
  function Decide(value: string, st: ControlState): (r: ControlState)
    ensures EqualsIgnoreCase(value, "ON") ==> r == ON
    ensures EqualsIgnoreCase(value, "OFF") ==> r == OFF
    ensures !EqualsIgnoreCase(value, "ON") && !EqualsIgnoreCase(value, "OFF") ==> r == st
  {
    if EqualsIgnoreCase(value, "ON") then ON
    else if EqualsIgnoreCase(value, "OFF") then OFF
    else st
  }

  /** The state after `setState`: the scan stops at the first STATE argument. */
  function StateAfter(args: seq<Arg>, st: ControlState): ControlState {
    if args == [] then st
    else if IsStateArg(args[0]) then Decide(args[0].value, st)
    else StateAfter(args[1..], st)
  }

  /** Only the first STATE argument counts; with none, the state is unchanged. */
  lemma StateAfterIsFirstState(args: seq<Arg>, st: ControlState)
    ensures (forall k :: 0 <= k < |args| ==> !IsStateArg(args[k])) ==> StateAfter(args, st) == st
    ensures forall k :: 0 <= k < |args| && IsStateArg(args[k]) && (forall m :: 0 <= m < k ==> !IsStateArg(args[m])) ==>
      StateAfter(args, st) == Decide(args[k].value, st)
  {
    if forall k :: 0 <= k < |args| ==> !IsStateArg(args[k]) {
      StateAfterNone(args, st);
    }
    forall k | 0 <= k < |args| && IsStateArg(args[k]) && (forall m :: 0 <= m < k ==> !IsStateArg(args[m]))
      ensures StateAfter(args, st) == Decide(args[k].value, st)
    {
      StateAfterFirst(args, st, k);
    }
  }

  lemma {:induction false} StateAfterNone(args: seq<Arg>, st: ControlState)
    requires forall k :: 0 <= k < |args| ==> !IsStateArg(args[k])
    ensures StateAfter(args, st) == st
  {
    if args != [] {
      assert forall k :: 0 <= k < |args[1..]| ==> args[1..][k] == args[k + 1];
      StateAfterNone(args[1..], st);
    }
  }

  lemma {:induction false} StateAfterFirst(args: seq<Arg>, st: ControlState, k: nat)
    requires k < |args| && IsStateArg(args[k])
    requires forall m :: 0 <= m < k ==> !IsStateArg(args[m])
    ensures StateAfter(args, st) == Decide(args[k].value, st)
  {
    if k > 0 {
      assert !IsStateArg(args[0]);
      var tail := args[1..];
      assert tail[k - 1] == args[k];
      assert forall m :: 0 <= m < k - 1 ==> tail[m] == args[m + 1];
      StateAfterFirst(tail, st, k - 1);
    }
  }

  /** Arguments after a STATE argument are never consulted. */
  lemma {:induction false} StateAfterIgnoresLater(args: seq<Arg>, more: seq<Arg>, st: ControlState)
    requires exists k :: 0 <= k < |args| && IsStateArg(args[k])
    ensures StateAfter(args + more, st) == StateAfter(args, st)
  {
    if !IsStateArg(args[0]) {
      assert (args + more)[1..] == args[1..] + more;
      var k :| 0 <= k < |args| && IsStateArg(args[k]);
      assert args[1..][k - 1] == args[k];
      StateAfterIgnoresLater(args[1..], more, st);
    }
  }

  /** What `content()` shows: the ON templates exactly when `isON()`. The slider links
      to "./setState?STATE=OFF" when on and "./setState?STATE=ON" when off. */
  datatype ControlView = ControlView(toggle: Arg, caption: string)

  function Content(st: ControlState): (v: ControlView)
    ensures v.toggle.name == "STATE"
  {
    if st == ON then ControlView(Arg("STATE", "OFF"), "Control is ON")
    else ControlView(Arg("STATE", "ON"), "Control is OFF")
  }

  /** Following the slider link toggles the control, and the caption names the state. */
  lemma ToggleFlips(st: ControlState)
    ensures StateAfter([Content(st).toggle], st) != st
    ensures Content(st).caption == if st == ON then "Control is ON" else "Control is OFF"
  {
    assert EqualsIgnoreCase("ON", "ON") && EqualsIgnoreCase("OFF", "OFF");
    assert !EqualsIgnoreCase("OFF", "ON");
    assert IsStateArg(Content(st).toggle);
  }

  /** `setMessage(m)`: NULL is ignored, otherwise the text is copied truncated. */
  function MessageAfter(m: Option<string>, msg: string): (r: string)
    ensures m.None? ==> r == msg
    ensures m.Some? ==> |r| < MSG_SIZE && |r| <= |m.value| && r == m.value[..|r|]
    ensures m.Some? && |m.value| < MSG_SIZE ==> r == m.value
  {
    match m
    case None => msg
    case Some(s) => Fit(s, MSG_SIZE)
  }

  /** A MSG argument does what `setMessage` would do with its value. */
  lemma MessageArgIsSetMessage(args: seq<Arg>, msg: string)
    requires args != [] && Sets(args[|args| - 1], Message)
    ensures Assigned(args, Message, msg) == MessageAfter(Some(args[|args| - 1].value), msg)
  {
  }

  /* ---------- configuration pages ---------- */

  /** The device whose page a service belongs to: the parent, or the service itself
      when it is unattached. */
  function Viewer(nodes: seq<Node>, s: nat): (v: nat)
    requires WellFormed(nodes) && s < |nodes|
    ensures v < |nodes|
    ensures nodes[s].parent.Some? ==> v == nodes[s].parent.value
    ensures nodes[s].parent.None? ==> v == s
  {
    match nodes[s].parent
    case None => s
    case Some(p) => assert NodeOk(nodes, s); p
  }

  /** The three things SetConfiguration's default form shows: where it submits, the
      current name and where Cancel goes. */
  datatype ConfigForm = ConfigForm(action: string, name: string, cancel: string)

  function DefaultForm(nodes: seq<Node>, s: nat): (f: ConfigForm)
    requires WellFormed(nodes) && s < |nodes|
    ensures f.name == nodes[Viewer(nodes, s)].displayName
    ensures f.cancel == GetPath(nodes, Viewer(nodes, s), PATH_SIZE)
    ensures f.action == GetPath(nodes, s, PATH_SIZE)
  {
    assert NodeOk(nodes, s);
    match nodes[s].parent
    case Some(p) =>
      ConfigForm(GetPath(nodes, s, PATH_SIZE), nodes[p].displayName, GetPath(nodes, p, PATH_SIZE))
    case None =>
      ConfigForm(GetPath(nodes, s, PATH_SIZE), nodes[s].displayName, "/" + nodes[s].target)
  }

  /** The form does not submit to itself: its action is the service's own route, not
      the form route below it. */
  lemma FormSubmitsElsewhere(nodes: seq<Node>, s: nat)
    requires WellFormed(nodes) && s < |nodes|
    ensures DefaultForm(nodes, s).action == FullPath(nodes, s)
    ensures DefaultForm(nodes, s).action != FormPath(nodes, s)
    ensures FormPath(nodes, s) == Fit(DefaultForm(nodes, s).action + "/configForm", PATH_SIZE)
  {
    var full := FullPath(nodes, s);
    assert |full| <= 96 && DefaultForm(nodes, s).action == full by { PathIsJoinedAncestry(nodes, s); }
    assert FormPath(nodes, s) == Fit(full + "/" + "configForm", PATH_SIZE) by {
      NamedPathIsAppend(nodes, s, "configForm");
      PathIsJoinedAncestry(nodes, s);
    }
    FormRouteBelow(full);
  }

  /** The form route of a path of at most 96 characters is that path with
      "/configForm" appended, cut to 99 characters, and so is longer than it. */
  lemma FormRouteBelow(full: string)
    requires |full| <= 96
    ensures full + "/" + "configForm" == full + "/configForm"
    ensures |Fit(full + "/configForm", PATH_SIZE)| > |full|
  {
  }

  /** GetConfiguration's default handler reports the display name of the parent, or
      its own when it has none. */
  function ReportedName(nodes: seq<Node>, s: nat): (n: string)
    requires WellFormed(nodes) && s < |nodes|
    ensures n == DefaultForm(nodes, s).name
  {
    nodes[Viewer(nodes, s)].displayName
  }
}
