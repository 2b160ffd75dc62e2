/**
 * The library's hand-rolled runtime type identification.
 *
 * Each participating class owns one static ClassType whose id is drawn from a
 * process-wide counter. `isClassType(t)` holds when t is the class's own tag or,
 * through the DERIVED_TYPE_CHECK(Base) macro, when the named base matches it;
 * `as(t)` is the checked downcast built on it. A tag is modelled by the Kind it
 * belongs to; the registry below models how the integer ids are drawn.
 */
module ClassTypes {
  import opened Wrappers

  /** Every class of the hierarchy that carries a ClassType. */
  datatype Kind =
    | Object | Service | SetConfiguration | GetConfiguration
    | Device | RootDevice | Sensor | SimpleSensor | SensorWithConfig
    | Control | SimpleControl | CustomControl

  /** The C++ base class of each class (single inheritance). */
  function BaseClass(k: Kind): Option<Kind> {
    match k
    case Object => None
    case Service => Some(Object)
    case SetConfiguration => Some(Service)
    case GetConfiguration => Some(Service)
    case Device => Some(Object)
    case RootDevice => Some(Device)
    case Sensor => Some(Device)
    case SimpleSensor => Some(Sensor)
    case SensorWithConfig => Some(SimpleSensor)
    case Control => Some(Device)
    case SimpleControl => Some(Control)
    case CustomControl => Some(Control)
  }

  /** Number of strict ancestors of k. */
  function Depth(k: Kind): nat {
    match k
    case Object => 0
    case Service => 1
    case Device => 1
    case SetConfiguration => 2
    case GetConfiguration => 2
    case RootDevice => 2
    case Sensor => 2
    case Control => 2
    case SimpleSensor => 3
    case SimpleControl => 3
    case CustomControl => 3
    case SensorWithConfig => 4
  }

  lemma BaseIsShallower(k: Kind)
    ensures BaseClass(k).Some? ==> Depth(BaseClass(k).value) < Depth(k)
  {
  }

  /** Independent reference: the ancestor-or-self chain of each class, most derived first. */
  function Lineage(k: Kind): seq<Kind> {
    match k
    case Object => [Object]
    case Service => [Service, Object]
    case SetConfiguration => [SetConfiguration, Service, Object]
    case GetConfiguration => [GetConfiguration, Service, Object]
    case Device => [Device, Object]
    case RootDevice => [RootDevice, Device, Object]
    case Sensor => [Sensor, Device, Object]
    case SimpleSensor => [SimpleSensor, Sensor, Device, Object]
    case SensorWithConfig => [SensorWithConfig, SimpleSensor, Sensor, Device, Object]
    case Control => [Control, Device, Object]
    case SimpleControl => [SimpleControl, Control, Device, Object]
    case CustomControl => [CustomControl, Control, Device, Object]
  }

  /** `isClassType(t)`: the own tag matches a non-NULL t, or the base class's check does. */
  function IsClassType(k: Kind, t: Option<Kind>): bool
    decreases Depth(k)
  {
    BaseIsShallower(k);
    (t.Some? && t.value == k) || (BaseClass(k).Some? && IsClassType(BaseClass(k).value, t))
  }

  /** A class matches exactly its ancestor-or-self tags, and never NULL. */
  lemma {:induction false} IsClassTypeIsLineage(k: Kind, t: Option<Kind>)
    ensures IsClassType(k, t) <==> t.Some? && t.value in Lineage(k)
    decreases Depth(k)
  {
    BaseIsShallower(k);
    if BaseClass(k).Some? {
      IsClassTypeIsLineage(BaseClass(k).value, t);
      assert Lineage(k) == [k] + Lineage(BaseClass(k).value);
    }
  }

  /** `as(t)` on an object of class k: the object itself (Some(k)) or NULL. */
  function As(k: Kind, t: Option<Kind>): (r: Option<Kind>)
    ensures r.Some? <==> t.Some? && t.value in Lineage(k)
    ensures r.Some? ==> r.value == k
  {
    IsClassTypeIsLineage(k, t);
    if IsClassType(k, t) then Some(k) else None
  }

  // ---------------------------------------------------------------------
  // The type-check chain AS WRITTEN in the headers. Every class names its
  // direct base in DERIVED_TYPE_CHECK, except SensorWithConfig, which names
  // Sensor although it derives from SimpleSensor.

  function TypeCheckBaseAsWritten(k: Kind): Option<Kind> {
    if k == SensorWithConfig then Some(Sensor) else BaseClass(k)
  }

  function IsClassTypeAsWritten(k: Kind, t: Option<Kind>): bool
    decreases Depth(k)
  {
    BaseIsShallower(k);
    (t.Some? && t.value == k)
    || (TypeCheckBaseAsWritten(k).Some? && IsClassTypeAsWritten(TypeCheckBaseAsWritten(k).value, t))
  }

  /** The as-written check agrees with the class hierarchy everywhere except that a
      SensorWithConfig does not recognise the SimpleSensor tag, so as(SimpleSensor) is NULL. */
  lemma {:induction false} AsWrittenDiffersOnlyAtSensorWithConfig(k: Kind, t: Option<Kind>)
    ensures IsClassTypeAsWritten(k, t) ==> IsClassType(k, t)
    ensures IsClassType(k, t) && !IsClassTypeAsWritten(k, t) <==> k == SensorWithConfig && t == Some(SimpleSensor)
    decreases Depth(k)
  {
    BaseIsShallower(k);
    if k == SensorWithConfig {
      AsWrittenDiffersOnlyAtSensorWithConfig(Sensor, t);
      IsClassTypeIsLineage(Sensor, t);
      IsClassTypeIsLineage(SensorWithConfig, t);
    } else if BaseClass(k).Some? {
      AsWrittenDiffersOnlyAtSensorWithConfig(BaseClass(k).value, t);
      IsClassTypeIsLineage(k, t);
      if t == Some(SimpleSensor) { IsClassTypeIsLineage(BaseClass(k).value, t); }
    }
  }

  // ---------------------------------------------------------------------
  // Capability queries used by the tree (asService / asDevice / asRootDevice).

  predicate IsServiceKind(k: Kind) { k.Service? || k.SetConfiguration? || k.GetConfiguration? }

  predicate IsDeviceKind(k: Kind) { !k.Object? && !IsServiceKind(k) }

  /** A device that may be embedded in a RootDevice: any device but a RootDevice. */
  predicate IsPlainDeviceKind(k: Kind) { IsDeviceKind(k) && !k.RootDevice? }

  /** asService() / asDevice() / asRootDevice() are non-NULL exactly for the classes below the matching tag. */
  lemma CapabilitiesMatchTags(k: Kind)
    ensures IsServiceKind(k) <==> IsClassType(k, Some(Service))
    ensures IsDeviceKind(k) <==> IsClassType(k, Some(Device))
    ensures k.RootDevice? <==> IsClassType(k, Some(RootDevice))
  {
    IsClassTypeIsLineage(k, Some(Service));
    IsClassTypeIsLineage(k, Some(Device));
    IsClassTypeIsLineage(k, Some(RootDevice));
  }

  // ---------------------------------------------------------------------
  // ClassType ids.

  /** A ClassType is its integer id; `isClassType` compares ids and is false for NULL. */
  datatype ClassType = ClassType(typeID: int)

  function SameClassType(c: ClassType, t: Option<ClassType>): (r: bool)
    ensures t.None? ==> !r
  {
    t.Some? && c.typeID == t.value.typeID
  }

  /** The static counter `_numTypes` behind ClassType's constructor. */
  class TypeRegistry {
    var numTypes: int

    constructor ()
      ensures numTypes == 0
    {
      numTypes := 0;
    }

    /** `ClassType()`: the id is `++_numTypes`. */
    method NewClassType() returns (c: ClassType)
      modifies this
      ensures c.typeID == old(numTypes) + 1 && numTypes == c.typeID
    {
      numTypes := numTypes + 1;
      c := ClassType(numTypes);
    }

    /** Static initialisation of n class tags in declaration order: ids are consecutive, so distinct and increasing. */
    method InitializeTypes(n: nat) returns (tags: seq<ClassType>)
      modifies this
      ensures |tags| == n && numTypes == old(numTypes) + n
      ensures forall k :: 0 <= k < n ==> tags[k].typeID == old(numTypes) + k + 1
      ensures forall a, b :: 0 <= a < b < n ==> tags[a].typeID < tags[b].typeID
    {
      tags := [];
      while |tags| < n
        invariant |tags| <= n && numTypes == old(numTypes) + |tags|
        invariant forall k :: 0 <= k < |tags| ==> tags[k].typeID == old(numTypes) + k + 1
      {
        var c := NewClassType();
        tags := tags + [c];
      }
    }
  }

  /** Position of each class's tag in static-initialisation order. */
  function KindIndex(k: Kind): (i: nat)
    ensures i < 12
  {
    match k
    case Object => 0
    case Service => 1
    case SetConfiguration => 2
    case GetConfiguration => 3
    case Device => 4
    case RootDevice => 5
    case Sensor => 6
    case SimpleSensor => 7
    case SensorWithConfig => 8
    case Control => 9
    case SimpleControl => 10
    case CustomControl => 11
  }

  /** With ids drawn from the counter, comparing ids is the same as comparing classes,
      so the id-based `isClassType` realises the Kind-based one. */
  lemma {:induction false} IdsIdentifyKinds(tags: seq<ClassType>, a: Kind, b: Kind)
    requires |tags| == 12
    requires forall x, y :: 0 <= x < y < 12 ==> tags[x].typeID < tags[y].typeID
    ensures SameClassType(tags[KindIndex(a)], Some(tags[KindIndex(b)])) <==> a == b
  {
    var x, y := KindIndex(a), KindIndex(b);
    if x < y { assert tags[x].typeID < tags[y].typeID; }
    else if y < x { assert tags[y].typeID < tags[x].typeID; }
    else {
      match a
      case Object => {} case Service => {} case SetConfiguration => {} case GetConfiguration => {}
      case Device => {} case RootDevice => {} case Sensor => {} case SimpleSensor => {}
      case SensorWithConfig => {} case Control => {} case SimpleControl => {} case CustomControl => {}
    }
  }
}
