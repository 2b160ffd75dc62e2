# UPnPDevice object tree, in Dafny

A model of the object tree of the UPnPDevice Arduino library (namespace `lsc`), with proofs.
A `RootDevice` owns up to eight `UPnPDevice`s. Each device, the root included, owns up to
eight `UPnPService`s. Every object has a target, and its URL is the targets of its ancestors
joined with `/`. `RootDevice::setup` binds one HTTP route per page and per service on the web
server. Objects added to the tree after that are set up on the spot ("late binding").

The model covers:

- **Class tags.** The hand-rolled run-time type identification: `ClassType` ids from a global
  counter, `isClassType` and `as`. The class hierarchy becomes a `Kind` datatype with a base-class
  function (`class_types.dfy`).
- **Strings.** `strlcpy`/`snprintf` truncation (`text.dfy`), UUID checking and generation
  (`uuid.dfy`), and `setTarget`, `getPath`, `handlerPath` and `encodePath` (`paths.dfy`,
  `nodes.dfy`).
- **The tree as an arena** (`nodes.dfy`). Objects are a sequence of `Node`s that refer to
  their parent and children by index. The fields that setup and requests change (the server
  context, the port, a sensor's message, a control's state) are kept in a parallel `Runtime`
  sequence.
- **The web server as a ghost route log** (`routes.dfy`, `attach.dfy`). Each entry is the path
  and the bound action (object, endpoint). The invariant is that every endpoint of every object
  under a root that holds a context is registered exactly once, and no other, and that each
  route is bound under the path its object reports now.
- **The stateful operations** as methods of the class `DeviceTree.Tree`: the constructors,
  `addService`/`addDevice` and their variadic forms, the setters, every `setup`, both
  `getDevice`s, `rootDevice`, `formatContent`, and the request handlers of the configuration
  services and of the example sensors and controls (`device_tree.dfy`).
- **Request-argument rules** as functions over a sequence of (name, value) pairs
  (`requests.dfy`). What the root page shows, without its markup, is in `pages.dfy`.

Handlers (the library's `std::function` lambdas) are tokens (`Handler`). Running one is the
function `DeviceTree.Effect`, and `Tree.Invoke` / `Tree.Serve` do what the server does when a
bound route is requested.

## Model

| member | source | states |
|---|---|---|
| `ClassTypes.IsClassTypeIsLineage` | src/UPnPService.h:38-50 | `isClassType(t)` holds iff `t` is non-NULL and is the tag of the class itself or of one of its ancestors |
| `ClassTypes.As` | src/UPnPService.h:29 | `as(t)` yields the object iff `isClassType(t)`, otherwise NULL, and never fails |
| `ClassTypes.AsWrittenDiffersOnlyAtSensorWithConfig` | examples/SensorDevice/SensorWithConfig.h:69 | the type check as written is never wider than the hierarchy, and it differs from it exactly for a SensorWithConfig asked about SimpleSensor |
| `ClassTypes.CapabilitiesMatchTags` | src/UPnPService.h:184-186 | an object is a service, a device or a root device exactly when it carries the UPnPService, UPnPDevice or RootDevice tag |
| `ClassTypes.SameClassType` | src/UPnPService.h:87 | comparing with a NULL tag is false |
| `ClassTypes.TypeRegistry.NewClassType` | src/UPnPService.h:83 | a new tag takes the id `++_numTypes` |
| `ClassTypes.TypeRegistry.InitializeTypes` | src/UPnPService.h:58 | n static tags get the ids that follow the counter, strictly increasing in construction order |
| `ClassTypes.IdsIdentifyKinds` | src/UPnPService.h:85-87 | with distinct ids, two classes' tags compare equal iff the classes are the same |
| `Text.Fit` | src/UPnPService.cpp:47 | the bounded copy is a prefix of the source of at most size-1 characters, the whole source when it fits, and exactly size-1 characters otherwise |
| `Text.FitPrefixAppend` | src/UPnPService.cpp:84-86 | writing after a fitted prefix with the remaining room gives the fitted concatenation |
| `Text.HexChar` | src/UPnPDevice.cpp:38 | `%02x` nibbles are hex digits and never upper case |
| `Text.Decimal` | src/UPnPDevice.cpp:116 | `%d` of a count is a non-empty string of decimal digits, and below ten it is exactly that one digit |
| `Text.DecimalDenotes` | src/UPnPDevice.cpp:116 | reading the digits of `%d` back gives the count, and there is no leading zero |
| `Uuid.CheckUuid` | src/UPnPDevice.cpp:48-62 | the loop reports true iff the text has length 36, a '-' at 8, 13, 18 and 23, and a hex digit of either case everywhere else |
| `Uuid.MaskVersionAndVariant` | src/UPnPDevice.cpp:30-33 | masking changes bytes 6 and 8 only |
| `Uuid.MaskedNibbles` | src/UPnPDevice.cpp:31-33 | the masked version nibble is 4 and the masked variant nibble is 8 to 11 (sections 4.1.1 and 4.1.3 of RFC 4122) |
| `Uuid.HexAt` | src/UPnPDevice.cpp:38 | formatting bytes as `%02x` gives two characters per byte, high nibble first |
| `Uuid.FormatUuidAt` | src/UPnPDevice.cpp:35-38 | the formatted UUID has 36 characters, hyphens at the four hyphen positions and the right nibble everywhere else |
| `Uuid.GeneratedUuidShape` | src/UPnPDevice.cpp:35-39 | a generated UUID has 36 characters, a hyphen at each hyphen position and a lower-case hex digit everywhere else |
| `Uuid.VersionDigit` | src/UPnPDevice.cpp:30-31 | character 14 of a generated UUID is '4' |
| `Uuid.VariantDigit` | src/UPnPDevice.cpp:32-33 | character 19 of a generated UUID is one of 8, 9, a, b |
| `Uuid.GeneratedUuidIsValid` | src/UPnPDevice.cpp:25-40 | for any 16 bytes, the generated UUID passes `isValidUUID`, has no upper-case letter, a '4' at 14 and one of 8, 9, a, b at 19 |
| `Paths.TargetOf` | src/UPnPService.cpp:54-57 | a stored target has at most 31 characters |
| `Paths.TargetDropsOneSlash` | src/UPnPService.cpp:55 | one leading '/' is dropped; a second one survives |
| `Paths.TargetKeptWhenShort` | src/UPnPService.cpp:56 | a short target without a leading '/' is stored unchanged |
| `Paths.Join` | src/UPnPService.cpp:75-79 | a joined path of at least one target starts with '/' |
| `Paths.JoinLength` | src/UPnPService.cpp:69-80 | joining n stored targets gives at most 32n characters |
| `Paths.JoinOne` | src/UPnPService.cpp:79 | one target gives "/t" |
| `Paths.JoinTwo` | src/UPnPService.cpp:77 | two targets give "/p/t" |
| `Paths.JoinThree` | src/UPnPService.cpp:75 | three targets give "/g/p/t" |
| `Paths.HandlerPath` | src/UPnPService.cpp:82-87 | a handler path is shorter than its buffer |
| `Paths.HandlerPathIsTruncatedAppend` | src/UPnPService.cpp:83-86 | the room left after the path is at least 1, and the result is path + "/" + name truncated to size-1 |
| `Paths.Escape` | src/UPnPService.cpp:99-104 | the five reserved characters become a three-character '%' escape; every other character is kept |
| `Paths.EncodeAppend` | src/UPnPService.cpp:98-105 | encoding works character by character, in input order |
| `Paths.EncodeLength` | src/UPnPService.cpp:99-104 | the encoding is between one and three times as long as the input |
| `Paths.EncodeIdentity` | src/UPnPService.cpp:104 | a path without any of the five characters is copied unchanged |
| `Paths.EncodeLeavesNoEscaped` | src/UPnPService.cpp:99-103 | no reserved character survives encoding |
| `Paths.DecodeEncode` | src/UPnPService.cpp:95-108 | decoding inverts encoding for every path without '%' |
| `Paths.EncodeNotInjective` | src/UPnPService.cpp:98-105 | '%' is not escaped, so "/" and "%2F" encode alike |
| `Paths.RoomyBufferNoOverrun` | src/UPnPService.cpp:98 | a buffer of more than three times the path length is never overrun |
| `Paths.PlainPathNoOverrun` | src/UPnPService.cpp:104 | a path with nothing to escape never overruns |
| `Paths.EncodePathOverrun` | src/UPnPService.cpp:98-107 | "a/" with a 2-byte buffer passes the bound check and writes 4 bytes |
| `Paths.EncodePath` | src/UPnPService.cpp:95-108 | where no escape crosses the end, the buffer holds the encoding, truncated, followed by NUL, and the bytes after the NUL are left as they were |
| `Paths.FitPiecesIsEncodedPrefix` | src/UPnPService.cpp:98-105 | the bounded encoding is the encoding of a prefix of the path, fits its room, and is the whole encoding when that fits |
| `Paths.EncodePathBounded` | src/UPnPService.cpp:95-108 | with a whole-escape bound check, any buffer ends up holding the bounded encoding followed by NUL, and the bytes after the NUL are left as they were |
| `Nodes.ChildIffListed` | src/UPnPDevice.cpp:117-118 | an object's parent is p iff p lists it among its services or devices |
| `Nodes.Top` | src/UPnPService.cpp:62-65 | climbing the parents ends at an object without a parent |
| `Nodes.RootOf` | src/UPnPService.cpp:59-67 | `rootDevice()` yields a RootDevice or NULL |
| `Nodes.InTreeOfRoot` | src/UPnPService.cpp:60-66 | an object lies in root r's tree iff `rootDevice()` of it is r |
| `Nodes.AncestorSharesRoot` | src/UPnPService.cpp:59-67 | `rootDevice()` of an object and of each of its ancestors is the same |
| `Nodes.Ancestry` | src/UPnPService.cpp:71-74 | a path is made of one to three targets, the last the object's own |
| `Nodes.AncestryCases` | src/UPnPService.cpp:71-79 | the targets are own; parent then own; grandparent, parent then own |
| `Nodes.PathIsJoinedAncestry` | src/UPnPService.cpp:69-80 | `getPath` is the whole parent chain's targets joined with '/', at most 96 characters, so its 100-byte buffer never cuts it; no deeper tree exists, because `addDevice` accepts no RootDevice |
| `Nodes.NamedPathIsAppend` | src/UPnPService.cpp:82-87 | `handlerPath(name)` is the object's path + "/" + name, untruncated when it fits |
| `Routes.KindTestsAreTypeChecks` | src/UPnPDevice.cpp:216-217 | the model's sensor and control tests agree with `as(Sensor)` and `as(Control)` |
| `Routes.PreCount` | src/Configuration.cpp:79-84 | an object's own first routes bind each of its leading endpoints once |
| `Routes.PostCount` | src/Control.cpp:68-73 | a control's later routes bind its content endpoint, and setState for the examples, once each |
| `Routes.ServiceCount` | src/UPnPService.cpp:121-125 | a service's setup binds each of its own endpoints once, and nothing else |
| `Routes.AllServicesCount` | src/UPnPDevice.cpp:95 | setting up distinct services binds each endpoint of each of them once, and nothing else |
| `Routes.DeviceCount` | src/UPnPDevice.cpp:90-96 | a device's setup binds each endpoint of the device and of its services once, and nothing else |
| `Routes.AllDevicesCount` | src/UPnPDevice.cpp:272 | setting up distinct devices binds each endpoint below them once, and nothing else |
| `Routes.RootRoutesCount` | src/UPnPDevice.cpp:266-272 | the root's setup binds each endpoint of its tree once, and nothing else |
| `Routes.SetupCount` | src/UPnPService.cpp:121-125 | any object's setup binds each endpoint of each object below it exactly once, and nothing else |
| `Routes.SetupRoutesAtPaths` | src/UPnPService.cpp:121-125 | every route any object's setup binds is under the current path of the action it dispatches to |
| `Routes.PathOfFrame` | src/UPnPService.cpp:69-79 | the path of an endpoint reads only the object's class and the targets along its parent chain |
| `Attach.DefaultTarget` | src/UPnPDevice.cpp:116 | an empty target becomes prefix + the slot number; a set target is kept |
| `Attach.FreshNodeKeepsRegistered` | src/UPnPDevice.h:193 | a new object without a context needs no route, so registration is kept |
| `Attach.AttachServiceWellFormed` | src/UPnPDevice.cpp:115-118 | attaching a detached service keeps the tree well formed |
| `Attach.AttachServiceRoots` | src/UPnPDevice.cpp:118-123 | after attaching, the service has its device's root, and every other object's root is unchanged |
| `Attach.AttachServiceKeepsRegistered` | src/UPnPDevice.cpp:113-128 | setting the service up exactly when its root holds a context keeps every endpoint registered exactly once |
| `Attach.AttachDeviceWellFormed` | src/UPnPDevice.cpp:282-286 | attaching a detached device keeps the tree well formed |
| `Attach.AttachDeviceRoots` | src/UPnPDevice.cpp:286 | the device and its services move from no root to this root; no other object changes root |
| `Attach.AttachDeviceKeepsRegistered` | src/UPnPDevice.cpp:280-294 | setting the device up exactly when the root holds a context keeps every endpoint registered exactly once |
| `Attach.SetUp` | src/UPnPDevice.cpp:263-264 | only the root stores the context and port |
| `Attach.SetUpAllPointwise` | src/UPnPDevice.cpp:272 | setting up distinct devices changes exactly their runtime fields |
| `Attach.RootSetupKeepsRegistered` | src/UPnPDevice.cpp:262-273 | after the root's setup, every endpoint of every live object is registered exactly once |
| `Attach.AddServiceStep` | src/UPnPDevice.cpp:113-128 | one `addService` keeps the tree well formed and changes no class and no other object's parent |
| `Attach.AttachServices` | src/UPnPDevice.h:76-80 | the variadic form adds no object and changes no class |
| `Attach.AttachServicesWellFormed` | src/UPnPDevice.h:76-80 | the variadic form keeps the tree well formed |
| `Attach.Admitted` | src/UPnPDevice.cpp:115 | at most the free slots are filled, and never more than there are arguments |
| `Attach.AdmittedFromArgs` | src/UPnPDevice.cpp:114-117 | every admitted entry is one of the non-NULL arguments |
| `Attach.ServiceStepAppends` | src/UPnPDevice.cpp:114-117 | a non-NULL service is appended when a slot is free, and otherwise nothing changes |
| `Attach.AttachServicesAppends` | src/UPnPDevice.h:76-80 | `addServices(a, b, ...)` appends the non-NULL arguments, left to right, until the eight slots are full |
| `Attach.AttachServicesTargets` | src/UPnPDevice.cpp:116 | the k-th admitted service gets the target "service" + its slot number when its target was empty, and keeps its target otherwise |
| `Attach.DefaultServiceNames` | src/UPnPDevice.cpp:116 | two unnamed services added to an empty device are named "service0" and "service1" |
| `Attach.AddDeviceStep` | src/UPnPDevice.cpp:280-294 | one `addDevice` keeps the tree well formed and changes no class and no other object's parent |
| `Attach.AttachDevices` | src/UPnPDevice.h:160-164 | the variadic form keeps the tree well formed and changes no class |
| `Attach.DeviceStepAppends` | src/UPnPDevice.cpp:281-285 | a non-NULL device is appended when a slot is free, and otherwise nothing changes |
| `Attach.AttachDevicesAppends` | src/UPnPDevice.h:160-164 | `addDevices(a, b, ...)` appends the non-NULL arguments, left to right, until the eight slots are full |
| `Attach.AttachDevicesTargets` | src/UPnPDevice.cpp:283 | the k-th admitted device gets the target "device" + its slot number when its target was empty, and keeps its target otherwise |
| `Attach.DefaultDeviceNames` | src/UPnPDevice.cpp:283 | two unnamed devices added to an empty root are named "device0" and "device1" |
| `Attach.AttachDevicesKeepDeviceRoutes` | src/UPnPDevice.h:160-164 | adding later devices leaves the routes of a device already under the root unchanged |
| `Attach.AttachServicesKeepServiceRoutes` | src/UPnPDevice.h:76-80 | adding later services leaves the routes of a service already on the device unchanged |
| `Attach.AddedServices` | src/UPnPDevice.h:76-80 | the services one `addServices` call admits are distinct objects of the tree, each one of its arguments |
| `Attach.RoutedIsLive` | src/UPnPDevice.cpp:123-124 | every route in a registered table dispatches to an object whose root holds a context |
| `Attach.ServedAtCurrentPath` | src/UPnPService.cpp:121-125 | every endpoint of a live object is bound, under the path the object reports now |
| `Attach.AtCurrentPathsKept` | src/UPnPService.cpp:49-51 | the routes stay under their objects' paths while no live object changes its class, target or parent |
| `Attach.AttachServiceAtPaths` | src/UPnPDevice.cpp:113-128 | after `addService` every route, old or new, is bound under its object's current path |
| `Attach.AttachDeviceAtPaths` | src/UPnPDevice.cpp:280-294 | after `addDevice` every route, old or new, is bound under its object's current path |
| `Requests.Assigned` | src/Configuration.cpp:47 | an assigned name or message fits its buffer |
| `Requests.AssignedUntouched` | src/Configuration.cpp:44-48 | without a matching non-empty DISPLAYNAME argument, the name is unchanged |
| `Requests.AssignedByLast` | examples/SensorDevice/SensorWithConfig.cpp:93-98 | the last matching argument wins, truncated to the field |
| `Requests.AssignedIgnoresOthers` | examples/SensorDevice/SensorWithConfig.cpp:97 | other arguments change nothing |
| `Requests.ConfigAfterSplits` | examples/SensorDevice/SensorWithConfig.cpp:91-100 | the MSG and DISPLAYNAME rules act independently, each by its own last argument |
| `Requests.MessageArgIsSetMessage` | examples/SensorDevice/SensorWithConfig.cpp:96 | an MSG argument sets the message through `setMessage`, even when empty |
| `Requests.Decide` | examples/ControlDevice/SimpleControl.cpp:52-53 | ON sets ON and OFF sets OFF, case-insensitively; any other value keeps the state |
| `Requests.StateAfterIsFirstState` | examples/ControlDevice/SimpleControl.cpp:43-63 | the state is decided by the first STATE argument alone, and is unchanged without one |
| `Requests.StateAfterFirst` | examples/controlDevice/CustomControl.cpp:40-48 | CustomControl: the first STATE argument decides |
| `Requests.StateAfterIgnoresLater` | examples/ControlDevice/SimpleControl.cpp:54 | arguments after the first STATE one are never consulted |
| `Requests.Content` | examples/ControlDevice/SimpleControl.cpp:65-75 | the slider link carries a STATE argument |
| `Requests.ToggleFlips` | examples/controlDevice/CustomControl.cpp:58-68 | following the slider link always flips the state, and the caption names the current state |
| `Requests.MessageAfter` | examples/SensorDevice/SimpleSensor.cpp:55-59 | NULL keeps the message; otherwise the new one is the argument cut to 99 characters |
| `Requests.Viewer` | src/Configuration.cpp:60-64 | the form is about the parent when there is one, else about the service |
| `Requests.DefaultForm` | src/Configuration.cpp:55-77 | the form submits to the service path, cancels to the parent's path and shows the parent's name; without a parent it uses the service's own |
| `Requests.FormSubmitsElsewhere` | src/Configuration.cpp:65-74 | the form's action is the service route, not the form route, which lies below it |
| `Requests.ReportedName` | src/Configuration.cpp:100-108 | GetConfiguration reports the parent's display name, or its own without a parent |
| `Pages.Panels` | src/UPnPDevice.cpp:213-214 | one entry per device |
| `Pages.PanelsAt` | src/UPnPDevice.cpp:214-232 | entry k is device k's entry |
| `Pages.PanelClasses` | src/UPnPDevice.cpp:216-231 | a sensor shows its content, a control its title and a frame on its content route, anything else a button to its page; each link leads to a route that object's setup binds |
| `Pages.RootPanelsShape` | src/UPnPDevice.cpp:205-240 | the root page has one entry per device in insertion order, then "This Device" linking to the root's page |
| `Pages.ConfigureLink` | src/SensorDevice.cpp:33-35 | the Configure button leads to the device path + "/setConfiguration/configForm", a route the SetConfiguration member binds |
| `Pages.MemberPath` | src/UPnPService.cpp:71-77 | a member service's path is its device's path + "/" + its target |
| `DeviceTree.Fresh` | src/UPnPService.h:163-190 | each class's default constructor leaves its own target, display name and handlers, and no parent or children |
| `DeviceTree.ConfigService` | src/SensorDevice.cpp:12-15 | the configuration members of a Sensor or Control keep their own defaults and get that device as parent |
| `DeviceTree.Tree.NewService` | src/Configuration.cpp:25-29 | a new service is a fresh, detached object; routes are unchanged |
| `DeviceTree.Tree.NewRoot` | src/UPnPDevice.cpp:173-177 | a new root has a valid generated UUID, no devices and no context |
| `DeviceTree.Tree.NewDevice` | src/Control.cpp:22-25 | a new Sensor or Control owns GetConfiguration then SetConfiguration as services 0 and 1 |
| `DeviceTree.Tree.AddConfigServices` | src/SensorDevice.cpp:13 | the two members are attached in order, keep their targets, and nothing is registered |
| `DeviceTree.Tree.RebindSensorHandlers` | examples/SensorDevice/SensorWithConfig.cpp:71-76 | SetConfiguration's handlers now run the sensor's own methods |
| `DeviceTree.Tree.RootDevice` | src/UPnPService.cpp:59-67 | the parent walk returns the top object if it is a RootDevice, else NULL |
| `DeviceTree.Tree.Service` | src/UPnPDevice.h:67 | `service(i)` yields the i-th service iff 0 <= i < numServices |
| `DeviceTree.Tree.Device` | src/UPnPDevice.h:143 | `device(i)` yields the i-th device iff i < numDevices |
| `DeviceTree.Tree.GetDeviceByUuid` | src/UPnPDevice.cpp:313-320 | the root itself on an exact match, else the first device in insertion order that matches, else NULL |
| `DeviceTree.Tree.GetDeviceByType` | src/UPnPDevice.cpp:300-307 | NULL iff no device passes the type check; otherwise the first device in insertion order that passes it, never the root itself; for every tag but SimpleSensor the type check as written gives the same answer |
| `DeviceTree.Tree.GetDeviceOf` | src/UPnPDevice.h:151 | NULL for a NULL root; otherwise NULL iff no device of that root passes the type check, else the first one that does |
| `DeviceTree.Tree.SetTarget` | src/UPnPService.cpp:49-57 | only this object's target changes, to the stored form; as documented, it is set before the object is set up, so every route stays bound under its object's current path |
| `DeviceTree.Tree.SetDisplayName` | src/UPnPService.cpp:47 | only the display name changes, cut to 31 bytes |
| `DeviceTree.Tree.SetUuid` | src/UPnPDevice.cpp:101-107 | a valid UUID is stored and true returned; an invalid one returns false and changes nothing |
| `DeviceTree.Tree.SetHttpHandler` | src/UPnPService.h:166 | only the service's handler changes |
| `DeviceTree.Tree.SetFormHandler` | src/Configuration.h:27 | only the form handler changes |
| `DeviceTree.Tree.SetMessage` | examples/SensorDevice/SimpleSensor.cpp:55-59 | only the message changes, as `MessageAfter` says |
| `DeviceTree.Tree.SetControlState` | examples/ControlDevice/SimpleControl.h:56 | only the control state changes |
| `DeviceTree.Tree.SetConfigurationHandler` | src/Configuration.cpp:40-50 | the parent's name follows the DISPLAYNAME rule, and the parent's page is shown; without a parent nothing changes |
| `DeviceTree.Tree.SensorConfigHandler` | examples/SensorDevice/SensorWithConfig.cpp:91-100 | name and message follow the DISPLAYNAME and MSG rules, then the sensor's page is shown |
| `DeviceTree.Tree.SetStateHandler` | examples/ControlDevice/SimpleControl.cpp:43-63 | the state follows the first-STATE rule, then the frame content for the new state is shown |
| `DeviceTree.Tree.Invoke` | src/UPnPService.h:167 | running a handler does exactly what that handler token stands for |
| `DeviceTree.Tree.FormatContent` | src/UPnPDevice.cpp:205-240 | the loop produces the root page's entries, as `RootPanels` defines them |
| `DeviceTree.Tree.Serve` | src/UPnPDevice.cpp:266-272 | a request on a bound route runs the action bound there and leaves the routes alone |
| `DeviceTree.Tree.SetupService` | src/UPnPService.cpp:121-125 | a service binds its path, and SetConfiguration also its form path |
| `DeviceTree.Tree.SetupServices` | src/UPnPDevice.cpp:95 | services are set up in insertion order |
| `DeviceTree.Tree.SetupDevice` | src/UPnPDevice.cpp:90-96 | a device binds its page, then its services in order, then its own extra routes |
| `DeviceTree.Tree.SetupControl` | src/Control.cpp:68-73 | a control adds its content route, and the example controls their setState route after it |
| `DeviceTree.Tree.SetupDevices` | src/UPnPDevice.cpp:272 | devices are set up in insertion order |
| `DeviceTree.Tree.SetupRoot` | src/UPnPDevice.cpp:262-273 | the context is stored, then "/styles.css", "/", "/"+target, the services and the devices are bound, and the registration invariant holds |
| `DeviceTree.Tree.SetupRootTree` | src/UPnPDevice.cpp:263-272 | the root's setup binds "/styles.css", "/", "/"+target, its services and its devices, and sets up exactly the objects of its tree |
| `DeviceTree.Tree.AddService` | src/UPnPDevice.cpp:113-128 | NULL or a full device changes nothing; otherwise the service is attached and set up iff its root holds a context |
| `DeviceTree.Tree.AddDevice` | src/UPnPDevice.cpp:280-294 | NULL or a full root changes nothing; otherwise the device is attached, given a UUID if it has none, and set up iff the root holds a context |
| `DeviceTree.Tree.AddServices` | src/UPnPDevice.h:76-80 | one `addService` per argument, left to right; on a device that is not live nothing is bound; on a live device the admitted services' routes are bound in argument order, as the device's own setup binds them |
| `DeviceTree.Tree.AddDevices` | src/UPnPDevice.h:160-164 | one `addDevice` per argument, left to right; without a context nothing is bound; under a set-up root the admitted devices' routes are bound and their runtime set up, in argument order |
| `DeviceTree.ParentAsDeviceIsParent` | src/UPnPService.h:128 | `parentAsDevice()` is the parent, which is always a device |
| `DeviceTree.DeviceSetupRoutes` | examples/ControlDevice/SimpleControl.cpp:77-82 | a device's routes are bound in the order: page, services, then content and setState |
| `DeviceTree.RootSetupRoutes` | src/UPnPDevice.cpp:265-272 | the root's routes are bound in the order: style sheet, "/", own page, services, devices |

## Left out

- HTML generation is not modelled. This covers the PROGMEM templates, `formatHeader`, `formatBuffer_P`, `formatTail`, `display`, `displayRoot`, `displayControl`, `styles` and the XML of the configuration reports. Responses are datatypes that carry the values shown (`Response`, `Panel`, `ConfigForm`).
- The web server (`WebContext`) is a parameter (`Server`) plus the ghost route log; `on`, `send` and `getLocalPort` are not modelled. Request arguments are a sequence of name/value pairs.
- `location`, `rootLocation`, `printInfo`, `getChipID` and `doDevice` are not modelled: they need WiFi, Serial or the chip, or do nothing.
- `srand`/`rand` are not modelled; the 16 random bytes of a UUID are a parameter.
- The UPnP type strings and `isType` are not modelled: the strings are an external concern and only the class tag decides anything here.
- The two-argument and target-taking constructors are not modelled separately; `Tree.SetTarget` covers the target they set.
- Handlers are tokens; a lambda that captured an object of the wrong class cannot be expressed.
- Object lifetime is not modelled: objects live for the whole program and are never destroyed.
- Concurrency is absent from the source and from the model.
- Text: a Dafny `char` stands for one byte of a C string, so multi-byte UTF-8 input is modelled byte by byte: the bounds of `strlcpy` and `snprintf` (`Text.Fit`, `Text.FitPrefixAppend`, `Paths.TargetOf`, `Tree.SetDisplayName`, `Requests.MessageAfter`) count bytes, and "characters" in the rows above means bytes. A string whose chars are not all below 256 has no counterpart in the source, and a cut through the middle of a UTF-8 sequence is a cut between two such chars.
- DeviceTree.Tree.NewDevice: SimpleControl's `_state` is uninitialised (examples/ControlDevice/SimpleControl.h:61), so the initial state is a parameter `st0`; CustomControl starts OFF. SimpleSensor's `_msg` (examples/SensorDevice/SimpleSensor.h:69) is uninitialised too and is modelled as ""; no route can read it before `setup` sets the message (examples/SensorDevice/SimpleSensor.cpp:64-65).
- DeviceTree.Tree.AddService: requires the service to be detached (no parent yet); adding the same object twice or to two devices is not modelled.
- DeviceTree.Tree.AddDevice: requires the device to be detached and not a root device, which keeps the tree at most three levels deep.
- DeviceTree.Tree.SetupRoot: requires the root to hold no context yet; calling `setup` twice would bind every route a second time.
- DeviceTree.Tree.Serve: requires the bound handler token to fit its object (`HandlerOk`).
- DeviceTree.Tree.Invoke: requires `HandlerOk`, as `Serve` does.
- DeviceTree.Tree.Device: requires `i >= 0`; `device(i)` checks only `i < numDevices`, so a negative index reads outside the array.
- DeviceTree.Tree.SetTarget: requires the object not to be live, as the comments at src/UPnPService.cpp:49-51 and src/UPnPDevice.h:49-50 demand; a target changed after setup, which leaves the server serving the old path, is not modelled.
- DeviceTree.Tree.GetDeviceByType, DeviceTree.Tree.GetDeviceOf: the scan uses the corrected type check (`IsClassType`, see Findings). As written, `as(SimpleSensor)` misses a SensorWithConfig, so for that one tag the result can differ; for every other tag both contracts also state the as-written answer.
- DeviceTree.Tree.GetDeviceByUuid: `isDevice` is not a separate member; it is UUID string equality inline.
- Paths.EncodePath: requires `NoOverrun` (no escape crosses the end of the buffer) and a buffer of at least one byte; the overrun itself is shown by `Paths.EncodePathOverrun`.
- The SensorWithConfig form template takes four `%s` but is given three values (examples/SensorDevice/SensorWithConfig.cpp:44-52 and 119), so its cancel link reads past the arguments. The model's `SensorConfigForm` response carries the three values given.
- The `ClassType` counter of the source is a global static; here it is the field of one `TypeRegistry` object, and the order in which the library's static initialisers run is not modelled.

## Findings

| source | as written | input that shows it | evidently intended | confidence | as-written member | corrected member |
|---|---|---|---|---|---|---|
| examples/SensorDevice/SensorWithConfig.h:69 | SensorWithConfig derives from SimpleSensor but declares `DERIVED_TYPE_CHECK(Sensor)`, so its type check skips SimpleSensor | `as(SimpleSensor::classType())` on a SensorWithConfig yields NULL | every ancestor's tag matches, as for all other classes | high, not executed | `ClassTypes.AsWrittenDiffersOnlyAtSensorWithConfig` | `ClassTypes.IsClassTypeIsLineage` |
| src/UPnPService.cpp:98-107 | `encodePath` checks `j < bufferSize` only before each character, then writes a whole three-byte escape | path "a/" with bufferSize 2: 'a' goes to index 0, then "%2F" is written to indices 1 to 3 | stop before an escape that does not fit, and keep room for the NUL | high, not executed | `Paths.EncodePathOverrun` | `Paths.EncodePathBounded` |
