# Vulkan tutorial (Rust): instance negotiation and event handling

This project models the two parts of `src/main.rs` that make decisions:

- **Instance extension and flag negotiation** in `create_instance`. It starts
  from the instance extensions the windowing library requires. On macOS, when
  the driver reports version 1.3.216 or later, it pushes
  `VK_KHR_get_physical_device_properties2` and then
  `VK_KHR_portability_enumeration`, and sets the `ENUMERATE_PORTABILITY_KHR`
  instance-create flag. Otherwise it keeps the list as it is and uses empty
  flags. The result is then handed to the driver's instance creation.
- **The event handler** passed to the window event loop. It keeps a
  `destroying` flag, sets the loop's control flow to `Poll` on every event,
  renders on `MainEventsCleared` while not destroying, and on
  `CloseRequested` sets `destroying`, sets control flow to `Exit` and destroys
  the app.

Modules:

- `Versions` (`versions.dfy`): the `Version` triple and its order. The order
  comes from the vulkanalia crate, which is not part of this model. It is
  assumed to be lexicographic on (major, minor, patch), the order a derived
  comparison on the struct's fields gives.
- `Vk` (`vk.dfy`): abstract stand-ins for the foreign API. These are extension
  names, create flags (a set of flag bits), driver error codes, `Result`,
  `Option` and an opaque instance handle.
- `InstanceCreation` (`instance.dfy`): `Negotiate` builds the extension list
  with two appends to a local sequence, as the source pushes onto its vector.
  `CreateInstance` runs the negotiation and then takes the instance creation
  call. The driver's answers are inputs: the version query result, and the
  result instance creation would return.
- `EventLoop` (`event_loop.dfy`): `Step` is the per-event transition as a
  function, and `Run` drives it over a sequence of events for the lemmas. The
  class `EventHandler` holds the two pieces of mutable state. Its
  `HandleEvent` method updates them in place and returns the action taken.

The version query is modelled as the answer the driver would give, plus an
out-flag `queried` of `Negotiate`. The flag is true exactly on macOS, because
the source's `&&` short-circuits. The source's `?` on the query makes a failed
query end negotiation with that same error. `CreateInstance` then returns no
create info, which means instance creation was never attempted.

## Model

| member | source | states |
|---|---|---|
| `Versions.Compare` | src/main.rs:113 | the three-way comparison on versions is -1, 0 or 1, and 0 exactly when the versions are equal |
| `Versions.LessEqIsCompare` | src/main.rs:113 | the assumed lexicographic `<=` agrees with the three-way comparison |
| `Versions.LessEqReflexive` | src/main.rs:113 | every version is `<=` itself |
| `Versions.LessEqAntisymmetric` | src/main.rs:113 | two versions that are `<=` each other are equal |
| `Versions.LessEqTransitive` | src/main.rs:113 | `<=` on versions is transitive |
| `Versions.LessEqTotal` | src/main.rs:113 | any two versions are comparable |
| `InstanceCreation.Negotiate` | src/main.rs:105-123 | the version is queried exactly on macOS; the only failure is a failed query on macOS, and it returns the query's error; the result starts with the windowing extensions, unchanged and in order; on macOS with version at least 1.3.216 exactly `KHR_get_physical_device_properties2` then `KHR_portability_enumeration` are appended and the flags are `{ENUMERATE_PORTABILITY_KHR}`; otherwise the list equals the windowing list and the flags are empty; the flag is set exactly when extensions were appended |
| `InstanceCreation.CreateInstance` | src/main.rs:105-130 | instance creation is attempted exactly unless the macOS version query failed, in which case the query's error is returned; when attempted, the driver's result is returned as is and the create info carries the negotiated extensions (windowing list plus the two portability names, or the windowing list alone) and flags |
| `InstanceCreation.PortabilityMonotone` | src/main.rs:110-113 | if portability is required for a version, it is required for every later version |
| `InstanceCreation.PortabilityOnlyOnMacOS` | src/main.rs:113 | off macOS portability is never required, whatever the version |
| `EventLoop.StepControlFlow` | src/main.rs:40-55 | after an event the control flow is `Exit` on `CloseRequested` and `Poll` on every other event |
| `EventLoop.StepRendersIff` | src/main.rs:44-47 | an event renders exactly when it is `MainEventsCleared` and the handler is not destroying |
| `EventLoop.StepDestroys` | src/main.rs:49-55 | the app is destroyed exactly on `CloseRequested`; `destroying` becomes true then and is otherwise kept |
| `EventLoop.Run` | src/main.rs:38-57 | the handler takes one action per event |
| `EventLoop.RunDestroying` | src/main.rs:37-55 | after any sequence of events `destroying` is set exactly when it was set before or a `CloseRequested` arrived: it is never reset |
| `EventLoop.RunDestroysOnEveryClose` | src/main.rs:49-54 | the i-th action is a destroy exactly when the i-th event is `CloseRequested`, so destroy is issued on every close request, not once |
| `EventLoop.RunRendersIff` | src/main.rs:44-54 | the i-th action is a render exactly when the i-th event is `MainEventsCleared`, the handler did not start out destroying, and no `CloseRequested` came earlier |
| `EventLoop.EventHandler.constructor` | src/main.rs:37 | the handler starts with `destroying` false; the initial control flow is the event loop's |
| `EventLoop.EventHandler.HandleEvent` | src/main.rs:39-56 | the new state and the action match `Step` on the old state; control flow ends `Exit` on `CloseRequested` and `Poll` otherwise; render exactly on `MainEventsCleared` while not destroying; destroy exactly on `CloseRequested`, which sets `destroying` |

## Left out

- Window creation and the winit event-loop runtime (src/main.rs:28-32, 38). Only the per-event transition is modelled. `Run` is a device for stating properties over event sequences; the loop's delivery order and its stopping after `Exit` are not modelled.
- Loader and `Entry` construction (src/main.rs:73-74): dynamic library loading.
- The driver calls `entry.version()`, `entry.create_instance` and `destroy_instance` (src/main.rs:113, 130, 88). They are foreign calls. The first two become input results; destroy is the recorded `Destroy` action.
- The conversion of extension names to raw NUL-terminated pointers (src/main.rs:105-108, 116-117). Extensions are abstract names, so `iter().map(as_ptr).collect()` is the windowing list itself.
- The decoding of the driver's packed 32-bit version into a `Version`. Version fields are unbounded naturals, which does not affect the comparison.
- The fixed `ApplicationInfo` constants (src/main.rs:98-103), logging (src/main.rs:24, 115), the empty `render` (src/main.rs:80-83) and the empty `AppData` (src/main.rs:94). `render` always returns `Ok`, so its `unwrap` never panics and a render is modelled as a recorded action.
- Control-flow values: only `Poll` and `Exit` are written by the handler. `Wait` stands in for winit's other modes, which matter only as an initial value.
- The ordering of `Version` is assumed lexicographic: it is derived in the vulkanalia crate, which is not part of this model.
