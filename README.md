# WebXR placement loop — a Dafny model

This project models the augmented-reality placement loop of a small WebXR page
script (`src/main.js`). The script does three things. On the first tracked frame
of a session it acquires a hit-test source. On every tracked frame after that it
moves a reticle to the nearest surface hit. When the user taps, it places one
copy of a loaded 3-D asset at the reticle and makes it grow briefly.

All of the script's state lives in module-level variables: `hitTestSource`,
`hitTestSourceRequested`, `planeFound`, `lastObject`, `obj3d`, and the reticle
mesh's `visible` and `matrix`. Callbacks update them in place. The model has
three layers:

- `ArState` (ar_state.dfy): the state as a value. It also holds the parts of the
  environment those variables are read against: the XR session, pending
  promises tagged by the session that issued them, a log of every acquisition
  request, the placed meshes in the scene, one growth timer per mesh, and a
  render counter. `Valid` is the invariant every reachable state keeps.
- `ArEvents` (ar_events.dfy): one function per callback, each with a contract
  saying what the callback does. `Step` and `Run` run a trace of host events,
  and `Enabled` says which events the host can deliver: a frame object only
  inside a session, a resolve only for an issued request, and a tick or timeout
  only for a running interval.
- `ArProperties` (ar_properties.dfy): lemmas over traces. They cover
  request-once-per-session, re-acquisition after a session ends, the one-way
  `planeFound` flag, the reticle freezing while there is no source, at most one
  placed object, and how the growth timers behave.
- `ArApp` (ar_app.dfy): the script as a class. Its fields are the script's
  variables, with one method per callback that updates them in place. Each
  method is proved to produce exactly the state the matching `ArEvents`
  function describes.

Asynchronous completions are explicit events with no promises:
`HitTestSourceResolved`, `AssetLoaded`, `SessionStart`, `SessionEnd`,
`AnimationFrame(hasFrame, results)`, `Select`, `GrowthTick` and `GrowthTimeout`.
A pose is an opaque matrix of 16 numbers. A frame's hit results are a `seq<Pose>`.

Four points where the code's behaviour is easy to misread, all modelled as written:

- The session `end` listener is attached when the acquisition request is
  issued (src/main.js:155), not when the source resolves. A session that ends
  before its first frame therefore resets nothing.
- Replacing the placed object does not cancel the old object's growth interval.
  The interval keeps scaling the detached mesh until its own 500 ms timeout
  clears it (src/main.js:66-85). `EvictedMeshKeepsGrowing` states this.
- Nothing checks that a resolving hit-test source still belongs to a running
  session (src/main.js:150-152). If the source resolves after its session has
  ended, it stays stored. The next session's first frame issues a new request
  and queries the old source. If that frame returns results for it, the
  reticle moves. `LateResolveDrivesNextSession` states this. Two questions are
  outside the script and not claimed here. One is whether a browser ever
  resolves the request after the end. The other is whether a frame answers a
  source from an ended session rather than throwing.
- The page lets a new session start after one has ended, and the model allows
  that too. It is the reason the end listener has to reset the gate.

## Model

| member | source | states |
|---|---|---|
| ArState.Init | src/main.js:11-15 | The initial state satisfies the invariant: there is no session, no request, no source, the reticle is hidden, `planeFound` is false, the asset is not loaded, `lastObject` is null, and nothing is placed or growing. |
| ArState.AtMostOnePlaced | src/main.js:66-87 | In any valid state the scene holds at most one placed mesh, and that mesh is `lastObject`. |
| ArEvents.OnSessionStart | src/main.js:27-30 | A session start opens a new session and clears `planeFound`. The gate, the source, the reticle, the scene, the growth timers and the loaded asset are left as they were. |
| ArEvents.OnSessionEnd | src/main.js:155-158 | If this session issued its request, ending it clears the gate and nulls the source. Otherwise no listener exists and the source is left alone. The gate is false afterwards in both cases. The reticle, the scene, the timers and the loaded asset are unchanged. |
| ArEvents.OnHitTestSourceResolved | src/main.js:147-153 | A resolving request stores its source and leaves the pending set. No check is made that its session is still running. Nothing else changes. |
| ArEvents.OnAssetLoaded | src/main.js:118-121 | The loader callback marks `obj3d` as loaded and changes no tracking, scene or growth-timer state. |
| ArEvents.AcquireOnce | src/main.js:146-161 | With the gate clear, the call issues exactly one request for the current session, attaches the end listener and sets the gate. With the gate set, the state is unchanged. |
| ArEvents.FollowFirstHit | src/main.js:163-191 | With no source, nothing changes. With a source and no hits, the reticle is hidden and its matrix kept. With hits, the reticle is shown at the first hit's pose and `planeFound` is raised. |
| ArEvents.Track | src/main.js:142-191 | Within one frame the gate runs before the reticle update. The per-case reticle facts hold against the state from before the frame. A frame never clears `planeFound`. |
| ArEvents.OnAnimationFrame | src/main.js:141-195 | Every call renders once. A call without a frame changes nothing else. A call with a frame is exactly the tracking step. |
| ArEvents.Evict | src/main.js:66-69 | The previous `lastObject` is detached from the scene and the reference cleared, so the scene holds no placed mesh. |
| ArEvents.PlaceAtReticle | src/main.js:71-87 | On an empty scene, one fresh mesh is attached at the reticle pose with zero growth ticks. Its interval starts, it becomes `lastObject`, the id counter advances by one, and no earlier mesh's pose or growth changes. |
| ArEvents.OnSelect | src/main.js:64-89 | Without a visible reticle and a loaded asset, select changes nothing. Otherwise the scene becomes exactly the one new mesh, placed at the reticle pose, with the previous object removed. Every earlier mesh keeps its recorded pose and growth, and nothing outside the scene and timers changes. |
| ArEvents.OnGrowthTick | src/main.js:80-82 | A tick adds one growth step to its own mesh, whether or not that mesh is still in the scene. Every other mesh is unchanged, and so is everything outside the timers. |
| ArEvents.OnGrowthTimeout | src/main.js:83-85 | The timeout stops its mesh's interval and leaves every mesh's growth unchanged. Nothing outside the timers changes. |
| ArProperties.FrameStep | src/main.js:146-161 | A single frame inside a session keeps the session open. It issues a request only if the gate was clear and the call carries a frame. |
| ArProperties.FramesIssueAtMostOneRequest | src/main.js:146-161 | Any number of frames in one session adds at most one entry to the request log. If the gate was already set they add none. The gate ends up set exactly when it was set before or some call carried a frame. |
| ArProperties.EndThenNextSessionReacquires | src/main.js:146-161 | After end and a new start, the next frame issues a fresh request tagged with the new session. The reticle stays where it was until that request resolves. |
| ArProperties.PlaneFoundOnlyResetBySessionStart | src/main.js:167-172 | Once `planeFound` is set, no trace without a session start clears it. |
| ArProperties.PlaneFoundRaisedOnlyByAHit | src/main.js:163-172 | The only event that raises `planeFound` is a frame that has a source and at least one hit. |
| ArProperties.NoSourceFreezesReticle | src/main.js:147-163 | In a trace with no resolve event (pending or rejected request), the source stays null and the reticle's visibility and matrix never change. |
| ArProperties.GrowthStep | src/main.js:80-85 | No single event shrinks a mesh's growth. None restarts or advances a mesh whose interval has been cleared. |
| ArProperties.GrowthMonotone | src/main.js:80-82 | Over any trace, a placed mesh's growth never decreases. |
| ArProperties.GrowthFrozenAfterTimeout | src/main.js:83-85 | Once a mesh's timeout has cleared its interval, no later trace changes its growth or restarts it. |
| ArProperties.EvictedMeshKeepsGrowing | src/main.js:66-85 | A new placement detaches the previous mesh but leaves its interval running. The next tick still grows the detached mesh. |
| ArProperties.LateResolveDrivesNextSession | src/main.js:147-158 | A request that resolves after its session ended leaves that source stored. The next session's first frame issues its own request, and if the frame returns hits for the stale source, the reticle moves to the first one. |
| ArProperties.ReachableHoldsAtMostOneObject | src/main.js:64-89 | In every state reachable from the start, the scene holds at most one placed object, and it is `lastObject`. |
| ArProperties.ReachableRequestsOncePerSession | src/main.js:146-160 | In every reachable state no session appears twice in the request log, and the gate is set only during a session. |
| ArApp.App.constructor | src/main.js:95-101 | The object starts in the initial state, with the reticle hidden at the identity matrix. |
| ArApp.App.SessionStart | src/main.js:27-30 | It updates the fields in place to exactly `OnSessionStart` of the old state and keeps the invariant. |
| ArApp.App.SessionEnd | src/main.js:155-158 | It updates the fields in place to exactly `OnSessionEnd` of the old state and keeps the invariant. |
| ArApp.App.HitTestSourceResolved | src/main.js:150-152 | It updates the fields in place to exactly `OnHitTestSourceResolved` of the old state. |
| ArApp.App.AssetLoaded | src/main.js:118-121 | It updates the fields in place to exactly `OnAssetLoaded` of the old state. |
| ArApp.App.AcquireHitTestSource | src/main.js:146-161 | It updates the fields in place to exactly `AcquireOnce` of the old state. |
| ArApp.App.UpdateReticle | src/main.js:163-191 | It updates the fields in place to exactly `FollowFirstHit` of the old state. |
| ArApp.App.Render | src/main.js:141-195 | It updates the fields in place to exactly `OnAnimationFrame` of the old state. |
| ArApp.App.EvictLastObject | src/main.js:66-69 | It updates the fields in place to exactly `Evict` of the old state. |
| ArApp.App.PlaceClone | src/main.js:71-87 | It updates the fields in place to exactly `PlaceAtReticle` of the old state. |
| ArApp.App.Select | src/main.js:64-89 | It updates the fields in place to exactly `OnSelect` of the old state. |
| ArApp.App.GrowthTick | src/main.js:80-82 | It updates the fields in place to exactly `OnGrowthTick` of the old state. |
| ArApp.App.GrowthTimeout | src/main.js:83-85 | It updates the fields in place to exactly `OnGrowthTimeout` of the old state. |

## Left out

- Rendering, the camera, the light, renderer set-up, the controller, the reticle's geometry and `ARButton` (src/main.js:36-62, 91-98, 137-139). The reticle's initial `visible = false` (src/main.js:99-101) is modelled by the constructor. These are library calls with no decisions in them. `renderer.render` is modelled only as a counter. The light, the controller and the reticle are always in the scene and are not tracked there.
- The capability check (src/main.js:17-25) and the DOM toggles of the guidance overlays (src/main.js:20, 29, 170-171). These are browser I/O. The overlay switch happens exactly when `planeFound` is raised, which `PlaneFoundRaisedOnlyByAHit` describes.
- Fetching and decoding the asset (src/main.js:103-125). This is network I/O and the glTF loader. Only the loader callback is modelled, as `AssetLoaded`. A failed fetch is a trace in which that event never arrives.
- Promise rejection for the reference-space and hit-test-source requests. The code has no handler, so a rejection is a trace without `HitTestSourceResolved`. `NoSourceFreezesReticle` covers that case.
- The matrix maths (src/main.js:74-77, 176-184). This covers `decompose`, the unit-scale override, `rotateX(Math.PI / 2)`, and the unused hit-normal computation, which are all floating point. The placed mesh's pose is recorded as the reticle matrix it was derived from.
- `hit.getPose(...)` returning null. The model assumes every hit has a pose, so the script's crash in that case is not modelled.
- Which source a frame is queried with (src/main.js:164). A frame's hit results are an event parameter, independent of the stored source. A host that throws when asked about a source from an ended session, leaving `render` to fail, is not modelled.
- ArEvents.OnSelect: the model assumes the loaded asset has a first child. If it has none, `flower.clone()` throws (src/main.js:71-72) after lines 66-69 have already removed and cleared `lastObject`, so the tap leaves the scene empty. No select in the model evicts without placing.
- ArEvents.OnGrowthTick: the scale is kept as a tick count n, standing for 1.01^n, and not as a float. The number of ticks that fit in 500 ms is not bounded: ticks and the timeout may interleave in any order, since the timers guarantee no exact count.
- `setMessage` (src/main.js:197-202) is never called. `onWindowResize` (src/main.js:127-135) is registered for the window's resize event, but it only updates the camera projection and the canvas size. Neither touches the state modelled here.
- Concurrency: every callback runs to completion on one thread, so each event is one atomic step.
