/** The state of the AR placement loop: the module-level variables of the page
    script together with the parts of its environment (the XR session, pending
    promises, timers, the scene graph) that those variables are read against. */
module ArState {

  datatype Option<+T> = None | Some(value: T)

  /** The 16 numbers of a 4x4 transform, such as a hit pose's `transform.matrix`. */
  type Matrix = m: seq<int> | |m| == 16
    witness [1, 0, 0, 0, 0, 1, 0, 0, 0, 0, 1, 0, 0, 0, 0, 1]

  /** A rigid transform. The model never looks inside one: it only copies it. */
  datatype Pose = Pose(matrix: Matrix)

  /** The value of a freshly built `Matrix4`. */
  const Identity: Pose := Pose([1, 0, 0, 0, 0, 1, 0, 0, 0, 0, 1, 0, 0, 0, 0, 1])

  /** Placed meshes are numbered in the order they are cloned. */
  type MeshId = nat

  /** XR sessions are numbered 1, 2, ... in the order they start; 0 is "none yet". */
  type SessionId = nat

  /** The host's XR session, as far as the script can observe it. */
  datatype Xr = Xr(
    session: SessionId,             // the current session, or the last one that ended
    inSession: bool,
    endListener: bool,              // an `end` listener is attached to the current session
    pending: multiset<SessionId>,   // hit-test-source requests not yet resolved, by issuing session
    requestLog: seq<SessionId>      // every two-step acquisition request issued, by issuing session
  )

  /** The reticle mesh: its `visible` flag and its (manually updated) `matrix`. */
  datatype Reticle = Reticle(visible: bool, matrix: Pose)

  /** The placed meshes of the scene graph (the light, the controller and the
      reticle are always there and are not tracked). */
  datatype Scene = Scene(
    placed: set<MeshId>,            // placed meshes currently attached to the scene
    nextMesh: MeshId,               // the id the next clone receives
    placedAt: map<MeshId, Pose>     // the reticle pose each mesh was cloned at
  )

  /** The growth animation of each placed mesh: one `setInterval` per mesh,
      cleared by its own `setTimeout`. */
  datatype Growth = Growth(
    ticks: map<MeshId, nat>,        // ticks applied so far: the mesh's scale is 1.01^ticks
    running: set<MeshId>            // meshes whose interval has not been cleared
  )

  datatype State = State(
    xr: Xr,
    hitTestSource: Option<SessionId>,  // the resolved source, named by the session that asked for it
    hitTestSourceRequested: bool,
    planeFound: bool,
    reticle: Reticle,
    obj3dLoaded: bool,
    lastObject: Option<MeshId>,
    scene: Scene,
    growth: Growth,
    rendered: nat                      // number of `renderer.render` calls
  )

  /** The requests are issued by strictly increasing sessions. */
  ghost predicate RequestsOrdered(log: seq<SessionId>) {
    forall i, j :: 0 <= i < j < |log| ==> log[i] < log[j]
  }

  /** The acquisition gate is set only inside a session, exactly when this
      session has issued its request, and always together with its `end`
      listener; the requests so far came from distinct, earlier-or-current sessions. */
  ghost predicate GateValid(xr: Xr, requested: bool) {
    xr.endListener == requested &&
    RequestsOrdered(xr.requestLog) &&
    (forall i :: 0 <= i < |xr.requestLog| ==> xr.requestLog[i] <= xr.session) &&
    (requested <==>
       xr.inSession && |xr.requestLog| > 0 && xr.requestLog[|xr.requestLog| - 1] == xr.session)
  }

  /** What the placed meshes in the scene are, given `lastObject`. */
  function SceneOf(lastObject: Option<MeshId>): set<MeshId> {
    if lastObject.Some? then {lastObject.value} else {}
  }

  /** The scene holds the last placed mesh and nothing else; every clone so
      far has a pose and a growth count, and only clones have running timers. */
  ghost predicate PlacementValid(lastObject: Option<MeshId>, scene: Scene, growth: Growth) {
    scene.placed == SceneOf(lastObject) &&
    (lastObject.Some? ==> lastObject.value < scene.nextMesh) &&
    (forall m: MeshId :: m in scene.placedAt <==> m < scene.nextMesh) &&
    growth.ticks.Keys == scene.placedAt.Keys &&
    growth.running <= growth.ticks.Keys
  }

  /** The invariant every reachable state keeps. */
  ghost predicate Valid(st: State) {
    GateValid(st.xr, st.hitTestSourceRequested) &&
    PlacementValid(st.lastObject, st.scene, st.growth)
  }

  /** The state when the animation loop is first started: no session, the
      reticle hidden at the identity transform, nothing placed, no asset. */
  function Init(): (st: State)
    ensures Valid(st)
    ensures !st.xr.inSession && st.xr.requestLog == [] && !st.hitTestSourceRequested
    ensures st.hitTestSource.None? && !st.reticle.visible && st.scene.placed == {}
    ensures !st.planeFound && !st.obj3dLoaded && st.lastObject.None? && st.growth.running == {}
  {
    State(Xr(0, false, false, multiset{}, []),
          None, false, false, Reticle(false, Identity), false, None,
          Scene({}, 0, map[]), Growth(map[], {}), 0)
  }

  /** At most one placed object is in the scene. */
  lemma AtMostOnePlaced(st: State)
    requires Valid(st)
    ensures |st.scene.placed| <= 1
    ensures st.lastObject.Some? ==> st.scene.placed == {st.lastObject.value}
  {
  }
}
