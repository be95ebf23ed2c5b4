/** One function per callback of the page script: what each event does to the
    state, and what each promises. */
module ArEvents {
  import opened ArState

  /** `sessionStart`, the renderer's "sessionstart" listener: a new session
      begins and the plane-found flag is cleared. Nothing else is reset. */
  function OnSessionStart(st: State): (r: State)
    requires Valid(st) && !st.xr.inSession
    ensures Valid(r) && r.xr.inSession && r.xr.session > st.xr.session
    ensures !r.planeFound && !r.hitTestSourceRequested
    ensures r.xr.requestLog == st.xr.requestLog && r.xr.pending == st.xr.pending
    ensures r.hitTestSource == st.hitTestSource && r.reticle == st.reticle
    ensures r.scene == st.scene && r.lastObject == st.lastObject && r.growth == st.growth
    ensures r.obj3dLoaded == st.obj3dLoaded && r.rendered == st.rendered
  {
    st.(xr := st.xr.(session := st.xr.session + 1, inSession := true), planeFound := false)
  }

  /** The session ends. The gate and the source are cleared only by the `end`
      listener, and that listener exists only if a frame of this session
      issued the acquisition request. */
  function OnSessionEnd(st: State): (r: State)
    requires Valid(st) && st.xr.inSession
    ensures Valid(r) && !r.xr.inSession && r.xr.session == st.xr.session
    ensures !r.hitTestSourceRequested
    ensures st.hitTestSourceRequested ==> r.hitTestSource.None?
    ensures !st.hitTestSourceRequested ==> r.hitTestSource == st.hitTestSource
    ensures r.xr.requestLog == st.xr.requestLog && r.xr.pending == st.xr.pending
    ensures r.planeFound == st.planeFound && r.reticle == st.reticle
    ensures r.scene == st.scene && r.lastObject == st.lastObject && r.growth == st.growth
    ensures r.obj3dLoaded == st.obj3dLoaded && r.rendered == st.rendered
  {
    var ended := st.(xr := st.xr.(inSession := false, endListener := false));
    if st.xr.endListener then ended.(hitTestSourceRequested := false, hitTestSource := None)
    else ended
  }

  /** The inner `requestHitTestSource` promise resolves. Nothing checks that
      the session which asked for it is still running. */
  function OnHitTestSourceResolved(st: State, requestedIn: SessionId): (r: State)
    requires Valid(st) && requestedIn in st.xr.pending
    ensures Valid(r) && r.hitTestSource == Some(requestedIn)
    ensures r.xr.pending == st.xr.pending - multiset{requestedIn}
    ensures |r.xr.pending| + 1 == |st.xr.pending|
    ensures r.xr.requestLog == st.xr.requestLog && r.xr.inSession == st.xr.inSession
    ensures r.xr.session == st.xr.session
    ensures r.hitTestSourceRequested == st.hitTestSourceRequested
    ensures r.planeFound == st.planeFound && r.reticle == st.reticle
    ensures r.scene == st.scene && r.lastObject == st.lastObject && r.growth == st.growth
    ensures r.obj3dLoaded == st.obj3dLoaded && r.rendered == st.rendered
  {
    st.(xr := st.xr.(pending := st.xr.pending - multiset{requestedIn}),
        hitTestSource := Some(requestedIn))
  }

  /** The asset loader's callback stores the decoded scene in `obj3d`. */
  function OnAssetLoaded(st: State): (r: State)
    requires Valid(st)
    ensures Valid(r) && r.obj3dLoaded
    ensures r.xr == st.xr && r.hitTestSource == st.hitTestSource
    ensures r.hitTestSourceRequested == st.hitTestSourceRequested && r.planeFound == st.planeFound
    ensures r.reticle == st.reticle && r.scene == st.scene && r.lastObject == st.lastObject
    ensures r.growth == st.growth && r.rendered == st.rendered
  {
    st.(obj3dLoaded := true)
  }

  /** The acquisition gate of `render`: the first frame after the gate is
      cleared issues the two-step request, attaches the `end` listener to the
      session and sets the gate; any other frame leaves all three alone. */
  function AcquireOnce(st: State): (r: State)
    requires Valid(st) && st.xr.inSession
    ensures Valid(r) && r.hitTestSourceRequested && r.xr.endListener
    ensures st.hitTestSourceRequested ==> r == st
    ensures !st.hitTestSourceRequested ==>
              r.xr.requestLog == st.xr.requestLog + [st.xr.session] &&
              r.xr.pending == st.xr.pending + multiset{st.xr.session}
    ensures r.xr.session == st.xr.session && r.xr.inSession
    ensures r.hitTestSource == st.hitTestSource && r.planeFound == st.planeFound
    ensures r.reticle == st.reticle && r.obj3dLoaded == st.obj3dLoaded
    ensures r.scene == st.scene && r.lastObject == st.lastObject && r.growth == st.growth
    ensures r.rendered == st.rendered
  {
    if st.hitTestSourceRequested then st
    else
      st.(xr := st.xr.(pending := st.xr.pending + multiset{st.xr.session},
                       requestLog := st.xr.requestLog + [st.xr.session],
                       endListener := true),
          hitTestSourceRequested := true)
  }

  /** The reticle update of `render`, run after the gate: once a source
      exists, the reticle follows the first hit of this frame; an empty list
      hides the reticle but keeps its matrix; the first hit raises `planeFound`. */
  function FollowFirstHit(st: State, results: seq<Pose>): (r: State)
    requires Valid(st)
    ensures Valid(r)
    ensures st.hitTestSource.None? ==> r == st
    ensures st.hitTestSource.Some? && |results| == 0 ==>
              !r.reticle.visible && r.reticle.matrix == st.reticle.matrix &&
              r.planeFound == st.planeFound
    ensures st.hitTestSource.Some? && |results| > 0 ==>
              r.reticle == Reticle(true, results[0]) && r.planeFound
    ensures st.planeFound ==> r.planeFound
    ensures r.xr == st.xr && r.hitTestSource == st.hitTestSource
    ensures r.hitTestSourceRequested == st.hitTestSourceRequested
    ensures r.scene == st.scene && r.lastObject == st.lastObject && r.obj3dLoaded == st.obj3dLoaded
    ensures r.growth == st.growth && r.rendered == st.rendered
  {
    if st.hitTestSource.None? then st
    else if |results| == 0 then st.(reticle := st.reticle.(visible := false))
    else st.(planeFound := true, reticle := Reticle(true, results[0]))
  }

  /** The tracking half of `render`, for a call that has a frame: the gate
      runs first, then the reticle update. The reticle update sees the source
      as it was before the gate ran, since issuing a request never sets it. */
  function Track(st: State, results: seq<Pose>): (r: State)
    requires Valid(st) && st.xr.inSession
    ensures Valid(r) && r.hitTestSourceRequested
    ensures st.hitTestSourceRequested ==> r.xr == st.xr
    ensures st.hitTestSource.None? ==> r.reticle == st.reticle && r.planeFound == st.planeFound
    ensures st.hitTestSource.Some? && |results| == 0 ==>
              !r.reticle.visible && r.reticle.matrix == st.reticle.matrix &&
              r.planeFound == st.planeFound
    ensures st.hitTestSource.Some? && |results| > 0 ==>
              r.reticle == Reticle(true, results[0]) && r.planeFound
    ensures st.planeFound ==> r.planeFound
    ensures r.xr.session == st.xr.session && r.xr.inSession && r.hitTestSource == st.hitTestSource
    ensures r.scene == st.scene && r.lastObject == st.lastObject && r.obj3dLoaded == st.obj3dLoaded
    ensures r.growth == st.growth && r.rendered == st.rendered
  {
    FollowFirstHit(AcquireOnce(st), results)
  }

  /** One call of `render`: the tracking half only when there is a frame;
      the scene is drawn in every case. */
  function OnAnimationFrame(st: State, hasFrame: bool, results: seq<Pose>): (r: State)
    requires Valid(st) && (hasFrame ==> st.xr.inSession)
    ensures Valid(r) && r.rendered == st.rendered + 1
    ensures !hasFrame ==> r == st.(rendered := st.rendered + 1)
    ensures hasFrame ==> r == Track(st, results).(rendered := st.rendered + 1)
  {
    if !hasFrame then st.(rendered := st.rendered + 1)
    else
      var tracked := Track(st, results);
      tracked.(rendered := tracked.rendered + 1)
  }

  /** The first half of a placement: the last placed mesh, if any, is
      detached from the scene and `lastObject` is cleared. */
  function Evict(st: State): (r: State)
    requires Valid(st)
    ensures Valid(r) && r.lastObject.None? && r.scene.placed == {}
    ensures r.scene.nextMesh == st.scene.nextMesh && r.scene.placedAt == st.scene.placedAt
    ensures r.growth == st.growth && r.reticle == st.reticle && r.obj3dLoaded == st.obj3dLoaded
    ensures r.xr == st.xr && r.hitTestSource == st.hitTestSource
    ensures r.hitTestSourceRequested == st.hitTestSourceRequested && r.planeFound == st.planeFound
    ensures r.rendered == st.rendered
  {
    if st.lastObject.Some? then
      st.(scene := st.scene.(placed := st.scene.placed - {st.lastObject.value}), lastObject := None)
    else st
  }

  /** The second half of a placement, on an empty scene: a fresh clone is
      attached at the reticle pose with unit scale, its growth interval is
      started, and it becomes `lastObject`. */
  function PlaceAtReticle(st: State): (r: State)
    requires Valid(st) && st.lastObject.None?
    ensures Valid(r)
    ensures var mesh := st.scene.nextMesh;
            mesh !in st.growth.ticks &&
            r.lastObject == Some(mesh) &&
            r.scene.placed == {mesh} &&
            mesh in r.scene.placedAt && r.scene.placedAt[mesh] == st.reticle.matrix &&
            mesh in r.growth.ticks && r.growth.ticks[mesh] == 0 &&
            r.growth.running == st.growth.running + {mesh}
    ensures r.scene.nextMesh == st.scene.nextMesh + 1
    ensures forall m :: m in st.scene.placedAt ==>
              m in r.scene.placedAt && r.scene.placedAt[m] == st.scene.placedAt[m]
    ensures forall m :: m in st.growth.ticks ==> m in r.growth.ticks && r.growth.ticks[m] == st.growth.ticks[m]
    ensures r.xr == st.xr && r.hitTestSource == st.hitTestSource
    ensures r.hitTestSourceRequested == st.hitTestSourceRequested && r.planeFound == st.planeFound
    ensures r.reticle == st.reticle && r.obj3dLoaded == st.obj3dLoaded && r.rendered == st.rendered
  {
    var mesh := st.scene.nextMesh;
    st.(lastObject := Some(mesh),
        scene := Scene(st.scene.placed + {mesh}, mesh + 1, st.scene.placedAt[mesh := st.reticle.matrix]),
        growth := Growth(st.growth.ticks[mesh := 0], st.growth.running + {mesh}))
  }

  /** `onSelect`: with a visible reticle and a loaded asset, the last placed
      mesh is detached before exactly one fresh clone is attached at the
      reticle pose; otherwise nothing happens. */
  function OnSelect(st: State): (r: State)
    requires Valid(st)
    ensures Valid(r)
    ensures !(st.reticle.visible && st.obj3dLoaded) ==> r == st
    ensures st.reticle.visible && st.obj3dLoaded ==>
              var mesh := st.scene.nextMesh;
              mesh !in st.scene.placed &&
              r.lastObject == Some(mesh) &&
              r.scene.placed == {mesh} &&
              mesh in r.scene.placedAt && r.scene.placedAt[mesh] == st.reticle.matrix &&
              mesh in r.growth.ticks && r.growth.ticks[mesh] == 0 &&
              r.growth.running == st.growth.running + {mesh} &&
              r.scene.nextMesh == mesh + 1
    ensures forall m :: m in st.scene.placedAt ==>
              m in r.scene.placedAt && r.scene.placedAt[m] == st.scene.placedAt[m]
    ensures forall m :: m in st.growth.ticks ==> m in r.growth.ticks && r.growth.ticks[m] == st.growth.ticks[m]
    ensures r.xr == st.xr && r.hitTestSource == st.hitTestSource
    ensures r.hitTestSourceRequested == st.hitTestSourceRequested && r.planeFound == st.planeFound
    ensures r.reticle == st.reticle && r.obj3dLoaded == st.obj3dLoaded && r.rendered == st.rendered
  {
    if st.reticle.visible && st.obj3dLoaded then PlaceAtReticle(Evict(st)) else st
  }

  /** One 16 ms tick of a mesh's growth interval: its scale is multiplied by
      1.01, whether or not the mesh is still in the scene. */
  function OnGrowthTick(st: State, mesh: MeshId): (r: State)
    requires Valid(st) && mesh in st.growth.running
    ensures Valid(r)
    ensures mesh in st.growth.ticks && mesh in r.growth.ticks
    ensures r.growth.ticks[mesh] == st.growth.ticks[mesh] + 1
    ensures forall m :: m in st.growth.ticks && m != mesh ==>
              m in r.growth.ticks && r.growth.ticks[m] == st.growth.ticks[m]
    ensures r.growth.running == st.growth.running && r.scene == st.scene
    ensures r.xr == st.xr && r.hitTestSource == st.hitTestSource && r.planeFound == st.planeFound
    ensures r.lastObject == st.lastObject && r.reticle == st.reticle
    ensures r.hitTestSourceRequested == st.hitTestSourceRequested
    ensures r.obj3dLoaded == st.obj3dLoaded && r.rendered == st.rendered
  {
    st.(growth := st.growth.(ticks := st.growth.ticks[mesh := st.growth.ticks[mesh] + 1]))
  }

  /** The 500 ms timeout of a mesh clears that mesh's growth interval. */
  function OnGrowthTimeout(st: State, mesh: MeshId): (r: State)
    requires Valid(st) && mesh in st.growth.running
    ensures Valid(r)
    ensures r.growth.running == st.growth.running - {mesh} && r.growth.ticks == st.growth.ticks
    ensures r.xr == st.xr && r.hitTestSource == st.hitTestSource && r.planeFound == st.planeFound
    ensures r.scene == st.scene && r.lastObject == st.lastObject && r.reticle == st.reticle
    ensures r.hitTestSourceRequested == st.hitTestSourceRequested
    ensures r.obj3dLoaded == st.obj3dLoaded && r.rendered == st.rendered
  {
    st.(growth := st.growth.(running := st.growth.running - {mesh}))
  }

  /** The events the host delivers to the script. */
  datatype Event =
    | SessionStart
    | SessionEnd
    | HitTestSourceResolved(requestedIn: SessionId)
    | AssetLoaded
    | AnimationFrame(hasFrame: bool, results: seq<Pose>)
    | Select
    | GrowthTick(mesh: MeshId)
    | GrowthTimeout(mesh: MeshId)

  /** When the host can deliver an event: sessions alternate start and end,
      only an issued request resolves, a frame object exists only inside a
      session, and only a running interval ticks or times out. */
  predicate Enabled(st: State, ev: Event) {
    match ev
    case SessionStart => !st.xr.inSession
    case SessionEnd => st.xr.inSession
    case HitTestSourceResolved(s) => s in st.xr.pending
    case AnimationFrame(hasFrame, _) => hasFrame ==> st.xr.inSession
    case GrowthTick(m) => m in st.growth.running
    case GrowthTimeout(m) => m in st.growth.running
    case _ => true
  }

  function Step(st: State, ev: Event): (r: State)
    requires Valid(st) && Enabled(st, ev)
    ensures Valid(r)
  {
    match ev
    case SessionStart => OnSessionStart(st)
    case SessionEnd => OnSessionEnd(st)
    case HitTestSourceResolved(s) => OnHitTestSourceResolved(st, s)
    case AssetLoaded => OnAssetLoaded(st)
    case AnimationFrame(hasFrame, results) => OnAnimationFrame(st, hasFrame, results)
    case Select => OnSelect(st)
    case GrowthTick(m) => OnGrowthTick(st, m)
    case GrowthTimeout(m) => OnGrowthTimeout(st, m)
  }

  /** Every event of the trace is enabled when it arrives. */
  ghost predicate Admissible(st: State, evs: seq<Event>)
    requires Valid(st)
    decreases |evs|
  {
    |evs| == 0 || (Enabled(st, evs[0]) && Admissible(Step(st, evs[0]), evs[1..]))
  }

  /** The state after a trace of events. */
  function Run(st: State, evs: seq<Event>): (r: State)
    requires Valid(st) && Admissible(st, evs)
    ensures Valid(r)
    decreases |evs|
  {
    if |evs| == 0 then st else Run(Step(st, evs[0]), evs[1..])
  }
}
