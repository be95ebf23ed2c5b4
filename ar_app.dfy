/** The page script itself: its module-level variables as the fields of one
    object, and one method per callback, each updating the fields in place
    the way the callback does. Each method is proved to do what the event
    function of the same name in ArEvents says. */
module ArApp {
  import opened ArState
  import opened ArEvents

  class App {
    // the host's XR session, as the script sees it
    var xr: Xr
    // module-level variables
    var hitTestSource: Option<SessionId>
    var hitTestSourceRequested: bool
    var planeFound: bool
    var obj3dLoaded: bool
    var lastObject: Option<MeshId>
    // the reticle mesh's `visible` and `matrix`
    var reticle: Reticle
    // the scene graph's placed meshes, and their growth timers
    var scene: Scene
    var growth: Growth
    // the renderer
    var rendered: nat

    /** The fields, read as one state value. */
    function Model(): State
      reads this
    {
      State(xr, hitTestSource, hitTestSourceRequested, planeFound, reticle,
            obj3dLoaded, lastObject, scene, growth, rendered)
    }

    ghost predicate Valid()
      reads this
    {
      ArState.Valid(Model())
    }

    /** `init` followed by `animate`: the reticle is built hidden, nothing is
        placed yet, the asset is still loading and no session has started. */
    constructor ()
      ensures Valid() && Model() == Init()
    {
      xr := Xr(0, false, false, multiset{}, []);
      hitTestSource := None;
      hitTestSourceRequested := false;
      planeFound := false;
      obj3dLoaded := false;
      lastObject := None;
      reticle := Reticle(false, Identity);
      scene := Scene({}, 0, map[]);
      growth := Growth(map[], {});
      rendered := 0;
    }

    /** The renderer's "sessionstart" event runs `sessionStart`. */
    method SessionStart()
      requires Valid() && !xr.inSession
      modifies this
      ensures Valid() && Model() == OnSessionStart(old(Model()))
    {
      xr := xr.(session := xr.session + 1, inSession := true);
      planeFound := false;
    }

    /** The session's "end" event runs the listener, if a frame attached one. */
    method SessionEnd()
      requires Valid() && xr.inSession
      modifies this
      ensures Valid() && Model() == OnSessionEnd(old(Model()))
    {
      var listening := xr.endListener;
      xr := xr.(inSession := false, endListener := false);
      if listening {
        hitTestSourceRequested := false;
        hitTestSource := None;
      }
    }

    /** The `requestHitTestSource` promise of session `requestedIn` resolves. */
    method HitTestSourceResolved(requestedIn: SessionId)
      requires Valid() && requestedIn in xr.pending
      modifies this
      ensures Valid() && Model() == OnHitTestSourceResolved(old(Model()), requestedIn)
    {
      xr := xr.(pending := xr.pending - multiset{requestedIn});
      hitTestSource := Some(requestedIn);
    }

    /** The loader's callback sets `obj3d`. */
    method AssetLoaded()
      requires Valid()
      modifies this
      ensures Valid() && Model() == OnAssetLoaded(old(Model()))
    {
      obj3dLoaded := true;
    }

    /** The gate of `render`: both promises are issued and the `end` listener
        is attached in the same step that sets the gate. */
    method AcquireHitTestSource()
      requires Valid() && xr.inSession
      modifies this
      ensures Valid() && Model() == AcquireOnce(old(Model()))
    {
      if !hitTestSourceRequested {
        xr := xr.(pending := xr.pending + multiset{xr.session},
                  requestLog := xr.requestLog + [xr.session],
                  endListener := true);
        hitTestSourceRequested := true;
      }
    }

    /** The reticle update of `render`. */
    method UpdateReticle(results: seq<Pose>)
      requires Valid()
      modifies this
      ensures Valid() && Model() == FollowFirstHit(old(Model()), results)
    {
      if hitTestSource.Some? {
        if |results| > 0 {
          if !planeFound {
            planeFound := true;
          }
          reticle := reticle.(visible := true);
          reticle := reticle.(matrix := results[0]);
        } else {
          reticle := reticle.(visible := false);
        }
      }
    }

    /** `render(timestamp, frame)`, with `hasFrame` telling whether `frame`
        is set and `results` the frame's hit-test results. */
    method Render(hasFrame: bool, results: seq<Pose>)
      requires Valid() && (hasFrame ==> xr.inSession)
      modifies this
      ensures Valid() && Model() == OnAnimationFrame(old(Model()), hasFrame, results)
    {
      if hasFrame {
        AcquireHitTestSource();
        UpdateReticle(results);
      }
      rendered := rendered + 1;
    }

    /** The eviction step of `onSelect`. */
    method EvictLastObject()
      requires Valid()
      modifies this
      ensures Valid() && Model() == Evict(old(Model()))
    {
      if lastObject.Some? {
        scene := scene.(placed := scene.placed - {lastObject.value});
        lastObject := None;
      }
    }

    /** The placement step of `onSelect`: clone, attach, start the growth
        interval and its timeout, remember the clone. */
    method PlaceClone()
      requires Valid() && lastObject.None?
      modifies this
      ensures Valid() && Model() == PlaceAtReticle(old(Model()))
    {
      var mesh := scene.nextMesh;
      scene := Scene(scene.placed + {mesh}, mesh + 1, scene.placedAt[mesh := reticle.matrix]);
      growth := Growth(growth.ticks[mesh := 0], growth.running + {mesh});
      lastObject := Some(mesh);
    }

    /** The controller's "select" event runs `onSelect`. */
    method Select()
      requires Valid()
      modifies this
      ensures Valid() && Model() == OnSelect(old(Model()))
    {
      if reticle.visible && obj3dLoaded {
        EvictLastObject();
        PlaceClone();
      }
    }

    /** A tick of `mesh`'s growth interval. */
    method GrowthTick(mesh: MeshId)
      requires Valid() && mesh in growth.running
      modifies this
      ensures Valid() && Model() == OnGrowthTick(old(Model()), mesh)
    {
      growth := growth.(ticks := growth.ticks[mesh := growth.ticks[mesh] + 1]);
    }

    /** The timeout that clears `mesh`'s growth interval. */
    method GrowthTimeout(mesh: MeshId)
      requires Valid() && mesh in growth.running
      modifies this
      ensures Valid() && Model() == OnGrowthTimeout(old(Model()), mesh)
    {
      growth := growth.(running := growth.running - {mesh});
    }
  }
}
