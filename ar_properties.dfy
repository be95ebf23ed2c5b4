/** What the placement loop guarantees over whole traces of events. */
module ArProperties {
  import opened ArState
  import opened ArEvents

  /** One frame inside a session: it issues a request only if the gate was
      clear and the call carries a frame, and never ends the session. */
  lemma FrameStep(st: State, ev: Event)
    requires Valid(st) && st.xr.inSession && ev.AnimationFrame?
    ensures Enabled(st, ev)
    ensures var next := Step(st, ev);
            next.xr.inSession && next.xr.session == st.xr.session &&
            next.hitTestSourceRequested == (st.hitTestSourceRequested || ev.hasFrame) &&
            (st.hitTestSourceRequested || !ev.hasFrame ==>
               next.xr.requestLog == st.xr.requestLog && next.xr.pending == st.xr.pending) &&
            (!st.hitTestSourceRequested && ev.hasFrame ==>
               next.xr.requestLog == st.xr.requestLog + [st.xr.session])
  {
  }

  /** Inside one session, any number of frames issues at most one
      acquisition request: none at all once the gate is set, and the gate is
      set exactly when it was already set or some call carried a frame. */
  lemma {:induction false} FramesIssueAtMostOneRequest(st: State, evs: seq<Event>)
    requires Valid(st) && st.xr.inSession
    requires forall i :: 0 <= i < |evs| ==> evs[i].AnimationFrame?
    ensures Admissible(st, evs)
    ensures Run(st, evs).xr.inSession && Run(st, evs).xr.session == st.xr.session
    ensures st.hitTestSourceRequested ==>
              Run(st, evs).xr.requestLog == st.xr.requestLog &&
              Run(st, evs).xr.pending == st.xr.pending
    ensures Run(st, evs).xr.requestLog == st.xr.requestLog ||
            Run(st, evs).xr.requestLog == st.xr.requestLog + [st.xr.session]
    ensures Run(st, evs).hitTestSourceRequested <==>
              st.hitTestSourceRequested || exists i :: 0 <= i < |evs| && evs[i].hasFrame
    decreases |evs|
  {
    if |evs| > 0 {
      FrameStep(st, evs[0]);
      var next := Step(st, evs[0]);
      var rest := evs[1..];
      forall i | 0 <= i < |rest| ensures rest[i].AnimationFrame? {
        assert rest[i] == evs[i + 1];
      }
      FramesIssueAtMostOneRequest(next, rest);
      assert Run(st, evs) == Run(next, rest);
      if exists i :: 0 <= i < |rest| && rest[i].hasFrame {
        var i :| 0 <= i < |rest| && rest[i].hasFrame;
        assert evs[i + 1].hasFrame;
      }
      if exists i :: 0 <= i < |evs| && evs[i].hasFrame {
        var i :| 0 <= i < |evs| && evs[i].hasFrame;
        if i > 0 {
          assert rest[i - 1].hasFrame;
        }
      }
    }
  }

  /** Ending a session clears the gate and the source (once the session has
      requested one); the first frame of the next session then issues a
      fresh request, and until it resolves the reticle does not move. */
  lemma EndThenNextSessionReacquires(st: State, results: seq<Pose>)
    requires Valid(st) && st.xr.inSession && st.hitTestSourceRequested
    ensures !OnSessionEnd(st).hitTestSourceRequested && OnSessionEnd(st).hitTestSource.None?
    ensures var next := OnAnimationFrame(OnSessionStart(OnSessionEnd(st)), true, results);
            next.hitTestSourceRequested &&
            next.xr.requestLog == st.xr.requestLog + [st.xr.session + 1] &&
            next.xr.pending == st.xr.pending + multiset{st.xr.session + 1} &&
            next.reticle == st.reticle && !next.planeFound
  {
  }

  /** Once set, `planeFound` stays set through every event except a session start. */
  lemma {:induction false} PlaneFoundOnlyResetBySessionStart(st: State, evs: seq<Event>)
    requires Valid(st) && Admissible(st, evs) && st.planeFound
    requires forall i :: 0 <= i < |evs| ==> !evs[i].SessionStart?
    ensures Run(st, evs).planeFound
    decreases |evs|
  {
    if |evs| > 0 {
      var next := Step(st, evs[0]);
      assert evs[0] in evs;
      assert next.planeFound by {
        if evs[0].AnimationFrame? && evs[0].hasFrame {
          assert Track(st, evs[0].results).planeFound;
        }
      }
      forall i | 0 <= i < |evs[1..]| ensures !evs[1..][i].SessionStart? {
        assert evs[1..][i] == evs[i + 1];
      }
      PlaneFoundOnlyResetBySessionStart(next, evs[1..]);
    }
  }

  /** `planeFound` is raised only by a frame that has a source and at least one hit. */
  lemma PlaneFoundRaisedOnlyByAHit(st: State, ev: Event)
    requires Valid(st) && Enabled(st, ev) && !st.planeFound
    requires Step(st, ev).planeFound
    ensures ev.AnimationFrame? && ev.hasFrame && |ev.results| > 0 && st.hitTestSource.Some?
  {
  }

  /** While no hit-test source ever resolves (the request is still pending,
      or it was rejected and nothing retries), no event moves or shows the
      reticle, and the source stays null. */
  lemma {:induction false} NoSourceFreezesReticle(st: State, evs: seq<Event>)
    requires Valid(st) && Admissible(st, evs) && st.hitTestSource.None?
    requires forall i :: 0 <= i < |evs| ==> !evs[i].HitTestSourceResolved?
    ensures Run(st, evs).hitTestSource.None? && Run(st, evs).reticle == st.reticle
    decreases |evs|
  {
    if |evs| > 0 {
      var next := Step(st, evs[0]);
      assert !evs[0].HitTestSourceResolved?;
      assert next.hitTestSource.None? && next.reticle == st.reticle by {
        if evs[0].AnimationFrame? && evs[0].hasFrame {
          assert Track(st, evs[0].results).reticle == st.reticle;
        }
      }
      forall i | 0 <= i < |evs[1..]| ensures !evs[1..][i].HitTestSourceResolved? {
        assert evs[1..][i] == evs[i + 1];
      }
      NoSourceFreezesReticle(next, evs[1..]);
    }
  }

  /** One event never shrinks a mesh's growth, and cannot restart or
      advance a mesh whose interval has been cleared. */
  lemma GrowthStep(st: State, ev: Event, mesh: MeshId)
    requires Valid(st) && Enabled(st, ev) && mesh in st.growth.ticks
    ensures var next := Step(st, ev);
            mesh in next.growth.ticks && st.growth.ticks[mesh] <= next.growth.ticks[mesh] &&
            (mesh !in st.growth.running ==>
               mesh !in next.growth.running && next.growth.ticks[mesh] == st.growth.ticks[mesh])
  {
  }

  /** The scale of a placed mesh never shrinks, and no mesh is ever forgotten. */
  lemma {:induction false} GrowthMonotone(st: State, evs: seq<Event>, mesh: MeshId)
    requires Valid(st) && Admissible(st, evs) && mesh in st.growth.ticks
    ensures mesh in Run(st, evs).growth.ticks
    ensures st.growth.ticks[mesh] <= Run(st, evs).growth.ticks[mesh]
    decreases |evs|
  {
    if |evs| > 0 {
      GrowthStep(st, evs[0], mesh);
      GrowthMonotone(Step(st, evs[0]), evs[1..], mesh);
    }
  }

  /** Once its timeout has cleared a mesh's interval, the mesh's scale is
      frozen for good: no later event restarts or advances it. */
  lemma {:induction false} GrowthFrozenAfterTimeout(st: State, evs: seq<Event>, mesh: MeshId)
    requires Valid(st) && Admissible(st, evs)
    requires mesh in st.growth.ticks && mesh !in st.growth.running
    ensures mesh in Run(st, evs).growth.ticks && mesh !in Run(st, evs).growth.running
    ensures Run(st, evs).growth.ticks[mesh] == st.growth.ticks[mesh]
    decreases |evs|
  {
    if |evs| > 0 {
      GrowthStep(st, evs[0], mesh);
      GrowthFrozenAfterTimeout(Step(st, evs[0]), evs[1..], mesh);
    }
  }

  /** Placing a new object detaches the old one but does not stop the old
      one's growth interval: its next tick still scales the detached mesh. */
  lemma EvictedMeshKeepsGrowing(st: State, previous: MeshId)
    requires Valid(st) && st.reticle.visible && st.obj3dLoaded
    requires st.lastObject == Some(previous) && previous in st.growth.running
    ensures previous in st.scene.placed && previous !in OnSelect(st).scene.placed
    ensures previous in OnSelect(st).growth.running
    ensures OnGrowthTick(OnSelect(st), previous).growth.ticks[previous] == st.growth.ticks[previous] + 1
  {
  }

  /** A source that resolves after its session has ended is kept: the next
      session's first frame issues its own request and, in the same frame,
      queries the ended session's source; if the frame returns hits for it,
      the reticle moves to the first one. */
  lemma LateResolveDrivesNextSession(st: State, results: seq<Pose>)
    requires Valid(st) && st.xr.inSession && st.hitTestSourceRequested
    requires st.xr.session in st.xr.pending && |results| > 0
    ensures var ended := OnHitTestSourceResolved(OnSessionEnd(st), st.xr.session);
            !ended.xr.inSession && ended.hitTestSource == Some(st.xr.session) &&
            var next := OnAnimationFrame(OnSessionStart(ended), true, results);
            next.xr.session == st.xr.session + 1 &&
            next.hitTestSource == Some(st.xr.session) &&
            next.xr.requestLog == st.xr.requestLog + [st.xr.session + 1] &&
            next.reticle == Reticle(true, results[0]) && next.planeFound
  {
  }

  /** In every reachable state the scene holds at most one placed object,
      and it is `lastObject`. */
  lemma {:induction false} ReachableHoldsAtMostOneObject(evs: seq<Event>)
    requires Admissible(Init(), evs)
    ensures |Run(Init(), evs).scene.placed| <= 1
    ensures Run(Init(), evs).scene.placed == SceneOf(Run(Init(), evs).lastObject)
  {
  }

  /** In every reachable state no session has issued two acquisition
      requests, and the gate is set only while a session runs. */
  lemma {:induction false} ReachableRequestsOncePerSession(evs: seq<Event>)
    requires Admissible(Init(), evs)
    ensures var log := Run(Init(), evs).xr.requestLog;
            forall i, j :: 0 <= i < j < |log| ==> log[i] != log[j]
    ensures Run(Init(), evs).hitTestSourceRequested ==> Run(Init(), evs).xr.inSession
  {
  }
}
