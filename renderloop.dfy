// One turn of `renderLoop`: which rerender branch runs, what it asks of the
// engine, and the garbage collection that follows the walk.
module Frames {
  import opened Wrappers
  import opened Dom
  import opened Registry
  import opened Engine
  import opened Traversal
  import opened Lifecycle
  import Utf8
  import Wasm

  /** The route the host asks the engine to render for a location path. */
  function RoutePath(path: string): (route: string)
  {
    if path == "/" then "/root" else path
  }

  /** Only "/" and "/root" share a route; every other path is its own. */
  lemma RoutePathSharing(p: string, q: string)
    ensures RoutePath(p) == RoutePath(q) <==> p == q || (p in {"/", "/root"} && q in {"/", "/root"})
    ensures RoutePath(p) != "/"
  {
  }

  /**
   * What the engine answers to the `allocUint8` that `allocString(route)`
   * makes: the byte length of memory once it returns, and the pointer it
   * grants.
   */
  datatype RouteAlloc = RouteAlloc(size: nat, granted: nat)

  /**
   * The size `allocString(route)` asks for. It is exactly the zero-terminated
   * string the host writes into the region, and, for a route without U+0000,
   * an engine that reads the region up to its first 0 gets the route back.
   */
  function RouteBytes(route: string): (n: nat)
    ensures n == |Wasm.CString(route)|
    ensures '\0' !in route ==> Wasm.CStrLen(Wasm.CString(route)) == n - 1
    ensures '\0' !in route ==> Utf8.Decode(Wasm.CString(route)[..n - 1]) == Some(route)
  {
    var n := |Utf8.Encode(route)| + 1;
    if '\0' in route then n else Wasm.CStringRoundTrip(route); n
  }

  /**
   * The `Uint8Array` over the granted region is built without throwing
   * exactly when the region lies in memory; otherwise it throws RangeError.
   * Through RouteBytes this is the condition under which
   * Wasm.Instance.AllocString(route, a.granted) on a.size bytes returns Ok.
   */
  predicate RouteFits(a: RouteAlloc, route: string)
  {
    a.granted + RouteBytes(route) <= a.size
  }

  /** `callDestroyFncs`. */
  function DestroyHooks(w: World): (w': World)
    ensures w' == w.(calls := w'.calls) && w.calls <= w'.calls
  {
    w.(calls := w.calls + DestroyCalls(w.registry, w.active))
  }

  /**
   * Both removal passes over the registry Map and then over the queue: the
   * registry entries not kept are deleted and their elements detached or
   * armed. The queue as it stands afterwards is returned with the world.
   */
  function RemoveNodes(w: World, keep: set<string>): (r: (World, seq<Pending>))
  {
    var p := Collect(w.registry, w.registry, keep);
    var s := Schedule(w.dom, p.1, 0, |p.1|);
    (w.(registry := p.0, dom := s.0), s.1)
  }

  /** What `removeInactiveNodes` keeps: exactly the kept keys stay, each unchanged; only the registry and the DOM change. */
  lemma RemoveNodesKeeps(w: World, keep: set<string>, k: string)
    ensures var r := RemoveNodes(w, keep).0;
      r == w.(registry := r.registry, dom := r.dom) && r.dom.Keys == w.dom.Keys
      && (Has(r.registry, k) <==> Has(w.registry, k) && k in keep)
      && (k in keep ==> Get(r.registry, k) == Get(w.registry, k))
  {
    CollectAll(w.registry, keep, k);
  }

  /** `removeRouteSpecificNodes` for a location path: only the parent layout's entry survives. */
  function RemoveRouteNodes(w: World, path: string): (r: (World, seq<Pending>))
  {
    RemoveNodes(w, {LayoutId(path)})
  }

  lemma RemoveRouteNodesKeepsLayout(w: World, path: string, k: string)
    ensures var r := RemoveRouteNodes(w, path).0;
      (Has(r.registry, k) <==> Has(w.registry, k) && k == LayoutId(path))
      && Get(r.registry, LayoutId(path)) == Get(w.registry, LayoutId(path))
  {
    RemoveNodesKeeps(w, {LayoutId(path)}, k);
    RemoveNodesKeeps(w, {LayoutId(path)}, LayoutId(path));
  }

  /** After the walk: the engine's pending class calls, the destroy hooks, then the removal. */
  function Sweep(w: World): (r: (World, seq<Pending>))
  {
    var w1 := w.(calls := w.calls + [PendingClassesToAdd, PendingClassesToRemove]);
    RemoveNodes(DestroyHooks(w1), w.active)
  }

  /** The state `renderLoop` leaves: the world, `initial_render`, `toRemove`, and the exception that ended it. */
  datatype Turn = Turn(world: World, initialRender: bool, toRemove: seq<Pending>, thrown: Option<JsError>)

  /**
   * One call of `renderLoop`. `global` and `grain` are what `shouldRerender`
   * and `grainRerender` answer, `path` is the location's pathname, `alloc`
   * what the engine answers to `allocString`'s allocation, and `tree` the
   * render tree `getRenderTreePtr` then returns and `dirty` the engine's
   * dirty flags at that point. `env` holds the memory as `renderCommands`
   * leaves it, which the walk decodes. An exception from `allocString` or
   * from the walk is caught: the rest of the body, and the request for the
   * next frame, are skipped.
   */
  function RenderStep(env: Env, w: World, toRemove: seq<Pending>, global: bool, grain: bool,
                      path: string, alloc: RouteAlloc, dirty: set<nat>, tree: Tree): Turn
  {
    if !global && !grain then Turn(w.(deferred := w.deferred + [NextFrame]), env.initialRender, toRemove, None)
    else if global && !RouteFits(alloc, RoutePath(path)) then
      Turn(w.(calls := w.calls + [AllocUint8(RouteBytes(RoutePath(path)))]), env.initialRender, toRemove, Some(RangeError))
    else Conclude(env, Traverse(env, Prepared(w, global, path, dirty), Some(env.root), tree), toRemove, global)
  }

  /** The world the walk starts from: the route allocated and requested when global, a fresh `activeNodeIds`. */
  function Prepared(w: World, global: bool, path: string, dirty: set<nat>): World
  {
    var route := RoutePath(path);
    (if global then w.(calls := w.calls + [AllocUint8(RouteBytes(route)), RenderCommands(route)]) else w)
      .(active := {}, dirty := dirty)
  }

  /** The rest of the body after the walk, or the catch. */
  function Conclude(env: Env, o: Outcome, toRemove: seq<Pending>, global: bool): Turn
  {
    if o.thrown.Some? then Turn(o.world, env.initialRender, toRemove, o.thrown)
    else
      var s := Sweep(o.world);
      if global
      then Turn(s.0.(calls := s.0.calls + [ResetRerender], deferred := s.0.deferred + [CleanUp, NextFrame]),
                false, s.1, None)
      else Turn(s.0.(calls := s.0.calls + [ResetGrainRerender], deferred := s.0.deferred + [NextFrame]),
                env.initialRender, s.1, None)
  }

  // ---- Properties ----

  /** A global rerender takes precedence: the grain flag is not looked at. */
  lemma GlobalBeatsGrain(env: Env, w: World, toRemove: seq<Pending>, grain: bool, path: string, alloc: RouteAlloc,
                         dirty: set<nat>, tree: Tree)
    ensures RenderStep(env, w, toRemove, true, grain, path, alloc, dirty, tree)
         == RenderStep(env, w, toRemove, true, !grain, path, alloc, dirty, tree)
  {
  }

  /** The calls after the walk: the two pending-class calls, then destroy hooks only. */
  lemma SweepCalls(w: World)
    ensures var r := Sweep(w).0;
      r.calls == w.calls + [PendingClassesToAdd, PendingClassesToRemove] + DestroyCalls(w.registry, w.active)
      && r.deferred == w.deferred && r.active == w.active
  {
  }

  /**
   * The global branch first allocates the route ("/" as "/root"). When the
   * region lies in memory it asks for the route's render commands; when it
   * does not, the RangeError ends the turn with nothing else done. The
   * other branches allocate and ask for nothing.
   */
  lemma RouteRequested(env: Env, w: World, toRemove: seq<Pending>, global: bool, grain: bool,
                       path: string, alloc: RouteAlloc, dirty: set<nat>, tree: Tree)
    ensures var t := RenderStep(env, w, toRemove, global, grain, path, alloc, dirty, tree);
      var route := RoutePath(path);
      w.calls <= t.world.calls
      && (global ==> w.calls + [AllocUint8(RouteBytes(route))] <= t.world.calls)
      && (global && RouteFits(alloc, route) ==>
            w.calls + [AllocUint8(RouteBytes(route)), RenderCommands(route)] <= t.world.calls)
      && (global && !RouteFits(alloc, route) ==>
            t == Turn(w.(calls := w.calls + [AllocUint8(RouteBytes(route))]), env.initialRender, toRemove, Some(RangeError)))
      && (!global ==> forall i :: |w.calls| <= i < |t.world.calls| ==>
            !t.world.calls[i].RenderCommands? && !t.world.calls[i].AllocUint8?)
  {
    var w0 := Prepared(w, global, path, dirty);
    TraverseGrows(env, w0, Some(env.root), tree);
    if (global && RouteFits(alloc, RoutePath(path))) || (!global && grain) {
      ConcludeCalls(env, w, w0, RoutePath(path), Traverse(env, w0, Some(env.root), tree), toRemove, global);
    }
  }

  /**
   * What the turn adds to the calls, given a walk that grew the prepared
   * world: the route request, walk calls, sweep calls, and at the end one
   * reset of the branch's kind when nothing was thrown.
   */
  lemma ConcludeCalls(env: Env, w: World, w0: World, route: string, o: Outcome, toRemove: seq<Pending>, global: bool)
    requires w0.calls == (if global then w.calls + [AllocUint8(RouteBytes(route)), RenderCommands(route)] else w.calls)
    requires Grows(w0, o.world)
    ensures var t := Conclude(env, o, toRemove, global);
      w0.calls <= t.world.calls
      && (!global ==> forall i :: |w.calls| <= i < |t.world.calls| ==>
            !t.world.calls[i].RenderCommands? && !t.world.calls[i].AllocUint8?)
      && (ResetRerender in t.world.calls[|w.calls|..] <==> global && t.thrown.None?)
      && (ResetGrainRerender in t.world.calls[|w.calls|..] <==> !global && t.thrown.None?)
  {
    var sweep := if o.thrown.Some? then [] else SweptCalls(o.world);
    var tail := if o.thrown.Some? then [] else if global then [ResetRerender] else [ResetGrainRerender];
    ConcludeShape(env, o, toRemove, global);
    assert Conclude(env, o, toRemove, global).world.calls == o.world.calls + sweep + tail;
    CallPieces(w.calls, w0.calls, o.world.calls, sweep, tail);
  }

  /** The calls `Sweep` adds. */
  function SweptCalls(w: World): (cs: seq<Call>)
    ensures forall i :: 0 <= i < |cs| ==> cs[i].PendingClassesToAdd? || cs[i].PendingClassesToRemove? || cs[i].HooksDestroyCallback?
  {
    [PendingClassesToAdd, PendingClassesToRemove] + DestroyCalls(w.registry, w.active)
  }

  /** The pieces `Conclude` appends to the calls and the deferred work, and what it sets. */
  lemma ConcludeShape(env: Env, o: Outcome, toRemove: seq<Pending>, global: bool)
    ensures var t := Conclude(env, o, toRemove, global);
      t.thrown == o.thrown
      && t.world.calls == o.world.calls + (if o.thrown.Some? then [] else
           SweptCalls(o.world) + [if global then ResetRerender else ResetGrainRerender])
      && t.world.deferred == o.world.deferred + (if o.thrown.Some? then [] else if global then [CleanUp, NextFrame] else [NextFrame])
      && t.initialRender == (env.initialRender && !(global && o.thrown.None?))
      && (o.thrown.Some? ==> t.toRemove == toRemove)
  {
    if o.thrown.None? {
      SweepCalls(o.world);
    }
  }

  /** Where a request or a reset can sit among the calls a turn adds, piece by piece. */
  lemma CallPieces(c0: seq<Call>, c1: seq<Call>, c2: seq<Call>, sweep: seq<Call>, tail: seq<Call>)
    requires c0 <= c1 && c1 <= c2
    requires forall i :: |c0| <= i < |c1| ==> c1[i].AllocUint8? || c1[i].RenderCommands?
    requires forall i :: |c1| <= i < |c2| ==> WalkCall(c2[i])
    requires forall i :: 0 <= i < |sweep| ==> sweep[i].PendingClassesToAdd? || sweep[i].PendingClassesToRemove? || sweep[i].HooksDestroyCallback?
    requires forall i :: 0 <= i < |tail| ==> !tail[i].RenderCommands? && !tail[i].AllocUint8?
    ensures var c := c2 + sweep + tail;
      c1 <= c
      && (c1 == c0 ==> forall i :: |c0| <= i < |c| ==> !c[i].RenderCommands? && !c[i].AllocUint8?)
      && (ResetRerender in c[|c0|..] <==> ResetRerender in tail)
      && (ResetGrainRerender in c[|c0|..] <==> ResetGrainRerender in tail)
  {
    var c := c2 + sweep + tail;
    assert c[|c0|..] == c1[|c0|..] + c2[|c1|..] + sweep + tail;
    forall i | |c1| <= i < |c|
      ensures !c[i].RenderCommands? && !c[i].AllocUint8?
      ensures i < |c| - |tail| ==> !c[i].ResetRerender? && !c[i].ResetGrainRerender?
    {
      if i < |c2| {
        assert WalkCall(c2[i]);
      } else if i < |c2| + |sweep| {
        assert c[i] == sweep[i - |c2|];
      } else {
        assert c[i] == tail[i - |c2| - |sweep|];
      }
    }
    forall x | x in c[|c0|..] && (x.ResetRerender? || x.ResetGrainRerender?)
      ensures x in tail
    {
      var j :| 0 <= j < |c| - |c0| && c[|c0|..][j] == x;
      var i := |c0| + j;
      assert c[i] == x;
      if i >= |c1| {
        assert i >= |c| - |tail|;
        assert tail[i - (|c| - |tail|)] == x;
      }
    }
  }

  /**
   * Each reset belongs to its branch: `resetRerender` ends a completed global
   * turn, `resetGrainRerender` a completed grain turn, and neither is called
   * otherwise. `initial_render` is cleared by a completed global turn only.
   */
  lemma ResetsPerBranch(env: Env, w: World, toRemove: seq<Pending>, global: bool, grain: bool,
                        path: string, alloc: RouteAlloc, dirty: set<nat>, tree: Tree)
    ensures var t := RenderStep(env, w, toRemove, global, grain, path, alloc, dirty, tree);
      |w.calls| <= |t.world.calls|
      && (ResetRerender in t.world.calls[|w.calls|..] <==> global && t.thrown.None?)
      && (ResetGrainRerender in t.world.calls[|w.calls|..] <==> !global && grain && t.thrown.None?)
      && (t.initialRender == (env.initialRender && !(global && t.thrown.None?)))
  {
    var w0 := Prepared(w, global, path, dirty);
    TraverseGrows(env, w0, Some(env.root), tree);
    var t := RenderStep(env, w, toRemove, global, grain, path, alloc, dirty, tree);
    if global && !RouteFits(alloc, RoutePath(path)) {
      assert t.world.calls[|w.calls|..] == [AllocUint8(RouteBytes(RoutePath(path)))];
    } else if global || grain {
      ConcludeCalls(env, w, w0, RoutePath(path), Traverse(env, w0, Some(env.root), tree), toRemove, global);
    } else {
      assert t.world.calls[|w.calls|..] == [];
    }
  }

  /**
   * Garbage collection after a completed walk: every entry left in the
   * registry was visited in this frame, and every entry the frame visited
   * keeps the registration the walk gave it.
   */
  lemma RegistryWithinActive(env: Env, w: World, toRemove: seq<Pending>, global: bool, grain: bool,
                             path: string, alloc: RouteAlloc, dirty: set<nat>, tree: Tree, k: string)
    requires global || grain
    ensures var t := RenderStep(env, w, toRemove, global, grain, path, alloc, dirty, tree);
      var walked := Traverse(env, Prepared(w, global, path, dirty), Some(env.root), tree);
      t.thrown.None? ==>
        (Has(t.world.registry, k) ==> k in t.world.active)
        && (k in t.world.active ==> Get(t.world.registry, k) == Get(walked.world.registry, k))
  {
    var o := Traverse(env, Prepared(w, global, path, dirty), Some(env.root), tree);
    if o.thrown.None? && !(global && !RouteFits(alloc, RoutePath(path))) {
      var w2 := o.world.(calls := o.world.calls + [PendingClassesToAdd, PendingClassesToRemove]);
      RemoveNodesKeeps(DestroyHooks(w2), o.world.active, k);
    }
  }

  /**
   * The next frame is requested iff the body did not throw (in `allocString`
   * or in the walk), and a thrown turn leaves `toRemove` as it was.
   */
  lemma NextFrameUnlessThrown(env: Env, w: World, toRemove: seq<Pending>, global: bool, grain: bool,
                              path: string, alloc: RouteAlloc, dirty: set<nat>, tree: Tree)
    ensures var t := RenderStep(env, w, toRemove, global, grain, path, alloc, dirty, tree);
      w.deferred <= t.world.deferred
      && (NextFrame in t.world.deferred[|w.deferred|..] <==> t.thrown.None?)
      && (t.thrown.Some? ==> t.toRemove == toRemove)
  {
    var w0 := Prepared(w, global, path, dirty);
    TraverseGrows(env, w0, Some(env.root), tree);
    var t := RenderStep(env, w, toRemove, global, grain, path, alloc, dirty, tree);
    if global && !RouteFits(alloc, RoutePath(path)) {
      assert t.world.deferred[|w.deferred|..] == [];
    } else if global || grain {
      ConcludeDeferred(env, w0, Traverse(env, w0, Some(env.root), tree), toRemove, global);
    } else {
      assert t.world.deferred[|w.deferred|..] == [NextFrame];
    }
  }

  lemma ConcludeDeferred(env: Env, w0: World, o: Outcome, toRemove: seq<Pending>, global: bool)
    requires Grows(w0, o.world)
    ensures var t := Conclude(env, o, toRemove, global);
      w0.deferred <= t.world.deferred
      && (NextFrame in t.world.deferred[|w0.deferred|..] <==> t.thrown.None?)
      && (t.thrown.Some? ==> t.toRemove == toRemove)
  {
    var t := Conclude(env, o, toRemove, global);
    var walkAdded := o.world.deferred[|w0.deferred|..];
    var tail := if o.thrown.Some? then [] else if global then [CleanUp, NextFrame] else [NextFrame];
    ConcludeShape(env, o, toRemove, global);
    assert t.world.deferred[|w0.deferred|..] == walkAdded + tail;
    forall x | x in walkAdded
      ensures x != NextFrame
    {
      var j :| 0 <= j < |walkAdded| && walkAdded[j] == x;
      assert WalkDeferred(o.world.deferred[|w0.deferred| + j]);
    }
  }
}
