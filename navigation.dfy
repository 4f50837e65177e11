// navigateWASM: leaving the current page for `path`, as the ordered list of
// what the host does. The DOM reset and the walk that follows it run the
// traversal modelled elsewhere; here they are single steps.
module Navigation {
  import opened Intervals
  import Frames

  /** The host actions of navigateWASM, in order. */
  datatype NavStep =
    | PushState(url: string)       // window.history.pushState({}, "", path)
    | EncodeRoute(route: string)   // encodeString: the route handed to setRouteRenderTree
    | ClearRoot                    // rootElement.innerHTML = ""
    | InitialWalk                  // initial_render = true; traverse(...); initial_render = false
    | MarkAllDirty                 // markAllNonLayoutNodesDirty()
    | RemoveWalk                   // traverseRemove over the current tree
    | RerenderRoute(route: string) // rerenderRoute: the route handed to renderCommands
    | DeferRerender                // requestAnimationFrame(setRerenderTrue)

  /**
   * navigateWASM(path) while the location is `current`: the interval table
   * after clearIntervalsForRoute(current), and the steps that follow.
   */
  function Navigate(t: Timers, current: string, path: string): (r: (Timers, seq<NavStep>))
  {
    (ClearRoute(t, current), [PushState(path), EncodeRoute(Frames.RoutePath(path)), ClearRoot, InitialWalk])
  }

  /**
   * Navigation stops the intervals of the page being left, not of the
   * destination; the URL pushed is the path as given, while the engine is
   * asked for its route, so "/" is never sent, and the root is emptied
   * before the walk rebuilds it.
   */
  lemma NavigateEffect(t: Timers, current: string, path: string)
    ensures var r := Navigate(t, current, path);
      current !in r.0.routes
      && (path != current && path in t.routes ==> path in r.0.routes && r.0.routes[path] == t.routes[path])
      && r.0.cleared == t.cleared + (if current in t.routes then t.routes[current] else [])
      && |r.1| == 4 && r.1[0] == PushState(path) && r.1[2] == ClearRoot && r.1[3] == InitialWalk
      && r.1[1].EncodeRoute? && r.1[1].route != "/"
      && (r.1[1].route == path <==> path != "/")
  {
    ClearRouteEffect(t, current);
    Frames.RoutePathSharing(path, path);
  }

  /** Going to "/" and going to "/root" ask the engine for the same route. */
  lemma RootAliases(t: Timers, current: string)
    ensures Navigate(t, current, "/").1[1] == Navigate(t, current, "/root").1[1]
  {
  }

  /**
   * A click on a rendered link whose URL has pathname `path`: the interval
   * table is left alone (its clean-up is commented out in the handler).
   */
  function LinkClick(t: Timers, path: string): (r: (Timers, seq<NavStep>))
  {
    (t, [MarkAllDirty, RemoveWalk, PushState(path), RerenderRoute(Frames.RoutePath(path)), DeferRerender])
  }

  /**
   * A link click and navigateWASM push the same URL and ask the engine for
   * the same route; only navigateWASM stops the current page's intervals,
   * and the click removes stale nodes instead of emptying the root.
   */
  lemma LinkClickAgreesWithNavigate(t: Timers, current: string, path: string)
    ensures var click := LinkClick(t, path);
      var nav := Navigate(t, current, path);
      click.0 == t
      && (nav.0 == t <==> current !in t.routes)
      && click.1[2] == nav.1[0]
      && click.1[3].route == nav.1[1].route
      && ClearRoot !in click.1 && RemoveWalk !in nav.1
  {
    var nav := Navigate(t, current, path);
    if current in t.routes {
      ClearRouteEffect(t, current);
      assert current !in nav.0.routes;
    }
  }
}
