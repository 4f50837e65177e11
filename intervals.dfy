// The per-route interval table of the traversal module and its clean-up on
// navigation. clearInterval is a browser timer call; the model records the
// ids it is given, in order.
module Intervals {

  /** The table and the clearInterval calls made so far. */
  datatype Timers = Timers(routes: map<string, seq<nat>>, cleared: seq<nat>)

  /** What clearIntervalsForRoute(path) leaves behind. */
  function ClearRoute(t: Timers, path: string): (t': Timers)
  {
    if path in t.routes then Timers(t.routes - {path}, t.cleared + t.routes[path]) else t
  }

  /**
   * After clearing, the route has no entry, every other route keeps its
   * intervals, and exactly that route's ids were cleared, in their order.
   */
  lemma ClearRouteEffect(t: Timers, path: string)
    ensures path !in ClearRoute(t, path).routes
    ensures forall p :: p != path ==> (p in ClearRoute(t, path).routes <==> p in t.routes)
    ensures forall p :: p != path && p in t.routes ==> ClearRoute(t, path).routes[p] == t.routes[p]
    ensures ClearRoute(t, path).cleared == t.cleared + (if path in t.routes then t.routes[path] else [])
  {
  }

  /** Clearing a route twice clears nothing more. */
  lemma ClearRouteIdempotent(t: Timers, path: string)
    ensures ClearRoute(ClearRoute(t, path), path) == ClearRoute(t, path)
  {
  }

  class RouteIntervals {
    /** `routeIntervals`: route path to the ids of the intervals it started. */
    var routes: map<string, seq<nat>>
    /** The ids handed to clearInterval, oldest first. */
    var cleared: seq<nat>

    function State(): Timers
      reads this
    {
      Timers(routes, cleared)
    }

    constructor()
      ensures routes == map[] && cleared == []
    {
      routes := map[];
      cleared := [];
    }

    /** clearIntervalsForRoute(path). */
    method ClearIntervalsForRoute(path: string)
      modifies this
      ensures State() == ClearRoute(old(State()), path)
    {
      if path in routes {
        var ids := routes[path];
        var i := 0;
        while i < |ids|
          invariant 0 <= i <= |ids|
          invariant routes == old(routes)
          invariant cleared == old(cleared) + ids[..i]
        {
          cleared := cleared + [ids[i]];
          i := i + 1;
          assert ids[..i] == ids[..i - 1] + [ids[i - 1]];
        }
        assert ids[..i] == ids;
        routes := routes - {path};
      }
    }
  }
}
