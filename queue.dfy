// The module-level `toRemove` array of the renderer: the queue of registry
// entries waiting to be taken out of the document, shrunk in place.
module Queue {
  import opened Dom
  import opened Lifecycle

  /** The module-level `toRemove` array, shrunk in place while it is walked. */
  class RemovalQueue {
    var items: seq<Pending>

    constructor ()
      ensures items == []
    {
      items := [];
    }

    /** `removeByIdSwap(toRemove, x)`. */
    method RemoveByIdSwap(x: string)
      modifies this
      ensures items == Lifecycle.RemoveByIdSwap(old(items), x)
    {
      var idx := 0;
      while idx < |items| && items[idx].nodeId != x
        invariant idx <= |items|
        invariant forall j :: 0 <= j < idx ==> items[j].nodeId != x
      {
        idx := idx + 1;
      }
      if idx < |items| {
        assert FindIndex(items, x) == idx;
        items := items[idx := items[|items| - 1]];
        items := items[..|items| - 1];
      }
    }

    /** `removeAnimatedNodeTree(el)` for the element with that id in doc, at most fuel levels deep. */
    method RemoveAnimatedNodeTree(doc: Document, id: string, fuel: nat)
      modifies this
      ensures items == StripTree(old(items), doc, id, fuel)
      decreases fuel, 1
    {
      if fuel > 0 && id in doc {
        var kids, f := doc[id].children, fuel - 1;
        ghost var start := items;
        var i := 0;
        while i < |kids|
          invariant i <= |kids|
          invariant StripChildren(items, doc, kids, i, f) == StripChildren(start, doc, kids, 0, f)
        {
          StripChildrenStep(items, doc, kids, i, f);
          RemoveChildTree(doc, kids[i], f);
          i := i + 1;
        }
      }
    }

    /** One child of the loop: it leaves the queue, then its own subtree does. */
    method RemoveChildTree(doc: Document, kid: string, fuel: nat)
      modifies this
      ensures items == StripTree(Lifecycle.RemoveByIdSwap(old(items), kid), doc, kid, fuel)
      decreases fuel, 2
    {
      RemoveByIdSwap(kid);
      RemoveAnimatedNodeTree(doc, kid, fuel);
    }
  }
}
