// The renderer's module state — `activeNodeIds`, `domNodeRegistry`, the
// document, the stylesheet and the engine's dirty flags — as an object whose
// `traverse`/`traverseRemove` methods update it step by step. Each method is
// proved to leave exactly the state, and throw exactly the exception, that
// the matching function of the Traversal module describes.
module Runtime {
  import opened Wrappers
  import opened Memory
  import opened Layout
  import opened Decoder
  import opened Dom
  import opened Styling
  import opened Registry
  import opened Engine
  import opened Input
  import opened Keys
  import opened Traversal
  import opened Lifecycle
  import opened Frames
  import opened Queue

  class Renderer {
    var mem: seq<uint8>
    const layout: Layout
    const engine: Oracle
    const root: string
    var decode: (nat, set<nat>) -> Result<RenderCommand>
    var initialRender: bool
    var dirty: set<nat>
    var active: set<string>
    var registry: Reg
    var dom: Document
    const styles: StyleSheet
    var calls: seq<Call>
    var deferred: seq<Deferred>
    const toRemove: RemovalQueue

    function Frame(): Env
      reads this
    {
      Env(mem, layout, engine, root, initialRender, decode)
    }

    function State(): World
      reads this, styles
    {
      World(dirty, active, registry, dom, styles.State(), calls, deferred)
    }

    constructor (mem: seq<uint8>, layout: Layout, engine: Oracle, root: string, rootElement: Element, dirty: set<nat>)
      ensures Frame() == Env(mem, layout, engine, root, true, Decoding(mem, layout, engine.style))
      ensures Reads(Frame())
      ensures State() == World(dirty, {}, [], map[root := rootElement], Sheet([], map[]), [], [])
      ensures toRemove.items == []
    {
      this.mem := mem;
      this.layout := layout;
      this.engine := engine;
      this.root := root;
      decode := Decoding(mem, layout, engine.style);
      initialRender := true;
      this.dirty := dirty;
      active := {};
      registry := [];
      dom := map[root := rootElement];
      styles := new StyleSheet();
      toRemove := new RemovalQueue();
      calls := [];
      deferred := [];
    }

    /** `updateComponentStyle` then `applyHoverClass`: the element as they leave it, and what was thrown. */
    method ApplyStyles(e: Element, cmd: RenderCommand) returns (element: Element, r: Result<()>)
      modifies styles
      ensures var st := Restyle(Frame(), old(State()), e, cmd);
        State() == st.world && element == st.element && (if st.Continue? then r == Ok(()) else r == Err(st.error))
    {
      var styled;
      element, styled := styles.UpdateComponentStyle(engine.showScrollBar(cmd.nodePtr), cmd.styleId, cmd.props.css, e);
      if styled.Err? {
        return element, Err(styled.error);
      }
      if |cmd.props.hoverCss| > 0 {
        var thrown := styles.ApplyHoverClass(element, cmd.styleId, cmd.props.hoverCss);
        if thrown.Some? {
          return element, Err(thrown.value);
        }
      }
      r := Ok(());
    }

    /** `processInputElement`. */
    method ProcessInputElement(e: Element, cmd: RenderCommand) returns (r: Result<Element>)
      modifies this, styles
      ensures initialRender == old(initialRender) && mem == old(mem) && decode == old(decode)
      ensures match ProcessInput(Frame(), old(State()), e, cmd)
        case Err(err) => r == Err(err) && State() == old(State())
        case Ok(made) => r == Ok(made.1) && State() == made.0
    {
      var p := cmd.nodePtr;
      var kind := engine.inputType(p);
      var view :- NewView(mem, engine.createInput(p), engine.inputSize(p));
      var rec :- ReadInputRecord(mem, view, kind);
      var element := ApplyInput(e, rec);
      if kind == 4 && engine.checkMarkStylePtr(p) > 0 {
        var css :- ReadWasmString(mem, engine.checkMarkStylePtr(p), engine.checkMarkLen(p));
        if |css| > 0 {
          element :- styles.CheckMarkStyling(cmd.id, element, css);
        }
      }
      var callback := engine.onInputCallback(p);
      if callback != 0 {
        deferred := deferred + [AddInputListener(PlainKey(callback, cmd.id), cmd.id, callback)];
      }
      r := Ok(element);
    }

    /** `createElementByType`: Ok(None) for a dialog button without a dialog id. */
    method CreateElementByType(cmd: RenderCommand) returns (r: Result<Option<Element>>)
      modifies this, styles
      ensures initialRender == old(initialRender) && mem == old(mem) && decode == old(decode)
      ensures match MakeElement(Frame(), old(State()), cmd)
        case Err(err) => r == Err(err) && State() == old(State())
        case Ok(made) =>
          if made.None? then r == Ok(None) && State() == old(State())
          else r == Ok(Some(made.value.1)) && State() == made.value.0
    {
      var base := BaseElement(cmd);
      if base.None? {
        return Ok(None);
      }
      var element := base.value;
      if cmd.elemType == INPUT {
        element :- ProcessInputElement(element, cmd);
      }
      r := Ok(Some(element));
    }

    /** `setupElement`. */
    method SetupElement(e: Element, cmd: RenderCommand) returns (r: Result<Element>)
      modifies this, styles
      ensures initialRender == old(initialRender) && mem == old(mem) && decode == old(decode)
      ensures var st := Setup(Frame(), old(State()), e, cmd);
        State() == st.world && (if st.Continue? then r == Ok(st.element) else r == Err(st.error))
    {
      var element, styled := ApplyStyles(e.(id := cmd.id), cmd);
      if styled.Err? {
        return Err(styled.error);
      }
      registry := Set(registry, cmd.id, EntryFor(cmd));
      dom := Replace(dom, cmd.id, element);
      r := Ok(element);
    }

    /** `updateElement` on the element stored under id. */
    method UpdateElement(id: string, cmd: RenderCommand) returns (r: Result<Element>)
      requires id in dom
      modifies this, styles
      ensures initialRender == old(initialRender) && mem == old(mem) && decode == old(decode)
      ensures var st := UpdateStage(Frame(), old(State()), id, cmd);
        State() == st.world && (if st.Continue? then r == Ok(st.element) else r == Err(st.error))
    {
      var element := UpdateContent(dom[id], cmd);
      dom := dom[id := element];
      var styled;
      element, styled := ApplyStyles(element, cmd);
      dom := dom[id := element];
      if styled.Err? {
        return Err(styled.error);
      }
      r := Ok(element);
    }

    /** `traverse(parent, node)`. */
    method Traverse(parent: Option<string>, node: Tree) returns (thrown: Option<JsError>)
      modifies this, styles
      ensures initialRender == old(initialRender) && mem == old(mem) && decode == old(decode)
      ensures Outcome(State(), thrown) == Traversal.Traverse(Frame(), old(State()), parent, node)
      decreases node, 1
    {
      if parent.None? {
        return None;
      }
      var i := 0;
      while i < |node.children|
        invariant i <= |node.children|
        invariant initialRender == old(initialRender) && mem == old(mem) && decode == old(decode)
        invariant Children(Frame(), State(), parent.value, node, i) == Children(Frame(), old(State()), parent.value, node, 0)
      {
        ghost var before := State();
        thrown := VisitChild(parent.value, node.children[i]);
        ChildrenStep(Frame(), before, parent.value, node, i);
        if thrown.Some? {
          return;
        }
        i := i + 1;
      }
      thrown := None;
    }

    /** One iteration of `traverse`'s loop. */
    method VisitChild(parent: string, child: Tree) returns (thrown: Option<JsError>)
      modifies this, styles
      ensures initialRender == old(initialRender) && mem == old(mem) && decode == old(decode)
      ensures Outcome(State(), thrown) == Child(Frame(), old(State()), parent, child)
      decreases child, 3
    {
      ghost var w0 := State();
      var read := decode(child.cmdPtr, dirty);
      if read.Err? {
        return Some(read.error);
      }
      var cmd := read.value;
      active := active + {cmd.id};
      ghost var w1 := State();
      assert w1 == w0.(active := w0.active + {cmd.id});
      if SkippedDialog(cmd) {
        return None;
      }
      if cmd.isDirty {
        dirty := dirty - {cmd.nodePtr};
        calls := calls + [SetDirtyToFalse(cmd.nodePtr)];
        ghost var w2 := State();
        assert w2 == w1.(dirty := w1.dirty - {cmd.nodePtr}, calls := w1.calls + [SetDirtyToFalse(cmd.nodePtr)]);
        var found := GetElementById(dom, root, cmd.id);
        if found.None? || initialRender {
          thrown := CreateChild(parent, child, cmd);
          assert Outcome(State(), thrown) == Create(Frame(), w2, parent, child, cmd);
        } else {
          thrown := UpdateChild(found.value, child, cmd);
          assert Outcome(State(), thrown) == Update(Frame(), w2, found.value, child, cmd);
        }
      } else {
        thrown := Traverse(GetElementById(dom, root, cmd.id), child);
        assert Outcome(State(), thrown) == Traversal.Traverse(Frame(), w1, GetElementById(w1.dom, root, cmd.id), child);
      }
    }

    /** The create path of `traverse`. */
    method CreateChild(parent: string, child: Tree, cmd: RenderCommand) returns (thrown: Option<JsError>)
      modifies this, styles
      ensures initialRender == old(initialRender) && mem == old(mem) && decode == old(decode)
      ensures Outcome(State(), thrown) == Create(Frame(), old(State()), parent, child, cmd)
      decreases child, 2
    {
      ghost var w0 := State();
      var made := CreateElementByType(cmd);
      if made.Err? {
        return Some(made.error);
      }
      if made.value.None? {
        return None;
      }
      ghost var w1 := State();
      var setup := SetupElement(made.value.value, cmd);
      if setup.Err? {
        return Some(setup.error);
      }
      ghost var w2 := State();
      assert Setup(Frame(), w1, made.value.value, cmd) == Continue(w2, setup.value);
      thrown := Traverse(Some(cmd.id), child);
      if thrown.Some? {
        return;
      }
      ghost var w3 := State();
      assert Traversal.Traverse(Frame(), w2, Some(cmd.id), child) == Outcome(w3, None);
      AttachToParent(parent, cmd);
    }

    /** `parent.appendChild`, the JSON editor's deferred set-up and the creation hooks. */
    method AttachToParent(parent: string, cmd: RenderCommand)
      modifies this
      ensures initialRender == old(initialRender) && mem == old(mem) && decode == old(decode)
      ensures State() == Attach(old(State()), parent, cmd)
    {
      dom := AppendChild(dom, parent, cmd.id);
      if cmd.elemType == JSON_EDITOR {
        deferred := deferred + [InitJsonEditor(parent, cmd.id)];
      }
      var hooks := HooksOf(cmd);
      if cmd.elemType == HOOKS_CTX {
        if hooks.mountedId > 0 {
          calls := calls + [CtxHooksMountedCallback(hooks.mountedId)];
        }
      } else {
        if hooks.mountedId > 0 {
          calls := calls + [HooksMountedCallback(hooks.mountedId)];
        }
        if hooks.createdId > 0 {
          calls := calls + [HooksCreatedCallback(hooks.createdId)];
        }
        if hooks.updatedId > 0 {
          calls := calls + [HooksUpdatedCallback(hooks.updatedId)];
        }
      }
    }

    /** The update path of `traverse`. */
    method UpdateChild(id: string, child: Tree, cmd: RenderCommand) returns (thrown: Option<JsError>)
      requires id in dom
      modifies this, styles
      ensures initialRender == old(initialRender) && mem == old(mem) && decode == old(decode)
      ensures Outcome(State(), thrown) == Update(Frame(), old(State()), id, child, cmd)
      decreases child, 2
    {
      var updated := UpdateElement(id, cmd);
      if updated.Err? {
        return Some(updated.error);
      }
      thrown := Traverse(Some(id), child);
    }

    /** `traverseRemove(parent, node)`. */
    method TraverseRemove(parent: Option<string>, node: Tree) returns (thrown: Option<JsError>)
      modifies this
      ensures initialRender == old(initialRender) && mem == old(mem) && decode == old(decode)
      ensures Outcome(State(), thrown) == Traversal.TraverseRemove(Frame(), old(State()), parent, node)
    {
      if parent.None? {
        return None;
      }
      var i := 0;
      while i < |node.children|
        invariant i <= |node.children|
        invariant initialRender == old(initialRender) && mem == old(mem) && decode == old(decode)
        invariant RemoveChildren(Frame(), State(), node.children, i) == RemoveChildren(Frame(), old(State()), node.children, 0)
      {
        ghost var before := State();
        thrown := RemoveDirtyChild(node.children[i]);
        RemoveChildrenStep(Frame(), before, node.children, i);
        if thrown.Some? {
          return;
        }
        i := i + 1;
      }
      thrown := None;
    }

    /** One iteration of `traverseRemove`'s loop. */
    method RemoveDirtyChild(child: Tree) returns (thrown: Option<JsError>)
      modifies this
      ensures initialRender == old(initialRender) && mem == old(mem) && decode == old(decode)
      ensures Outcome(State(), thrown) == RemoveChild(Frame(), old(State()), child)
    {
      var read := decode(child.cmdPtr, dirty);
      if read.Err? {
        return Some(read.error);
      }
      var cmd := read.value;
      if cmd.isDirty {
        if Get(registry, cmd.id).None? {
          return Some(TypeError);
        }
        registry := Delete(registry, cmd.id);
        dom := Detach(dom, cmd.id);
        dirty := dirty - {cmd.nodePtr};
        calls := calls + [SetDirtyToFalse(cmd.nodePtr)];
      }
      thrown := None;
    }
  
    /** `callDestroyFncs`: the registry in insertion order. */
    method CallDestroyFncs()
      modifies this
      ensures initialRender == old(initialRender) && mem == old(mem) && decode == old(decode)
      ensures State() == DestroyHooks(old(State()))
    {
      var i := 0;
      while i < |registry|
        invariant i <= |registry|
        invariant initialRender == old(initialRender) && mem == old(mem) && decode == old(decode)
        invariant registry == old(registry) && active == old(active) && dom == old(dom)
        invariant dirty == old(dirty) && deferred == old(deferred)
        invariant calls == old(calls) + DestroyCalls(registry[..i], active)
      {
        var entry := registry[i];
        DestroyCallsAppend(registry[..i], [entry], active);
        assert registry[..i + 1] == registry[..i] + [entry];
        if entry.0 !in active && entry.1.destroyId.Some? {
          calls := calls + [HooksDestroyCallback(entry.1.destroyId.value)];
        }
        i := i + 1;
      }
      assert registry[..i] == registry;
    }

    /** `removeInactiveNodes`. */
    method RemoveInactiveNodes()
      modifies this, toRemove
      ensures initialRender == old(initialRender) && mem == old(mem) && decode == old(decode)
      ensures (State(), toRemove.items) == RemoveNodes(old(State()), old(active))
    {
      RemoveNodesKeeping(active);
    }

    /** `removeRouteSpecificNodes` for the location path. */
    method RemoveRouteSpecificNodes(path: string)
      modifies this, toRemove
      ensures initialRender == old(initialRender) && mem == old(mem) && decode == old(decode)
      ensures (State(), toRemove.items) == RemoveRouteNodes(old(State()), path)
    {
      RemoveNodesKeeping({LayoutId(path)});
    }

    /** The two passes both removal functions share: over the registry Map, then over `toRemove`. */
    method RemoveNodesKeeping(keep: set<string>)
      modifies this, toRemove
      ensures initialRender == old(initialRender) && mem == old(mem) && decode == old(decode)
      ensures (State(), toRemove.items) == RemoveNodes(old(State()), keep)
    {
      CollectPass(keep);
      SchedulePass();
    }

    /** The registry pass: entries not kept are queued and deleted as they are visited. */
    method CollectPass(keep: set<string>)
      modifies this, toRemove
      ensures initialRender == old(initialRender) && mem == old(mem) && decode == old(decode)
      ensures State() == old(State()).(registry := Collect(old(registry), old(registry), keep).0)
      ensures toRemove.items == Collect(old(registry), old(registry), keep).1
    {
      toRemove.items := [];
      var snapshot := registry;
      var i := 0;
      while i < |snapshot|
        invariant i <= |snapshot|
        invariant initialRender == old(initialRender) && mem == old(mem) && decode == old(decode)
        invariant dirty == old(dirty) && active == old(active) && dom == old(dom)
        invariant calls == old(calls) && deferred == old(deferred)
        invariant Collect(registry, snapshot[i..], keep).0 == Collect(snapshot, snapshot, keep).0
        invariant toRemove.items + Collect(registry, snapshot[i..], keep).1 == Collect(snapshot, snapshot, keep).1
      {
        CollectStep(registry, snapshot, i, keep);
        var entry := snapshot[i];
        if entry.0 !in keep {
          ghost var rest := Collect(Delete(registry, entry.0), snapshot[i + 1..], keep);
          assert toRemove.items + ([Pending(entry.0, entry.1)] + rest.1) == toRemove.items + [Pending(entry.0, entry.1)] + rest.1;
          toRemove.items := toRemove.items + [Pending(entry.0, entry.1)];
          registry := Delete(registry, entry.0);
        }
        i := i + 1;
      }
      assert snapshot[i..] == [];
    }

    /** `toRemove.forEach(...)`: positions past the shrinking end are skipped. */
    method SchedulePass()
      modifies this, toRemove
      ensures initialRender == old(initialRender) && mem == old(mem) && decode == old(decode)
      ensures var s := Schedule(old(dom), old(toRemove.items), 0, |old(toRemove.items)|);
        State() == old(State()).(dom := s.0) && toRemove.items == s.1
    {
      var len := |toRemove.items|;
      var k := 0;
      while k < len
        invariant k <= len
        invariant initialRender == old(initialRender) && mem == old(mem) && decode == old(decode)
        invariant State() == old(State()).(dom := dom)
        invariant Schedule(dom, toRemove.items, k, len) == Schedule(old(dom), old(toRemove.items), 0, len)
      {
        if k < |toRemove.items| {
          var item := toRemove.items[k];
          if Animated(item) {
            toRemove.RemoveAnimatedNodeTree(dom, item.nodeId, |dom|);
            dom := ArmExit(dom, item.nodeId, item.entry.exitAnimationId.value);
          } else {
            dom := Detach(dom, item.nodeId);
          }
        }
        k := k + 1;
      }
    }

    /**
     * `renderLoop`. `global` and `grain` are the engine's answers, `path` the
     * location, `alloc` the engine's answer to `allocString`'s allocation,
     * `memory` the engine's memory once `renderCommands` has rewritten the
     * records, and `dirty` the engine's dirty flags and `tree` its render
     * tree as they stand once the branch has asked for them.
     */
    method RenderLoop(global: bool, grain: bool, path: string, alloc: RouteAlloc, memory: seq<uint8>,
                      dirty: set<nat>, tree: Tree) returns (thrown: Option<JsError>)
      modifies this, styles, toRemove
      ensures mem == memory && Reads(Frame())
      ensures var t := RenderStep(old(Frame()).(mem := memory, decode := Decoding(memory, layout, engine.style)),
                                  old(State()), old(toRemove.items), global, grain, path, alloc, dirty, tree);
        State() == t.world && initialRender == t.initialRender && toRemove.items == t.toRemove && thrown == t.thrown
    {
      mem := memory;
      decode := Decoding(memory, layout, engine.style);
      ghost var env := Frame();
      assert env == old(Frame()).(mem := memory, decode := Decoding(memory, layout, engine.style));
      if !global && !grain {
        deferred := deferred + [NextFrame];
        return None;
      }
      if global {
        var route := RoutePath(path);
        calls := calls + [AllocUint8(RouteBytes(route))];
        if !RouteFits(alloc, route) {
          return Some(RangeError);
        }
        calls := calls + [RenderCommands(route)];
      }
      active := {};
      this.dirty := dirty;
      ghost var w0 := State();
      assert w0 == Prepared(old(State()), global, path, dirty);
      thrown := Traverse(Some(root), tree);
      assert Outcome(State(), thrown) == Traversal.Traverse(env, w0, Some(root), tree);
      FinishTurn(thrown, global);
    }

    /** The rest of `renderLoop`'s body after a walk that threw `thrown`, or the catch. */
    method FinishTurn(thrown: Option<JsError>, global: bool)
      modifies this, toRemove
      ensures mem == old(mem) && decode == old(decode)
      ensures Turn(State(), initialRender, toRemove.items, thrown)
           == Conclude(old(Frame()), Outcome(old(State()), thrown), old(toRemove.items), global)
    {
      if thrown.Some? {
        return;
      }
      if global {
        initialRender := false;
      }
      calls := calls + [PendingClassesToAdd, PendingClassesToRemove];
      CallDestroyFncs();
      RemoveInactiveNodes();
      if global {
        calls := calls + [ResetRerender];
        deferred := deferred + [CleanUp];
      } else {
        calls := calls + [ResetGrainRerender];
      }
      deferred := deferred + [NextFrame];
    }
  }
}
