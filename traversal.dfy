// `traverse` and `traverseRemove` as functions of the frame's inputs and the
// host state they change: the ids seen this frame, the element registry, the
// live DOM, the stylesheet, the engine's dirty flags and the calls made into
// the engine. A JavaScript exception stops the walk where it is thrown; the
// state at that point is part of the result.
module Traversal {
  import opened Wrappers
  import opened Memory
  import opened Layout
  import opened Decoder
  import opened Dom
  import opened Styling
  import opened Registry
  import opened Engine
  import opened Input
  import opened Keys

  // Component type codes.
  const RECTANGLE: nat := 0
  const TEXT: nat := 1
  const IMAGE: nat := 2
  const FLEXBOX: nat := 3
  const INPUT: nat := 4
  const BUTTON: nat := 5
  const BLOCK: nat := 6
  const BOX: nat := 7
  const HEADER: nat := 8
  const SVG: nat := 9
  const LINK: nat := 10
  const EMBEDLINK: nat := 11
  const LIST: nat := 12
  const LISTITEM: nat := 13
  const IF: nat := 14
  const HOOKS: nat := 15
  const LAYOUT: nat := 16
  const PAGE: nat := 17
  const BIND: nat := 18
  const DIALOG: nat := 19
  const DIALOG_SHOW: nat := 20
  const DIALOG_CLOSE: nat := 21
  const DRAGGABLE: nat := 22
  const REDIRECT_LINK: nat := 23
  const SELECT: nat := 24
  const SELECT_ITEM: nat := 25
  const BUTTON_CTX: nat := 26
  const EMBEDICON: nat := 27
  const ICON: nat := 28
  const LABEL: nat := 29
  const FORM: nat := 30
  const ALLOC_TEXT: nat := 31
  const TABLE: nat := 32
  const TABLE_ROW: nat := 33
  const TABLE_CELL: nat := 34
  const TABLE_HEADER: nat := 35
  const TABLE_BODY: nat := 36
  const TEXT_AREA: nat := 37
  const CANVAS: nat := 38
  const SUBMIT_BUTTON_CTX: nat := 39
  const HOOKS_CTX: nat := 40
  const JSON_EDITOR: nat := 41

  /**
   * What a frame reads and does not change: memory, the descriptor, the
   * engine's answers, the root, `initial_render`, and the record reader,
   * which `Reads` ties to `readRenderCommand` over the same memory.
   */
  datatype Env = Env(mem: seq<uint8>, layout: Layout, engine: Oracle, root: string, initialRender: bool,
                     decode: (nat, set<nat>) -> Result<RenderCommand>)

  /** `readRenderCommand(ptr, layout)` with the engine's dirty set d. */
  function Decoding(m: seq<uint8>, l: Layout, o: StyleOracle): (nat, set<nat>) -> Result<RenderCommand>
  {
    (p: nat, d: set<nat>) => ReadRenderCommand(m, p, l, d, o)
  }

  ghost predicate Reads(env: Env)
  {
    env.decode == Decoding(env.mem, env.layout, env.engine.style)
  }

  /** The host state a walk changes. */
  datatype World = World(
    dirty: set<nat>,
    active: set<string>,
    registry: Reg,
    dom: Document,
    sheet: Sheet,
    calls: seq<Call>,
    deferred: seq<Deferred>)

  /** The state after a walk and the exception that stopped it, if any. */
  datatype Outcome = Outcome(world: World, thrown: Option<JsError>)

  /** A step that produced an element, or stopped with an exception leaving the element as it was then. */
  datatype Stage = Continue(world: World, element: Element) | Stop(world: World, element: Element, error: JsError)

  /** Dialog buttons without a dialog id are skipped. */
  predicate SkippedDialog(cmd: RenderCommand)
  {
    (cmd.elemType == DIALOG_SHOW || cmd.elemType == DIALOG_CLOSE) && |cmd.props.dialogId| == 0
  }

  /** The record's hooks; the `{}` of a clean record reads as all zero. */
  function HooksOf(cmd: RenderCommand): Hooks
  {
    if cmd.hooks.Some? then cmd.hooks.value else Hooks(0, 0, 0, 0)
  }

  function WithText(e: Element, text: string): Element { e.(textContent := text) }

  function ButtonOf(kind: string, listeners: seq<Listener>): Element
  {
    SetAttr(CreateElement(Button), Type, kind).(listeners := listeners)
  }

  /**
   * A `link` element with its rel and href. The source also assigns
   * `element.crossorigin` in lower case: a plain expando property, not the
   * reflecting `crossOrigin`, so no attribute is set and it leaves no trace.
   */
  function LinkTo(rel: string, href: string): Element
  {
    SetAttr(SetAttr(CreateElement(Link), Rel, rel), Href, href)
  }

  /** The kinds whose element starts out with the record's text as its text content. */
  predicate CarriesText(t: nat)
  {
    t == TEXT || t == TEXT_AREA || t == JSON_EDITOR || t == ALLOC_TEXT || t == BLOCK || t == HEADER || t == LABEL
  }

  /**
   * `createElementByType` without the input sub-record: None for a dialog
   * button without a dialog id, otherwise the kind's element under the
   * record's id.
   */
  function BaseElement(cmd: RenderCommand): (r: Option<Element>)
    ensures r.None? <==> SkippedDialog(cmd)
    ensures r.Some? ==> r.value.id == cmd.id && r.value.parent == None && r.value.children == []
    ensures r.Some? && CarriesText(cmd.elemType) ==> r.value.textContent == cmd.text
  {
    if SkippedDialog(cmd) then None else Some(KindElement(cmd).(id := cmd.id))
  }

  /** The tag and the properties each kind sets; unknown kinds get a div. */
  function KindElement(cmd: RenderCommand): (e: Element)
    ensures e.parent == None && e.children == []
    ensures CarriesText(cmd.elemType) ==> e.textContent == cmd.text
  {
    var t := cmd.elemType;
    if t == TEXT then WithText(CreateElement(P), cmd.text)
    else if t == TEXT_AREA || t == JSON_EDITOR then WithText(CreateElement(Textarea), cmd.text)
    else if t == ALLOC_TEXT then WithText(CreateElement(P), cmd.text)
    else if t == IMAGE then SetAttr(CreateElement(Img), Src, cmd.href)
    else if t == FLEXBOX || t == BOX || t == HOOKS || t == BIND || t == RECTANGLE then CreateElement(Div)
    else if t == DIALOG then CreateElement(Dialog)
    else if t == DIALOG_SHOW then ButtonOf("button", [DialogShowOnClick(cmd.props.dialogId, cmd.props.btnId)])
    else if t == DIALOG_CLOSE then ButtonOf("button", [DialogCloseOnClick(cmd.props.dialogId, cmd.props.btnId)])
    else if t == DRAGGABLE then CreateElement(Div)
    else if t == INPUT then CreateElement(InputTag)
    else if t == BUTTON then ButtonOf("button", [ButtonOnClick(cmd.id)])
    else if t == BUTTON_CTX then ButtonOf("button", [CtxButtonOnClick(cmd.id)])
    else if t == SUBMIT_BUTTON_CTX then ButtonOf("submit", [])
    else if t == BLOCK then WithText(CreateElement(Div), cmd.text)
    else if t == HEADER then WithText(CreateElement(H1), cmd.text)
    else if t == SVG then CreateElement(Div).(innerHTML := cmd.text)
    else if t == LINK then SetAttr(CreateElement(A), Href, cmd.href).(listeners := [LinkOnClick])
    else if t == REDIRECT_LINK then SetAttr(CreateElement(A), Href, cmd.href)
    else if t == EMBEDLINK then LinkTo("stylesheet", cmd.href)
    else if t == EMBEDICON then LinkTo("icon", cmd.href)
    else if t == ICON then CreateElement(I).(className := cmd.href)
    else if t == LIST then CreateElement(Ul)
    else if t == LISTITEM then CreateElement(Li)
    else if t == SELECT then CreateElement(Select)
    else if t == SELECT_ITEM then CreateElement(OptionTag)
    else if t == LABEL then WithText(SetAttr(CreateElement(Label), HtmlFor, cmd.href), cmd.text)
    else if t == FORM then SetAttr(CreateElement(Form), Action, "")
    else if t == TABLE then CreateElement(Table)
    else if t == TABLE_ROW then CreateElement(Tr)
    else if t == TABLE_CELL then CreateElement(Td)
    else if t == TABLE_HEADER then CreateElement(Th)
    else if t == TABLE_BODY then CreateElement(Tbody)
    else if t == CANVAS then CreateElement(Canvas)
    else CreateElement(Div)
  }

  /** A stylesheet or icon link carries exactly its rel and href attributes, and no CORS setting. */
  lemma EmbeddedLinkAttrs(cmd: RenderCommand)
    requires cmd.elemType == EMBEDLINK || cmd.elemType == EMBEDICON
    ensures var e := KindElement(cmd);
      e.localName == Link && e.attrs == map[Rel := if cmd.elemType == EMBEDLINK then "stylesheet" else "icon", Href := cmd.href]
  {
  }

  /** `processInputElement`: the sub-record's properties, the check-mark rules of a radio, the deferred input listener. */
  function ProcessInput(env: Env, w: World, e: Element, cmd: RenderCommand): Result<(World, Element)>
  {
    var p := cmd.nodePtr;
    var o := env.engine;
    var kind := o.inputType(p);
    var view :- NewView(env.mem, o.createInput(p), o.inputSize(p));
    var rec :- InputRecordAt(env.mem, view, kind);
    FinishInput(env, w, ApplyInput(e, rec), cmd)
  }

  /** The rest of `processInputElement` once the fields are set: the radio check-mark and the input listener. */
  function FinishInput(env: Env, w: World, e: Element, cmd: RenderCommand): Result<(World, Element)>
  {
    var p := cmd.nodePtr;
    var o := env.engine;
    var styled :-
      if o.inputType(p) == 4 && o.checkMarkStylePtr(p) > 0 then
        var css :- ReadWasmString(env.mem, o.checkMarkStylePtr(p), o.checkMarkLen(p));
        if |css| > 0 then CheckMarkUpdate(w.sheet, cmd.id, e, css) else Ok((w.sheet, e))
      else Ok((w.sheet, e));
    var cb := o.onInputCallback(p);
    var deferred := if cb != 0 then w.deferred + [AddInputListener(PlainKey(cb, cmd.id), cmd.id, cb)] else w.deferred;
    Ok((w.(sheet := styled.0, deferred := deferred), styled.1))
  }

  /** `createElementByType`: None for a skipped dialog button. */
  function MakeElement(env: Env, w: World, cmd: RenderCommand): Result<Option<(World, Element)>>
  {
    var base := BaseElement(cmd);
    if base.None? then Ok(None)
    else if cmd.elemType == INPUT then
      var made :- ProcessInput(env, w, base.value, cmd);
      Ok(Some(made))
    else Ok(Some((w, base.value)))
  }

  /** `updateComponentStyle`, then `applyHoverClass` when the record has hover css. */
  function Restyle(env: Env, w: World, e: Element, cmd: RenderCommand): Stage
  {
    var styled := StyleUpdate(w.sheet, env.engine.showScrollBar(cmd.nodePtr), cmd.styleId, cmd.props.css, e);
    var w1 := w.(sheet := styled.sheet);
    match styled.result
    case Err(err) => Stop(w1, styled.element, err)
    case Ok(_) =>
      if |cmd.props.hoverCss| > 0 then
        var hovered := HoverUpdate(styled.sheet, styled.element, cmd.styleId, cmd.props.hoverCss);
        match hovered.thrown
        case Some(err) => Stop(w1.(sheet := hovered.sheet), styled.element, err)
        case None => Continue(w1.(sheet := hovered.sheet), styled.element)
      else Continue(w1, styled.element)
  }

  /** The registry entry `setupElement` stores: destroyId only when positive. */
  function EntryFor(cmd: RenderCommand): Entry
  {
    Entry(cmd.exitAnimationId, if HooksOf(cmd).destroyId > 0 then Some(HooksOf(cmd).destroyId) else None)
  }

  /** `setupElement`: id, styling, the registry entry; the element exists but is not attached yet. */
  function Setup(env: Env, w: World, e: Element, cmd: RenderCommand): Stage
  {
    match Restyle(env, w, e.(id := cmd.id), cmd)
    case Stop(w1, e1, err) => Stop(w1, e1, err)
    case Continue(w1, e1) =>
      Continue(w1.(registry := Set(w1.registry, cmd.id, EntryFor(cmd)), dom := Replace(w1.dom, cmd.id, e1)), e1)
  }

  /** The lifecycle hooks fired after a created element is attached. */
  function HookCalls(kind: nat, h: Hooks): seq<Call>
  {
    if kind == HOOKS_CTX then
      if h.mountedId > 0 then [CtxHooksMountedCallback(h.mountedId)] else []
    else
      (if h.mountedId > 0 then [HooksMountedCallback(h.mountedId)] else [])
      + (if h.createdId > 0 then [HooksCreatedCallback(h.createdId)] else [])
      + (if h.updatedId > 0 then [HooksUpdatedCallback(h.updatedId)] else [])
  }

  /** Append to the parent, queue the JSON editor set-up, fire the hooks. */
  function Attach(w: World, parent: string, cmd: RenderCommand): World
  {
    w.(dom := AppendChild(w.dom, parent, cmd.id),
       deferred := if cmd.elemType == JSON_EDITOR then w.deferred + [InitJsonEditor(parent, cmd.id)] else w.deferred,
       calls := w.calls + HookCalls(cmd.elemType, HooksOf(cmd)))
  }

  /** `updateElement`'s content step: which property each kind refreshes. */
  function UpdateContent(e: Element, cmd: RenderCommand): Element
  {
    var t := cmd.elemType;
    if t == TEXT || t == HEADER || t == ALLOC_TEXT || t == TEXT_AREA then e.(textContent := cmd.text)
    else if t == INPUT then e.(value := cmd.text)
    else if t == ICON then e.(className := cmd.href)
    else e
  }

  /** `updateElement` on the element found by id. */
  function UpdateStage(env: Env, w: World, id: string, cmd: RenderCommand): Stage
    requires id in w.dom
  {
    var e1 := UpdateContent(w.dom[id], cmd);
    var w1 := w.(dom := w.dom[id := e1]);
    match Restyle(env, w1, e1, cmd)
    case Stop(w2, e2, err) => Stop(w2.(dom := w2.dom[id := e2]), e2, err)
    case Continue(w2, e2) => Continue(w2.(dom := w2.dom[id := e2]), e2)
  }

  /** `traverse(parent, node)`. */
  function Traverse(env: Env, w: World, parent: Option<string>, node: Tree): Outcome
    decreases node, 1
  {
    if parent.None? then Outcome(w, None) else Children(env, w, parent.value, node, 0)
  }

  /** The loop over the children from index i on. */
  function Children(env: Env, w: World, parent: string, node: Tree, i: nat): Outcome
    requires i <= |node.children|
    decreases node, 0, |node.children| - i
  {
    if i == |node.children| then Outcome(w, None)
    else
      var o := Child(env, w, parent, node.children[i]);
      if o.thrown.Some? then o else Children(env, o.world, parent, node, i + 1)
  }

  /** One iteration of the loop: read, record, skip, then create, update or descend. */
  function Child(env: Env, w: World, parent: string, child: Tree): Outcome
    decreases child, 3
  {
    match env.decode(child.cmdPtr, w.dirty)
    case Err(err) => Outcome(w, Some(err))
    case Ok(cmd) =>
      var w1 := w.(active := w.active + {cmd.id});
      if SkippedDialog(cmd) then Outcome(w1, None)
      else if cmd.isDirty then
        var w2 := w1.(dirty := w1.dirty - {cmd.nodePtr}, calls := w1.calls + [SetDirtyToFalse(cmd.nodePtr)]);
        var found := GetElementById(w2.dom, env.root, cmd.id);
        if found.None? || env.initialRender then Create(env, w2, parent, child, cmd)
        else Update(env, w2, found.value, child, cmd)
      else Traverse(env, w1, GetElementById(w1.dom, env.root, cmd.id), child)
  }

  /** The create path: make, set up, build the subtree, then attach and fire hooks. */
  function Create(env: Env, w: World, parent: string, child: Tree, cmd: RenderCommand): Outcome
    decreases child, 2
  {
    match MakeElement(env, w, cmd)
    case Err(err) => Outcome(w, Some(err))
    case Ok(made) =>
      if made.None? then Outcome(w, None)
      else
        match Setup(env, made.value.0, made.value.1, cmd)
        case Stop(w1, _, err) => Outcome(w1, Some(err))
        case Continue(w1, _) =>
          var o := Traverse(env, w1, Some(cmd.id), child);
          if o.thrown.Some? then o else Outcome(Attach(o.world, parent, cmd), None)
  }

  /** The update path: refresh the element in place, then descend. */
  function Update(env: Env, w: World, id: string, child: Tree, cmd: RenderCommand): Outcome
    requires id in w.dom
    decreases child, 2
  {
    match UpdateStage(env, w, id, cmd)
    case Stop(w1, _, err) => Outcome(w1, Some(err))
    case Continue(w1, _) => Traverse(env, w1, Some(id), child)
  }

  /** `traverseRemove(parent, node)`: direct children only. */
  function TraverseRemove(env: Env, w: World, parent: Option<string>, node: Tree): Outcome
  {
    if parent.None? then Outcome(w, None) else RemoveChildren(env, w, node.children, 0)
  }

  function RemoveChildren(env: Env, w: World, children: seq<Tree>, i: nat): Outcome
    requires i <= |children|
    decreases |children| - i
  {
    if i == |children| then Outcome(w, None)
    else
      var o := RemoveChild(env, w, children[i]);
      if o.thrown.Some? then o else RemoveChildren(env, o.world, children, i + 1)
  }

  /** A dirty child loses its registry entry and its element and is marked clean; reading `.domNode` of a missing entry throws. */
  function RemoveChild(env: Env, w: World, child: Tree): Outcome
  {
    match env.decode(child.cmdPtr, w.dirty)
    case Err(err) => Outcome(w, Some(err))
    case Ok(cmd) =>
      if !cmd.isDirty then Outcome(w, None)
      else if Get(w.registry, cmd.id).None? then Outcome(w, Some(TypeError))
      else
        Outcome(w.(registry := Delete(w.registry, cmd.id),
                   dom := Detach(w.dom, cmd.id),
                   dirty := w.dirty - {cmd.nodePtr},
                   calls := w.calls + [SetDirtyToFalse(cmd.nodePtr)]), None)
  }

  // ---- Properties of the specification ----

  /**
   * What a walk may do to the state: add seen ids, DOM elements, registry
   * keys, engine calls and deferred work, and clear dirty flags. The sheet
   * is not part of it: a walk that throws on a cached hover rule has deleted
   * that rule (`WalkExtendsSheet` covers walks that complete).
   */
  ghost predicate Grows(w: World, w': World)
  {
    w.active <= w'.active && w'.dirty <= w.dirty && w.dom.Keys <= w'.dom.Keys
    && (forall k :: Has(w.registry, k) ==> Has(w'.registry, k))
    && w.calls <= w'.calls && w.deferred <= w'.deferred
    && (forall i :: |w.calls| <= i < |w'.calls| ==> WalkCall(w'.calls[i]))
    && (forall i :: |w.deferred| <= i < |w'.deferred| ==> WalkDeferred(w'.deferred[i]))
  }

  /** The engine calls a walk makes: clearing dirty flags and lifecycle hooks. */
  predicate WalkCall(c: Call)
  {
    c.SetDirtyToFalse? || c.HooksMountedCallback? || c.HooksCreatedCallback? || c.HooksUpdatedCallback?
    || c.CtxHooksMountedCallback?
  }

  /** The work a walk defers: editor set-up and input listeners. */
  predicate WalkDeferred(d: Deferred)
  {
    d.InitJsonEditor? || d.AddInputListener?
  }

  /** A walk that completes without throwing only replaces or appends rules. */
  predicate WalkExtendsSheet(w: World, o: Outcome)
  {
    o.thrown.None? ==> Extends(w.sheet, o.world.sheet)
  }

  lemma GrowsTrans(a: World, b: World, c: World)
    requires Grows(a, b) && Grows(b, c)
    ensures Grows(a, c)
  {
  }

  /**
   * Restyling changes the sheet and the element's className and nothing
   * else; when it does not throw, rules are only replaced or appended.
   */
  lemma RestyleOnlyStyles(env: Env, w: World, e: Element, cmd: RenderCommand)
    ensures var st := Restyle(env, w, e, cmd);
      st.world == w.(sheet := st.world.sheet) && st.element == e.(className := st.element.className)
      && (st.Continue? ==> Extends(w.sheet, st.world.sheet))
  {
    StyleUpdateExtends(w.sheet, env.engine.showScrollBar(cmd.nodePtr), cmd.styleId, cmd.props.css, e);
    var r := StyleUpdate(w.sheet, env.engine.showScrollBar(cmd.nodePtr), cmd.styleId, cmd.props.css, e);
    if r.result.Ok? {
      HoverUpdateExtends(r.sheet, r.element, cmd.styleId, cmd.props.hoverCss);
    }
  }

  /** An input's set-up changes only the sheet and the deferred queue, and keeps the element's identity. */
  lemma ProcessInputOnlyStyles(env: Env, w: World, e: Element, cmd: RenderCommand)
    ensures var r := ProcessInput(env, w, e, cmd);
      r.Ok? ==>
        r.value.0 == w.(sheet := r.value.0.sheet, deferred := r.value.0.deferred)
        && Extends(w.sheet, r.value.0.sheet) && w.deferred <= r.value.0.deferred
        && r.value.1.id == e.id && r.value.1.parent == e.parent && r.value.1.children == e.children
  {
    var r := ProcessInput(env, w, e, cmd);
    if r.Ok? {
      var p := cmd.nodePtr;
      var o := env.engine;
      var view := NewView(env.mem, o.createInput(p), o.inputSize(p)).value;
      var rec := InputRecordAt(env.mem, view, o.inputType(p)).value;
      FinishInputOnlyStyles(env, w, ApplyInput(e, rec), cmd);
    }
  }

  /**
   * A radio with a check-mark pointer reads that node's own css, `len` being
   * what the engine reports for this node: a read past memory is the
   * RangeError, empty css adds no rule, and other css goes to
   * `checkMarkStyling`. Any other input touches no rule.
   */
  lemma CheckMarkReadPerNode(env: Env, w: World, e: Element, cmd: RenderCommand)
    ensures var p := cmd.nodePtr;
      var o := env.engine;
      var css := ReadWasmString(env.mem, o.checkMarkStylePtr(p), o.checkMarkLen(p));
      var r := FinishInput(env, w, e, cmd);
      (o.inputType(p) == 4 && o.checkMarkStylePtr(p) > 0 && css.Err? ==> r == Err(RangeError))
      && (o.inputType(p) == 4 && o.checkMarkStylePtr(p) > 0 && css.Ok? && |css.value| > 0 ==>
            (r.Ok? <==> CheckMarkUpdate(w.sheet, cmd.id, e, css.value).Ok?)
            && (r.Ok? ==> r.value.0.sheet == CheckMarkUpdate(w.sheet, cmd.id, e, css.value).value.0
                          && r.value.1 == CheckMarkUpdate(w.sheet, cmd.id, e, css.value).value.1))
      && (!(o.inputType(p) == 4 && o.checkMarkStylePtr(p) > 0 && css.Ok? && |css.value| > 0) && r.Ok? ==>
            r.value.0.sheet == w.sheet && r.value.1 == e)
  {
  }

  lemma FinishInputOnlyStyles(env: Env, w: World, e: Element, cmd: RenderCommand)
    ensures var r := FinishInput(env, w, e, cmd);
      r.Ok? ==>
        r.value.0 == w.(sheet := r.value.0.sheet, deferred := r.value.0.deferred)
        && Extends(w.sheet, r.value.0.sheet) && w.deferred <= r.value.0.deferred
        && r.value.1 == e.(className := r.value.1.className)
  {
    var p := cmd.nodePtr;
    var o := env.engine;
    if o.inputType(p) == 4 && o.checkMarkStylePtr(p) > 0 {
      var css := ReadWasmString(env.mem, o.checkMarkStylePtr(p), o.checkMarkLen(p));
      if css.Ok? {
        CheckMarkExtends(w.sheet, cmd.id, e, css.value);
      }
    }
  }

  /** A made element is detached, childless and carries the record's id. */
  lemma MadeElementDetached(env: Env, w: World, cmd: RenderCommand)
    ensures var r := MakeElement(env, w, cmd);
      r.Ok? ==>
        (r.value.None? <==> SkippedDialog(cmd))
        && (r.value.Some? ==>
            Grows(w, r.value.value.0) && Extends(w.sheet, r.value.value.0.sheet)
            && r.value.value.0.registry == w.registry && r.value.value.0.dom == w.dom
            && r.value.value.1.id == cmd.id && r.value.value.1.parent == None && r.value.value.1.children == [])
  {
    var base := BaseElement(cmd);
    if base.Some? && cmd.elemType == INPUT {
      ProcessInputOnlyStyles(env, w, base.value, cmd);
    }
  }

  /**
   * `setupElement` stores the element under its id and registers it with its
   * exit animation and destroy hook; the element is not yet in the page.
   */
  lemma SetupRegisters(env: Env, w: World, e: Element, cmd: RenderCommand)
    ensures var st := Setup(env, w, e, cmd);
      Grows(w, st.world) && st.world.calls == w.calls && st.world.active == w.active && st.world.dirty == w.dirty
      && (st.Continue? ==>
            Extends(w.sheet, st.world.sheet) && Get(st.world.registry, cmd.id) == Some(EntryFor(cmd))
            && cmd.id in st.world.dom && st.world.dom[cmd.id] == st.element
            && st.element.id == cmd.id && st.element.parent == e.parent && st.element.children == e.children
            && (forall k :: k in w.dom && k != cmd.id && w.dom[k].parent == Some(cmd.id) ==> st.world.dom[k].parent == None))
  {
    var e0 := e.(id := cmd.id);
    RestyleOnlyStyles(env, w, e0, cmd);
    var st := Restyle(env, w, e0, cmd);
    if st.Continue? {
      SetThenGet(st.world.registry, cmd.id, EntryFor(cmd), cmd.id);
      forall k | Has(w.registry, k) ensures Has(Set(st.world.registry, cmd.id, EntryFor(cmd)), k) {
        SetHas(st.world.registry, cmd.id, EntryFor(cmd), k);
      }
    }
  }

  /** Attaching adds no element and no registry key; it appends the hook calls. */
  lemma AttachGrows(w: World, parent: string, cmd: RenderCommand)
    ensures var w' := Attach(w, parent, cmd);
      Grows(w, w') && w'.dom.Keys == w.dom.Keys && w'.registry == w.registry
      && w'.calls == w.calls + HookCalls(cmd.elemType, HooksOf(cmd))
  {
  }

  /**
   * The update path changes only the element and the sheet: it fires no
   * hooks, registers nothing and adds no element.
   */
  lemma UpdateFiresNoHooks(env: Env, w: World, id: string, cmd: RenderCommand)
    requires id in w.dom
    ensures var st := UpdateStage(env, w, id, cmd);
      st.world == w.(sheet := st.world.sheet, dom := st.world.dom)
      && st.world.dom.Keys == w.dom.Keys && (st.Continue? ==> Extends(w.sheet, st.world.sheet))
      && (forall k :: k in w.dom && k != id ==> st.world.dom[k] == w.dom[k])
      && st.world.dom[id] == st.element && st.element.id == w.dom[id].id
      && st.element.parent == w.dom[id].parent && st.element.children == w.dom[id].children
  {
    var e1 := UpdateContent(w.dom[id], cmd);
    UpdateContentKeeps(w.dom[id], cmd);
    var w1 := w.(dom := w.dom[id := e1]);
    RestyleOnlyStyles(env, w1, e1, cmd);
    var st := Restyle(env, w1, e1, cmd);
    assert st.world.dom == w.dom[id := e1];
    assert st.element.id == e1.id && st.element.parent == e1.parent && st.element.children == e1.children;
    assert UpdateStage(env, w, id, cmd).world.dom == w.dom[id := st.element];
  }

  /** updateElement's content step touches neither the element's id nor its place in the tree. */
  lemma UpdateContentKeeps(e: Element, cmd: RenderCommand)
    ensures var e1 := UpdateContent(e, cmd);
      e1.id == e.id && e1.parent == e.parent && e1.children == e.children
  {
  }

  lemma {:induction false} TraverseGrows(env: Env, w: World, parent: Option<string>, node: Tree)
    ensures Grows(w, Traverse(env, w, parent, node).world)
    ensures WalkExtendsSheet(w, Traverse(env, w, parent, node))
    decreases node, 1
  {
    if parent.Some? {
      ChildrenGrows(env, w, parent.value, node, 0);
    }
  }

  lemma {:induction false} ChildrenGrows(env: Env, w: World, parent: string, node: Tree, i: nat)
    requires i <= |node.children|
    ensures Grows(w, Children(env, w, parent, node, i).world)
    ensures WalkExtendsSheet(w, Children(env, w, parent, node, i))
    decreases node, 0, |node.children| - i
  {
    if i < |node.children| {
      var o := Child(env, w, parent, node.children[i]);
      ChildGrows(env, w, parent, node.children[i]);
      if o.thrown.None? {
        ChildrenGrows(env, o.world, parent, node, i + 1);
        GrowsTrans(w, o.world, Children(env, o.world, parent, node, i + 1).world);
      }
    }
  }

  lemma {:induction false} ChildGrows(env: Env, w: World, parent: string, child: Tree)
    ensures Grows(w, Child(env, w, parent, child).world)
    ensures WalkExtendsSheet(w, Child(env, w, parent, child))
    decreases child, 3
  {
    var r := env.decode(child.cmdPtr, w.dirty);
    if r.Ok? {
      var cmd := r.value;
      var w1 := w.(active := w.active + {cmd.id});
      if SkippedDialog(cmd) {
      } else if cmd.isDirty {
        var w2 := w1.(dirty := w1.dirty - {cmd.nodePtr}, calls := w1.calls + [SetDirtyToFalse(cmd.nodePtr)]);
        var found := GetElementById(w2.dom, env.root, cmd.id);
        if found.None? || env.initialRender {
          CreateGrows(env, w2, parent, child, cmd);
        } else {
          UpdateGrows(env, w2, found.value, child, cmd);
        }
        GrowsTrans(w, w2, Child(env, w, parent, child).world);
      } else {
        TraverseGrows(env, w1, GetElementById(w1.dom, env.root, cmd.id), child);
        GrowsTrans(w, w1, Child(env, w, parent, child).world);
      }
    }
  }

  lemma {:induction false} CreateGrows(env: Env, w: World, parent: string, child: Tree, cmd: RenderCommand)
    ensures Grows(w, Create(env, w, parent, child, cmd).world)
    ensures WalkExtendsSheet(w, Create(env, w, parent, child, cmd))
    decreases child, 2
  {
    MadeElementDetached(env, w, cmd);
    var r := MakeElement(env, w, cmd);
    if r.Ok? && r.value.Some? {
      var made := r.value.value;
      SetupRegisters(env, made.0, made.1, cmd);
      var st := Setup(env, made.0, made.1, cmd);
      GrowsTrans(w, made.0, st.world);
      if st.Continue? {
        TraverseGrows(env, st.world, Some(cmd.id), child);
        var o := Traverse(env, st.world, Some(cmd.id), child);
        GrowsTrans(w, st.world, o.world);
        if o.thrown.None? {
          AttachGrows(o.world, parent, cmd);
          GrowsTrans(w, o.world, Attach(o.world, parent, cmd));
        }
      }
    }
  }

  lemma {:induction false} UpdateGrows(env: Env, w: World, id: string, child: Tree, cmd: RenderCommand)
    requires id in w.dom
    ensures Grows(w, Update(env, w, id, child, cmd).world)
    ensures WalkExtendsSheet(w, Update(env, w, id, child, cmd))
    decreases child, 2
  {
    UpdateFiresNoHooks(env, w, id, cmd);
    var st := UpdateStage(env, w, id, cmd);
    if st.Continue? {
      TraverseGrows(env, st.world, Some(id), child);
      GrowsTrans(w, st.world, Traverse(env, st.world, Some(id), child).world);
    }
  }

  /** A missing parent ends the walk before any record is read. */
  lemma NullParentNoop(env: Env, w: World, node: Tree)
    ensures Traverse(env, w, None, node) == Outcome(w, None)
    ensures TraverseRemove(env, w, None, node) == Outcome(w, None)
  {
  }

  /**
   * Every child whose record reads is recorded as seen this frame, whatever
   * happens below it; a dirty child is marked clean in the engine before any
   * other engine call for it.
   */
  lemma ChildRecordedAndCleaned(env: Env, w: World, parent: string, child: Tree)
    requires env.decode(child.cmdPtr, w.dirty).Ok?
    ensures var cmd := env.decode(child.cmdPtr, w.dirty).value;
      var o := Child(env, w, parent, child).world;
      cmd.id in o.active
      && (cmd.isDirty && !SkippedDialog(cmd) ==>
            cmd.nodePtr !in o.dirty && w.calls + [SetDirtyToFalse(cmd.nodePtr)] <= o.calls)
  {
    var cmd := env.decode(child.cmdPtr, w.dirty).value;
    var w1 := w.(active := w.active + {cmd.id});
    if SkippedDialog(cmd) {
    } else if cmd.isDirty {
      var w2 := w1.(dirty := w1.dirty - {cmd.nodePtr}, calls := w1.calls + [SetDirtyToFalse(cmd.nodePtr)]);
      var found := GetElementById(w2.dom, env.root, cmd.id);
      if found.None? || env.initialRender {
        CreateGrows(env, w2, parent, child, cmd);
      } else {
        UpdateGrows(env, w2, found.value, child, cmd);
      }
    } else {
      TraverseGrows(env, w1, GetElementById(w1.dom, env.root, cmd.id), child);
    }
  }

  /**
   * A dialog button without a dialog id, and in particular every clean
   * dialog button, is recorded as seen and nothing else: no element, no
   * registry entry, no engine call.
   */
  lemma DialogButtonWithoutIdSkipped(env: Env, w: World, parent: string, child: Tree)
    requires Reads(env)
    requires env.decode(child.cmdPtr, w.dirty).Ok?
    ensures var cmd := env.decode(child.cmdPtr, w.dirty).value;
      (cmd.elemType == DIALOG_SHOW || cmd.elemType == DIALOG_CLOSE) && (!cmd.isDirty || |cmd.props.dialogId| == 0) ==>
        Child(env, w, parent, child) == Outcome(w.(active := w.active + {cmd.id}), None)
  {
    assert env.decode(child.cmdPtr, w.dirty) == ReadRenderCommand(env.mem, child.cmdPtr, env.layout, w.dirty, env.engine.style);
  }

  /**
   * A clean child that has no element in the page is recorded and its
   * subtree is not visited, so none of the subtree's ids are recorded.
   */
  lemma CleanChildWithoutElementStops(env: Env, w: World, parent: string, child: Tree)
    requires env.decode(child.cmdPtr, w.dirty).Ok?
    ensures var cmd := env.decode(child.cmdPtr, w.dirty).value;
      !cmd.isDirty && GetElementById(w.dom, env.root, cmd.id).None? ==>
        Child(env, w, parent, child) == Outcome(w.(active := w.active + {cmd.id}), None)
  {
  }

  /**
   * Idempotent reconciliation: when the engine reports no dirty node, a walk
   * only records the ids it meets. No element, registry entry, style rule,
   * engine call or deferred work is added, whether the walk completes or a
   * record fails to read.
   */
  lemma {:induction false} CleanTraverse(env: Env, w: World, parent: Option<string>, node: Tree)
    requires Reads(env) && w.dirty == {}
    ensures var o := Traverse(env, w, parent, node);
      o.world == w.(active := o.world.active) && w.active <= o.world.active
    decreases node, 1
  {
    if parent.Some? {
      CleanChildren(env, w, parent.value, node, 0);
    }
  }

  /** The same for the loop over the children from index i on. */
  lemma {:induction false} CleanChildren(env: Env, w: World, parent: string, node: Tree, i: nat)
    requires Reads(env) && w.dirty == {} && i <= |node.children|
    ensures var o := Children(env, w, parent, node, i);
      o.world == w.(active := o.world.active) && w.active <= o.world.active
    decreases node, 0, |node.children| - i
  {
    if i < |node.children| {
      var o := Child(env, w, parent, node.children[i]);
      CleanChild(env, w, parent, node.children[i]);
      if o.thrown.None? {
        CleanChildren(env, o.world, parent, node, i + 1);
      }
    }
  }

  /** A clean child causes no page or registry change, only its own record and the descent. */
  lemma {:induction false} CleanChild(env: Env, w: World, parent: string, child: Tree)
    requires Reads(env) && w.dirty == {}
    ensures var o := Child(env, w, parent, child);
      o.world == w.(active := o.world.active) && w.active <= o.world.active
    decreases child, 3
  {
    assert env.decode(child.cmdPtr, w.dirty) == ReadRenderCommand(env.mem, child.cmdPtr, env.layout, w.dirty, env.engine.style);
    var r := env.decode(child.cmdPtr, w.dirty);
    if r.Ok? {
      var cmd := r.value;
      var w1 := w.(active := w.active + {cmd.id});
      if !SkippedDialog(cmd) {
        CleanTraverse(env, w1, GetElementById(w1.dom, env.root, cmd.id), child);
      }
    }
  }

  /**
   * While a new element's subtree is built, the element is registered and
   * stored but childless and outside the page, so none of its descendants
   * can be found by id and all of them take the create path.
   */
  lemma SubtreeBuiltDetached(env: Env, w: World, cmd: RenderCommand)
    requires MakeElement(env, w, cmd).Ok? && MakeElement(env, w, cmd).value.Some?
    ensures var made := MakeElement(env, w, cmd).value.value;
      var st := Setup(env, made.0, made.1, cmd);
      st.Continue? ==>
        cmd.id in st.world.dom && st.world.dom[cmd.id].parent == None && st.world.dom[cmd.id].children == []
        && Get(st.world.registry, cmd.id) == Some(EntryFor(cmd))
        && (cmd.id != env.root ==> GetElementById(st.world.dom, env.root, cmd.id) == None)
  {
    MadeElementDetached(env, w, cmd);
    var made := MakeElement(env, w, cmd).value.value;
    SetupRegisters(env, made.0, made.1, cmd);
  }

  /**
   * A created element that does not throw ends up registered and as the last
   * child of its parent, and its hooks are the last engine calls, after
   * every call made for its subtree.
   */
  lemma CreateAttachesAfterSubtree(env: Env, w: World, parent: string, child: Tree, cmd: RenderCommand)
    requires parent in w.dom && parent != cmd.id && !SkippedDialog(cmd)
    requires Create(env, w, parent, child, cmd).thrown.None?
    ensures var o := Create(env, w, parent, child, cmd).world;
      var hooks := HookCalls(cmd.elemType, HooksOf(cmd));
      cmd.id in o.dom && parent in o.dom && o.dom[cmd.id].parent == Some(parent)
      && |o.dom[parent].children| > 0 && o.dom[parent].children[|o.dom[parent].children| - 1] == cmd.id
      && Has(o.registry, cmd.id)
      && |hooks| <= |o.calls| && o.calls[|o.calls| - |hooks|..] == hooks
      && (cmd.elemType == JSON_EDITOR ==> |o.deferred| > 0 && o.deferred[|o.deferred| - 1] == InitJsonEditor(parent, cmd.id))
  {
    MadeElementDetached(env, w, cmd);
    var made := MakeElement(env, w, cmd).value.value;
    SetupRegisters(env, made.0, made.1, cmd);
    var st := Setup(env, made.0, made.1, cmd);
    TraverseGrows(env, st.world, Some(cmd.id), child);
    var o := Traverse(env, st.world, Some(cmd.id), child);
    AttachGrows(o.world, parent, cmd);
  }

  /**
   * The hooks fired on creation: only positive ids, and for a context hooks
   * node only its mounted callback; otherwise mounted comes first and
   * updated last.
   */
  lemma HookCallsOrder(kind: nat, h: Hooks)
    ensures var c := HookCalls(kind, h);
      (kind == HOOKS_CTX ==> |c| <= 1 && (|c| == 1 <==> h.mountedId > 0) && forall x :: x in c ==> x == CtxHooksMountedCallback(h.mountedId))
      && (kind != HOOKS_CTX ==>
            |c| == (if h.mountedId > 0 then 1 else 0) + (if h.createdId > 0 then 1 else 0) + (if h.updatedId > 0 then 1 else 0)
            && (h.mountedId > 0 ==> c[0] == HooksMountedCallback(h.mountedId))
            && (h.updatedId > 0 ==> c[|c| - 1] == HooksUpdatedCallback(h.updatedId))
            && (h.createdId > 0 ==> HooksCreatedCallback(h.createdId) in c)
            && forall x :: x in c ==> !x.CtxHooksMountedCallback?)
  {
  }

  /**
   * Updating a freshly created element with its own record changes nothing
   * (inputs aside, whose value is refreshed from the text), and an update
   * is idempotent.
   */
  lemma UpdateAgreesWithCreate(e: Element, cmd: RenderCommand)
    ensures !SkippedDialog(cmd) && cmd.elemType != INPUT ==>
      UpdateContent(BaseElement(cmd).value, cmd) == BaseElement(cmd).value
    ensures UpdateContent(UpdateContent(e, cmd), cmd) == UpdateContent(e, cmd)
    ensures cmd.elemType == INPUT ==> UpdateContent(e, cmd) == e.(value := cmd.text)
  {
  }

  /**
   * One removal step: a dirty registered child loses its entry and is taken
   * out of the page; a dirty unregistered child throws before any change;
   * a clean one is left alone.
   */
  lemma RemoveChildEffect(env: Env, w: World, child: Tree)
    requires Distinct(w.registry)
    ensures var o := RemoveChild(env, w, child);
      Distinct(o.world.registry) && |w.registry| - 1 <= |o.world.registry| <= |w.registry|
      && (forall k :: Has(o.world.registry, k) ==> Has(w.registry, k))
      && o.world.dom.Keys == w.dom.Keys && o.world.active == w.active && o.world.dirty <= w.dirty
      && w.calls <= o.world.calls && o.world.sheet == w.sheet && o.world.deferred == w.deferred
    ensures var r := env.decode(child.cmdPtr, w.dirty);
      var o := RemoveChild(env, w, child);
      && (r.Err? ==> o == Outcome(w, Some(r.error)))
      && (r.Ok? && !r.value.isDirty ==> o == Outcome(w, None))
      && (r.Ok? && r.value.isDirty ==>
        (Has(w.registry, r.value.id) ==>
           o.thrown.None? && !Has(o.world.registry, r.value.id) && r.value.nodePtr !in o.world.dirty
           && o.world.calls == w.calls + [SetDirtyToFalse(r.value.nodePtr)]
           && (r.value.id in w.dom && r.value.id != env.root ==> GetElementById(o.world.dom, env.root, r.value.id) == None))
        && (!Has(w.registry, r.value.id) ==> o == Outcome(w, Some(TypeError))))
  {
    var r := env.decode(child.cmdPtr, w.dirty);
    if r.Ok? && r.value.isDirty && Has(w.registry, r.value.id) {
      var id := r.value.id;
      DeleteDistinct(w.registry, id);
      forall k | Has(Delete(w.registry, id), k) ensures Has(w.registry, k) {
        DeleteHas(w.registry, id, k);
      }
      DeleteHas(w.registry, id, id);
      if id in w.dom && id != env.root {
        DetachedNotFound(w.dom, env.root, id);
      }
    }
  }

  /**
   * `traverseRemove` deletes at most one registry entry per direct child,
   * adds none, keeps every element object, and leaves the seen ids alone.
   */
  lemma {:induction false} RemoveChildrenBounds(env: Env, w: World, children: seq<Tree>, i: nat)
    requires i <= |children| && Distinct(w.registry)
    ensures var o := RemoveChildren(env, w, children, i).world;
      Distinct(o.registry) && |w.registry| - (|children| - i) <= |o.registry| <= |w.registry|
      && (forall k :: Has(o.registry, k) ==> Has(w.registry, k))
      && o.dom.Keys == w.dom.Keys && o.active == w.active && o.dirty <= w.dirty
      && w.calls <= o.calls && o.sheet == w.sheet && o.deferred == w.deferred
    decreases |children| - i
  {
    if i < |children| {
      RemoveChildEffect(env, w, children[i]);
      var o := RemoveChild(env, w, children[i]);
      if o.thrown.None? {
        RemoveChildrenBounds(env, o.world, children, i + 1);
      }
    }
  }

  lemma ChildrenStep(env: Env, w: World, parent: string, node: Tree, i: nat)
    requires i < |node.children|
    ensures var o := Child(env, w, parent, node.children[i]);
      Children(env, w, parent, node, i) == if o.thrown.Some? then o else Children(env, o.world, parent, node, i + 1)
  {
  }

  lemma RemoveChildrenStep(env: Env, w: World, children: seq<Tree>, i: nat)
    requires i < |children|
    ensures var o := RemoveChild(env, w, children[i]);
      RemoveChildren(env, w, children, i) == if o.thrown.Some? then o else RemoveChildren(env, o.world, children, i + 1)
  {
  }
}
