// What the host sees of the engine beyond its memory: the render tree it
// hands out, the query entry points (as total functions of the node
// pointer), and the state-changing entry points the walk, the sweep and the
// render loop call (as a trace of calls).
module Engine {
  import opened Decoder

  /**
   * A render-tree node: `getRenderCommandPtr(node)` and the nodes returned by
   * `getTreeNodeChild(node, i)` for i below `getTreeNodeChildrenCount(node)`.
   */
  datatype Tree = Tree(cmdPtr: nat, children: seq<Tree>)

  /**
   * The engine's answers to the per-node queries the host makes.
   * `checkMarkLen(node)` is what `getCheckMarkLen()` answers right after
   * `getCheckMarkStylePtr(node)`: the length of that node's check-mark css.
   */
  datatype Oracle = Oracle(
    style: StyleOracle,
    showScrollBar: nat -> int,
    inputType: nat -> nat,
    createInput: nat -> nat,
    inputSize: nat -> nat,
    onInputCallback: nat -> nat,
    checkMarkStylePtr: nat -> nat,
    checkMarkLen: nat -> nat)

  /** Entry points that change the engine's state, in call order. */
  datatype Call =
    | SetDirtyToFalse(nodePtr: nat)
    | HooksMountedCallback(id: nat)
    | HooksCreatedCallback(id: nat)
    | HooksUpdatedCallback(id: nat)
    | CtxHooksMountedCallback(id: nat)
    | HooksDestroyCallback(id: nat)
    | AllocUint8(size: nat)           // the region `allocString` asks for
    | RenderCommands(route: string)   // on the pointer `allocString(route)` returned
    | PendingClassesToAdd
    | PendingClassesToRemove
    | ResetRerender
    | ResetGrainRerender
    | MarkAllNonLayoutNodesDirty

  /** Work queued with requestAnimationFrame, in queue order. */
  datatype Deferred =
    | InitJsonEditor(parentId: string, elementId: string)
    | AddInputListener(key: string, elementId: string, callback: nat)
    | CleanUp
    | SetRerenderTrue
    | NextFrame
}
