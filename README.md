# fabric-basic browser host, modelled in Dafny

The fabric-basic page runs a UI engine compiled to WebAssembly and renders
its output into the browser DOM. The JavaScript host does five things, and
this project models each of them:

- **Decoding.** It reads a layout descriptor and the engine's render-command
  records out of the instance's linear memory (`wasi_obj.js`).
- **Walking.** It walks the engine's render tree and creates, updates or
  removes DOM elements (`web/traversal.js`). A registry maps node ids to
  their elements.
- **Styling.** It keeps one stylesheet whose rules are cached by class name
  (`web/wasi_styling.js`).
- **Sweeping.** Each animation frame it runs a render loop (`wasi_obj.js`).
  Nodes that were not seen in the frame are removed, directly or after an
  exit animation.
- **Imports.** It supplies the engine's imports (`web/wasi_env.js`): the
  WASI calls `fd_write`, `clock_time_get` and `poll_oneoff`, a dimension
  cache, style mutation, cookies, event-listener keys and navigation.

Memory is a `seq<uint8>`. Where the source works on the buffer in place,
memory is an `array<uint8>`. A read follows the source's typed-array and
DataView rules: a window outside the buffer, or a misaligned `Uint32Array`,
gives an `Err(RangeError)` instead of a value.

Engine exports are oracles or entries in a recorded call trace:
`getDirtyValue`, the style and hover string pointers, `renderCommands`,
`setDirtyToFalse`, the hook callbacks and `resetRerender`. Browser calls
are recorded too: `requestAnimationFrame` work, `clearInterval` and
`history.pushState`.

The model is split by role:

- **Specification functions.** Walks, passes, stylesheet updates and host
  imports are pure functions on values.
- **Stateful classes.** The objects the source updates in place are
  classes with `modifies` clauses: the renderer state (`Runtime.Renderer`),
  the stylesheet (`Styling.StyleSheet`), the removal queue
  (`Queue.RemovalQueue`), the dimension cache (`HostEnv.DimensionCache`),
  the per-route interval table (`Intervals.RouteIntervals`), the WebAssembly
  instance memory (`Wasm.Instance`), and `fd_write`/`clock_time_get` on the
  memory array. Each method is proved equal to its specification function.
- **Properties.** These are proved as lemmas about the specification
  functions.

Modules:

- `Wrappers`: `Option` and `Result`.
- `Memory`: little-endian words, views and `readWasmString`.
- `Utf8`: `TextEncoder`.
- `Wasm`: `allocString`, `encodeString` and `rerenderRoute`.
- `Layout`: the descriptor.
- `Decoder`: `readRenderCommand`.
- `Input`: the input sub-record.
- `Text`: `split`, `join` and `filter(Boolean)`.
- `Dom`: elements and the live tree.
- `Registry`: the ordered `domNodeRegistry` Map.
- `Keys`: listener and hook keys.
- `Styling`: the stylesheet.
- `Engine`: engine oracles and the call trace.
- `Traversal`: `traverse` and `traverseRemove` as functions.
- `Lifecycle`: destroy hooks, the removal passes and exit animations.
- `Queue`: the removal queue.
- `Frames`: one `renderLoop` turn.
- `Runtime`: the imperative renderer.
- `DupKeys`: the JSON editor's duplicate-key scan.
- `Wasi`: the WASI imports.
- `Intervals`: per-route intervals.
- `HostEnv`: dimensions, style values and cookies.
- `Navigation`: navigateWASM and the link click.

## Model

A specification function that only computes has no contract of its own;
the row of the lemma about it names it in the third column.

| member | source | states |
|---|---|---|
| Memory.LE32 | wasi_obj.js:624 | a little-endian u32 read is below 2^32 |
| Memory.LE64 | web/wasi_env.js:44-47 | a little-endian u64 read is below 2^64 |
| Memory.EncodeLE32 | web/wasi_env.js:89 | the four stored bytes read back as the value |
| Memory.EncodeLE64 | web/wasi_env.js:29 | the eight bytes setBigUint64 stores read back as the value |
| Memory.LE32Slice | wasi_obj.js:618-624 | a u32 read depends only on its four bytes |
| Memory.Store | web/wasi_env.js:76-93 | storing bytes sets exactly that window and keeps every other byte and the length |
| Memory.NewView | wasi_obj.js:618-622 | a DataView exists iff its window lies in the buffer |
| Memory.GetUint32 | wasi_obj.js:624-654 | getUint32 succeeds iff the view is in the buffer and the 4 bytes are in the view; the value is the LE word |
| Memory.GetUint8 | wasi_obj.js:636 | getUint8 succeeds iff the view is in the buffer and the offset is inside it; the value is that byte |
| Memory.Widen | wasi_obj.js:744-747 | decoding keeps the length and maps each byte to its code point |
| Memory.ReadWasmString | wasi_obj.js:744-747 | readWasmString succeeds iff ptr+len fits in memory and yields those bytes |
| Memory.ReadOptString | wasi_obj.js:639-645 | a null pointer yields "" and any other pointer reads len bytes |
| Memory.LE32AfterStore | web/wasi_env.js:89 | a u32 stored and read back is the same value |
| Memory.LE64AfterStore | web/wasi_env.js:26-31 | a u64 stored and read back is the same value |
| Utf8.EncodeChar | wasi_obj.js:228 | one to four bytes; one byte exactly for ASCII, and then it is the code point; multi-byte encodings have the high bit set |
| Utf8.Encode | wasi_obj.js:228 | the encoding is at least as long as the text |
| Utf8.DecodeFirst | wasi_obj.js:228 | the decoder consumes between 1 and the available bytes |
| Utf8.EncodeCharDecodes | wasi_obj.js:228 | decoding the encoding of a character gives it back with its byte count |
| Utf8.TwoByteDecodes | wasi_obj.js:228 | two-byte characters decode back |
| Utf8.ThreeByteDecodes | wasi_obj.js:228 | three-byte characters decode back |
| Utf8.FourByteDecodes | wasi_obj.js:228 | four-byte characters decode back |
| Utf8.DecodeEncode | wasi_obj.js:228 | decoding inverts TextEncoder for every string |
| Utf8.ZeroByteIffNul | wasi_obj.js:228 | the encoding contains a 0 byte iff the text contains U+0000 |
| Utf8.AsciiEncodesToItself | wasi_obj.js:228 | ASCII text encodes to its own code points, one byte each |
| Wasm.CString | wasi_obj.js:228-236 | the region holds the UTF-8 bytes followed by a single 0 |
| Wasm.CStrLen | wasi_obj.js:228-236 | the length found is the position of the first 0 byte |
| Wasm.CStringRoundTrip | wasi_obj.js:228-236 | a NUL-free string read back as a C string decodes to itself |
| Wasm.Instance.constructor | wasi_obj.js:151-184 | fresh zeroed memory of the given size and an empty call log |
| Wasm.Instance.WriteCString | wasi_obj.js:227-238 | allocUint8(utf8 length + 1) is called; the bytes and the 0 land at the granted pointer, or a RangeError leaves memory as it was |
| Wasm.Instance.AllocString | wasi_obj.js:227-238 | allocString returns the granted pointer with the string stored there, or fails without changing memory |
| Wasm.Instance.EncodeString | wasi_obj.js:188-199 | encodeString and navToRoute store the route and then call setRouteRenderTree with its pointer |
| Wasm.Instance.RerenderRoute | wasi_obj.js:201-212 | rerenderRoute stores the route and calls callRouteRenderCycle with its pointer |
| Layout.Fields | wasi_obj.js:248-364 | the descriptor has its fixed number of fields |
| Layout.Word | wasi_obj.js:248-364 | a descriptor word reads iff it fits in memory, and it is the LE word |
| Layout.ReadLayout | wasi_obj.js:248-364 | the descriptor reads iff all its words fit; field k is the k-th word |
| Layout.ReadLayoutOfStored | wasi_obj.js:248-364 | the words in memory determine the layout read |
| Decoder.StrAt | wasi_obj.js:639-645 | a pointer and length pair in the record: both words in the view, "" for null, else exactly len bytes |
| Decoder.ReadBox | wasi_obj.js:628-633 | the box reads iff the view lies in memory and its 16 bytes lie in the view; the four values are the LE words at offsets 0, 4, 8 and 12; a failure is a RangeError |
| Decoder.ReadHooks | wasi_obj.js:675-680 | the four hook words are read at hooksOffset within the record |
| Decoder.ReadGuarded | wasi_obj.js:698-711 | a guarded string is None for a null pointer, else the string it points to |
| Decoder.ReadDirtyPart | wasi_obj.js:670-716 | the dirty-only fields: css, hover only behind a non-zero flag byte, style id, exit animation, hooks and dialog id |
| Decoder.ReadCommon | wasi_obj.js:616-668 | the always-read fields: node pointer, text, href, id, kind, show, box and button id, in source order |
| Decoder.ReadRenderCommand | wasi_obj.js:616-742 | the record is dirty iff the engine says so; clean records keep dirty-only fields at their defaults; dirty records carry hooks |
| Decoder.StringFields | wasi_obj.js:639-668 | text, href and id are "" for a null pointer, else len bytes from ptr |
| Decoder.AlwaysReadFields | wasi_obj.js:616-668 | reading a record as clean gives the same always-read fields |
| Decoder.DirtyHooks | wasi_obj.js:675-680 | created, mounted, updated and destroy are the four words at hooksOffset |
| Decoder.DirtyCss | wasi_obj.js:671-673 | the css is the engine's style string for the node |
| Decoder.DirtyDialogId | wasi_obj.js:682-684 | the dialog id comes from the props block |
| Decoder.DirtyHover | wasi_obj.js:686-696 | the hover css is fetched only when the hover byte is non-zero, else "" |
| Decoder.DirtyExitAnimation | wasi_obj.js:698-705 | the exit animation is None for a null pointer, else the string read |
| Decoder.DirtyStyleId | wasi_obj.js:707-711 | the style id is "" for a null pointer, else the string read |
| Input.ReadInputRecord | web/traversal.js:86-247 | the cursor walk over the input record equals the field-offset definition |
| Input.ApplyInput | web/traversal.js:86-264 | setting up an input touches only its attributes and value |
| Input.ToLong | web/traversal.js:142-152 | the `long` conversion of a length word: words below 2^31 are kept, words from 2^31 up wrap to negative values |
| Input.LengthAt | web/traversal.js:142-152 | a length word is accepted iff it lies in the view and is below 2^31; a word from 2^31 up throws IndexSizeError from its setter, a word outside the view RangeError |
| Input.LengthWordsThrow | web/traversal.js:124-244 | a text, password or email record throws IndexSizeError iff the strings before the lengths were read and minLength at 44 is negative as a `long`, or, that accepted, maxLength at 52 is; a refused minLength throws before maxLength is read |
| Input.NameAt | web/traversal.js:98-109 | the name pointer is at byte 8 and the length at byte 12; the name is absent iff the pointer is 0 |
| Input.TextLikeLayout | web/traversal.js:124-244 | text, password and email: placeholder at 20/24, value at 32/36, minLength at 44, maxLength at 52, both lengths below 2^31 in a record read without error |
| Input.NumberAndRadioLayout | web/traversal.js:112-180 | number inputs read the words at 20 and 28; radio inputs read a value pair at 20/24 |
| Input.TypeSetByKind | web/traversal.js:86-247 | the element's type is set exactly for the six known codes |
| Input.InputPropsByField | web/traversal.js:112-155 | a zero word sets nothing; non-zero lengths (all below 2^31, the larger ones having thrown in Input.LengthAt) set minLength and maxLength; a non-zero maxLength overwrites the ariaValueMin set from minLength; the name is set iff present |
| Text.Split | wasi_obj.js:578 | split gives at least one piece and no piece holds the separator |
| Text.NonEmpty | wasi_obj.js:578 | filter(Boolean) keeps the non-empty pieces, in order |
| Text.LastToken | web/wasi_styling.js:81 | split(" ").pop() has no space |
| Text.JoinSplit | wasi_obj.js:578-579 | joining the split pieces gives the string back |
| Text.SplitSep | wasi_obj.js:578 | a leading separator yields a leading empty piece |
| Text.SplitConcat | wasi_obj.js:578 | splitting p + c + s gives p and then the pieces of s |
| Text.SplitNoSep | wasi_obj.js:578 | a separator-free string splits to itself |
| Text.SplitJoin | wasi_obj.js:578-579 | splitting a join of separator-free pieces gives the pieces back |
| Text.NonEmptyConcat | wasi_obj.js:578 | filtering distributes over concatenation |
| Text.NonEmptyKeepsNonEmpty | wasi_obj.js:578 | filtering non-empty pieces keeps them all |
| Dom.CreateElement | web/traversal.js:558 | a new element has the tag, no id, no class, no parent and no children |
| Dom.SetAttr | web/traversal.js:86-264 | setting a property gives that attribute the value, keeps every other attribute, and changes nothing else of the element |
| Dom.Dedup | web/wasi_styling.js:131 | class-token dedup keeps only unseen tokens, keeps each of them, and leaves no repeats |
| Dom.TokensPlain | web/wasi_styling.js:131 | the class tokens, split on ASCII whitespace (tab, LF, FF, CR, space), are non-empty and hold no ASCII whitespace |
| Dom.TabSeparatesTokens | web/wasi_styling.js:131 | example: a tab separates two class tokens as a space does |
| Dom.AddClassHasToken | web/wasi_styling.js:131 | AddClass (classList.add) of a token free of ASCII whitespace: after it the token is present, as is every earlier class |
| Dom.DedupDistinct | web/wasi_styling.js:131 | a duplicate-free token list is unchanged |
| Dom.GetElementById | web/traversal.js:861 | an element is found iff it is attached under the root |
| Dom.Detach | web/traversal.js:927 | remove() unlinks the element from its parent; every element object, listener and class is kept |
| Dom.DetachedNotFound | web/traversal.js:927 | a removed element is no longer found by id |
| Dom.Replace | web/traversal.js:864-867 | a newly created element takes the id; the children of the old object with that id no longer hang under the id, and every other element is unchanged |
| Dom.ReplacedChildrenNotFound | web/traversal.js:864-874 | a child of the replaced element is not found by id, either after the replacement or after the new element is appended |
| Dom.AppendChild | web/traversal.js:875 | appendChild moves the child to be the parent's last child |
| Dom.AppendedIsFound | web/traversal.js:875 | a child appended under a found parent is found |
| Dom.ConnectedAfterAppend | web/traversal.js:875 | appending moves no other element out of the page |
| Registry.Keys | maps.js:2 | the Map's keys, in insertion order |
| Registry.Get | maps.js:2 | get returns a value iff the key is present, and the value stored with it |
| Registry.Delete | wasi_obj.js:547 | delete leaves no pair with that key and adds no pair |
| Registry.SetThenGet | web/traversal.js:790-794 | Set (registry.set): after it the key maps to the new value and every other key keeps its value |
| Registry.SetKeys | web/traversal.js:790-794 | set keeps the key order on a present key and appends a new key |
| Registry.SetDistinct | web/traversal.js:790-794 | set keeps the keys distinct |
| Registry.DeleteThenGet | wasi_obj.js:547 | after delete the key is absent and the other keys keep their values |
| Registry.SetHas | web/traversal.js:790-794 | has after set: the old keys and the new key |
| Registry.DeleteHas | wasi_obj.js:547 | has after delete: the old keys without the deleted one |
| Registry.DeleteDistinct | wasi_obj.js:547 | delete drops exactly one pair of a present key |
| Keys.Decimal | web/wasi_env.js:169 | String(n) is non-empty decimal digits, and "0" exactly for 0 |
| Keys.DecimalInjective | web/wasi_env.js:169 | different numbers print differently |
| Keys.PlainNeverInst | web/wasi_env.js:169-215 | a plain listener key never equals an instance listener key |
| Keys.PlainKeyInjective | web/wasi_env.js:169-215 | PlainKey (`fb-evt-hd-${id}-${elementId}`): a plain key names one (callback id, element id) pair |
| Keys.InstKeyInjective | web/wasi_env.js:188-195 | InstKey (`fb-inst-evt-hd-${id}-${elementId}`): an instance key names one (callback id, element id) pair |
| Keys.SplitAtFirst | web/wasi_env.js:169 | a separator found in neither head splits a joined string uniquely |
| Keys.SplitAtLast | web/wasi_env.js:959 | a separator found in neither tail splits a joined string uniquely |
| Keys.HookKeyInjective | web/wasi_env.js:957-964 | HookKey (`${endpoint}-${id}`): a hook key names one (endpoint, hook id) pair, even when the endpoint contains "-" |
| Styling.InsertRuleAt | web/wasi_styling.js:7-15 | insertRule succeeds iff the index is at most the length and the rule text parses; IndexSizeError for a bad index, else SyntaxError; on success the rule is placed and the others shift |
| Styling.DeleteRuleAt | web/wasi_styling.js:26-41 | deleteRule fails iff the index is not below the length; otherwise later rules shift down |
| Styling.ReplaceRuleAt | web/wasi_styling.js:26-41 | delete-then-insert succeeds iff the index names a rule and the new text parses, and then replaces exactly that rule; a bad index changes nothing; an unparsable rule leaves the old one deleted and the later rules moved down |
| Styling.ComponentClassStarts | web/wasi_styling.js:24 | the component class always names an identifier, so its rules parse |
| Styling.StyleUpdateThrows | web/wasi_styling.js:18-90 | StyleUpdate (updateComponentStyle), with a consistent cache: throws iff it adds a rule whose class names no identifier; the error is a SyntaxError and the sheet is unchanged |
| Styling.StyleUpdateKeepsValid | web/wasi_styling.js:18-90 | every branch keeps each cached index pointing at a rule |
| Styling.CachedClassReplacedInPlace | web/wasi_styling.js:26-32 | a cached component class has its rule rewritten in place; nothing else moves |
| Styling.SpecifiedCachedRewritesRuleZero | web/wasi_styling.js:33-41 | when only the specified class is cached, rule 0 is the one rewritten, as written |
| Styling.FreshComponentAppends | web/wasi_styling.js:43-65 | a fresh component gets its rule appended and cached, plus the scrollbar rule iff showScrollBar is 0 |
| Styling.RestyleIsStable | web/wasi_styling.js:18-65 | a second update of a fresh component with the same style leaves the sheet unchanged |
| Styling.SpecifiedClassAppends | web/wasi_styling.js:66-74 | a specified class on a non-icon is adopted first; it is then appended and cached, or throws SyntaxError with the sheet unchanged when it names no identifier |
| Styling.ExistingClassAppends | web/wasi_styling.js:75-85 | icons and pre-classed elements: the element is untouched; a last token that names an identifier gets its rule appended, cached under the whole className; any other last token (an empty className, a trailing space) throws SyntaxError and changes nothing |
| Styling.EmptyIconClassThrows | web/wasi_styling.js:75-85 | an icon with an empty className and an uncached style id throws SyntaxError and changes nothing |
| Styling.HoverRuleKeyed | web/wasi_styling.js:139-173 | HoverUpdate (applyHoverClass): throws iff the rule text does not parse, and then a SyntaxError; cached under hover-id the rule is rewritten in place, or stays deleted with the later rules moved down on a throw; uncached it is appended and cached, or nothing changes on a throw |
| Styling.HoverRuleText | web/wasi_styling.js:143-167 | HoverSelector: the structured hover rule has exactly the text applyHoverClass builds, selector then " { " hover " }" |
| Styling.HoverFailureLeavesStaleCache | web/wasi_styling.js:159-164 | a failed re-insert of a cached hover rule leaves a cache entry naming no rule |
| Styling.CheckMarkOnce | web/wasi_styling.js:92-137 | CheckMarkUpdate (checkMarkStyling): never throws; both :checked rules and the class are added once; a cached class makes it a no-op; nothing is cached |
| Styling.KeyframesAppended | web/wasi_styling.js:7-15 | keyframes are appended as the last rule |
| Styling.StyleUpdateExtends | web/wasi_styling.js:18-90 | only className changes on the element; an update that returns only replaces or appends rules; one that throws leaves at most one rule fewer |
| Styling.HoverUpdateExtends | web/wasi_styling.js:139-173 | a hover update that does not throw only replaces or appends rules; one that throws leaves at most one rule fewer |
| Styling.CheckMarkExtends | web/wasi_styling.js:92-137 | check-mark styling only appends rules and changes only className |
| Styling.StyleSheet.constructor | web/wasi_styling.js:2-5 | an empty sheet and an empty cache |
| Styling.StyleSheet.InsertRule | web/wasi_styling.js:7-15 | the sheet after insertRule, or unchanged with IndexSizeError or SyntaxError |
| Styling.StyleSheet.DeleteRule | web/wasi_styling.js:26-41 | the sheet after deleteRule, or unchanged with IndexSizeError |
| Styling.StyleSheet.ReplaceRule | web/wasi_styling.js:26-41 | the in-place delete-then-insert equals ReplaceRuleAt, its partial state on a throw included |
| Styling.StyleSheet.UpdateComponentStyle | web/wasi_styling.js:18-90 | the in-place update equals the specification function, including its error |
| Styling.StyleSheet.ApplyHoverClass | web/wasi_styling.js:139-173 | the in-place update equals the hover specification |
| Styling.StyleSheet.CheckMarkStyling | web/wasi_styling.js:92-137 | the in-place update equals the check-mark specification |
| Styling.StyleSheet.AddKeyframes | web/wasi_styling.js:7-15 | the in-place update equals the keyframes specification |
| Traversal.BaseElement | web/traversal.js:553-765 | None iff a dialog button has no dialog id; otherwise a detached childless element under the record's id, carrying its text where the kind does |
| Traversal.KindElement | web/traversal.js:553-765 | each kind's element is detached and childless; text-carrying kinds get the text |
| Traversal.RestyleOnlyStyles | web/traversal.js:802-830 | restyling changes only the sheet and className; a restyle that does not throw only replaces or appends rules |
| Traversal.ProcessInputOnlyStyles | web/traversal.js:86-264 | ProcessInput (input set-up) changes only the sheet and the deferred work, and keeps id and tree position |
| Traversal.FinishInputOnlyStyles | web/traversal.js:248-264 | the end of input set-up changes only the sheet, the deferred work and className |
| Traversal.CheckMarkReadPerNode | web/traversal.js:166-180 | a radio with a check-mark pointer reads that node's own css with the length the engine reports for that node: RangeError past memory, no rule for empty css, otherwise exactly checkMarkStyling's rules and class; other inputs add no rule |
| Traversal.EmbeddedLinkAttrs | web/traversal.js:688-699 | an embedded stylesheet or icon is a `link` element whose only attributes are its rel and href |
| Traversal.MadeElementDetached | web/traversal.js:553-765 | a made element is detached, childless and has the record's id; the registry and DOM are untouched |
| Traversal.SetupRegisters | web/traversal.js:772-795 | setupElement stores the element and registers its exit animation and destroy hook; the children of an old element under that id are unlinked; styling that throws ends it before the registry is touched |
| Traversal.AttachGrows | web/traversal.js:874-893 | attaching adds no element and no key, and appends the creation hooks |
| Traversal.UpdateFiresNoHooks | web/traversal.js:898-904 | the update path fires no hooks and changes only that element and the sheet; the element is stored even when styling throws; the sheet only grows when it does not |
| Traversal.UpdateContentKeeps | web/traversal.js:804-816 | the content step keeps id, parent and children |
| Traversal.TraverseGrows | web/traversal.js:836-911 | Traverse (traverse): a walk only extends calls, deferred work and seen ids; a walk that does not throw only replaces or appends rules; Traversal.CleanTraverse states that a walk with no dirty node changes nothing but the seen ids |
| Traversal.ChildrenGrows | web/traversal.js:841-910 | the child loop only extends them, and the sheet when it does not throw |
| Traversal.ChildGrows | web/traversal.js:841-910 | one child step only extends them, and the sheet when it does not throw |
| Traversal.CreateGrows | web/traversal.js:862-893 | the create path only extends them, and the sheet when it does not throw |
| Traversal.UpdateGrows | web/traversal.js:898-904 | the update path only extends them, and the sheet when it does not throw |
| Traversal.NullParentNoop | web/traversal.js:836-837 | a missing parent ends both walks before any read |
| Traversal.ChildRecordedAndCleaned | web/traversal.js:842-860 | every decoded child is recorded as seen; a dirty child is marked clean before any other engine call for it |
| Traversal.DialogButtonWithoutIdSkipped | web/traversal.js:849-856 | a dialog button without a dialog id is only recorded as seen |
| Traversal.CleanChildWithoutElementStops | web/traversal.js:905-909 | a clean child with no element stops the descent |
| Traversal.CleanTraverse | web/traversal.js:836-911 | idempotent reconciliation: with no dirty node, a walk changes nothing but the set of seen ids (no element, registry entry, rule, engine call or deferred work), whether it completes or a record fails to read |
| Traversal.CleanChildren | web/traversal.js:841-910 | the same for the child loop from any index |
| Traversal.CleanChild | web/traversal.js:905-909 | a clean child causes no page or registry change: only its own id is recorded and the walk descends |
| Traversal.SubtreeBuiltDetached | web/traversal.js:862-874 | while its subtree is built, a new element is registered but outside the page |
| Traversal.CreateAttachesAfterSubtree | web/traversal.js:863-897 | a created element ends up as the parent's last child and registered; its hooks are the last calls; the JSON editor set-up is deferred |
| Traversal.HookCallsOrder | web/traversal.js:882-897 | only positive hook ids fire; context nodes fire only mounted; otherwise mounted first and updated last |
| Traversal.UpdateAgreesWithCreate | web/traversal.js:802-830 | updating a fresh element with its own record changes nothing except an input's value; the update is idempotent |
| Traversal.RemoveChildEffect | web/traversal.js:913-931 | RemoveChild: a decode error is rethrown with nothing changed; a clean child is untouched; a dirty registered child is marked clean, loses its entry and its place in the page; a dirty unregistered child throws TypeError first |
| Traversal.RemoveChildrenBounds | web/traversal.js:913-931 | traverseRemove deletes at most one entry per child, adds none, and keeps every element object |
| Lifecycle.DestroyCalls | wasi_obj.js:488-498 | one destroy callback at most per registry entry |
| Lifecycle.DestroyCallsExactly | wasi_obj.js:488-498 | a destroy hook is called iff an inactive entry has that id |
| Lifecycle.DestroyCallsAppend | wasi_obj.js:488-498 | the calls follow registry order |
| Lifecycle.ActiveEntryCallsNothing | wasi_obj.js:488-498 | an active entry contributes no call |
| Lifecycle.Collect | wasi_obj.js:544-550 | only unkept entries are queued, at most one per entry |
| Lifecycle.CollectStep | wasi_obj.js:544-550 | one visit: kept entries are skipped; an unkept entry is queued and deleted |
| Lifecycle.CollectKeeps | wasi_obj.js:544-550 | a key remains iff it was present and kept or unvisited; kept values stay |
| Lifecycle.CollectQueues | wasi_obj.js:544-550 | the queue holds exactly the visited unkept pairs |
| Lifecycle.CollectAll | wasi_obj.js:544-550 | over the whole registry, only kept keys remain and every other key is queued |
| Lifecycle.CollectDistinct | wasi_obj.js:544-550 | a registry with distinct keys gives a queue with distinct ids |
| Lifecycle.FindIndex | wasi_obj.js:531 | findIndex returns the first match, or -1 when there is none |
| Lifecycle.RemoveByIdSwapSpec | wasi_obj.js:530-538 | RemoveByIdSwap: no match changes nothing; a match removes exactly that item, the last item fills the hole, other slots keep theirs |
| Lifecycle.SwapPop | wasi_obj.js:533-535 | swap-then-pop removes exactly arr[idx] from the multiset |
| Lifecycle.RemoveByIdSwapClears | wasi_obj.js:530-538 | with distinct ids the swap-remove leaves no item naming the id and keeps the ids distinct |
| Lifecycle.RemoveByIdSwapKeepsAbsent | wasi_obj.js:530-538 | the swap-remove moves only the last item, into the hole, so an id absent from a position on stays absent |
| Lifecycle.RemoveByIdSwapKeepsOthers | wasi_obj.js:530-538 | the swap-remove keeps every copy of an item naming another id |
| Lifecycle.StripTreeEffect | wasi_obj.js:523-528 | StripTree (removeAnimatedNodeTree) on a queue with distinct ids: no item naming a node below the element remains, every other item remains as often as it was queued, nothing is added, and the ids stay distinct |
| Lifecycle.StripTreeRemoves | wasi_obj.js:523-528 | with distinct ids, no item naming a node below the element survives |
| Lifecycle.StripTreeKeeps | wasi_obj.js:523-528 | an item naming no node below the element is kept |
| Lifecycle.StripTreeKeepsAbsent | wasi_obj.js:523-528 | an id absent from a position on stays absent |
| Lifecycle.StripTreeDistinct | wasi_obj.js:523-528 | stripping keeps the ids distinct |
| Lifecycle.StripTreeShrinks | wasi_obj.js:523-528 | stripping a subtree only takes items out of the queue (its removals are StripTreeEffect) |
| Lifecycle.StripChildrenShrinks | wasi_obj.js:523-528 | the same for a list of children |
| Lifecycle.ArmExit | wasi_obj.js:564-566 | arming an exit changes only that element and keeps the tree |
| Lifecycle.Schedule | wasi_obj.js:553-572 | the forEach with a shrinking queue keeps every element object (its effect per item is ScheduleItemEffect and ScheduleVisitEffect) |
| Lifecycle.Visit | wasi_obj.js:551-570 | the callback on one item arms its exit (animated) or detaches its element (otherwise) and keeps every element object; its effect on the item is ScheduleItemEffect and ScheduleVisitEffect |
| Lifecycle.ScheduleSplit | wasi_obj.js:553-572 | the walk up to a position and then on from it is the whole walk |
| Lifecycle.ScheduleFrame | wasi_obj.js:553-572 | an element no item from a position on names keeps everything but its children |
| Lifecycle.ScheduleLeavesOthers | wasi_obj.js:553-572 | an element no queued item names keeps everything but its children |
| Lifecycle.ScheduleQueue | wasi_obj.js:553-572 | the walk only takes items out of the queue and keeps its ids distinct |
| Lifecycle.PlainPrefix | wasi_obj.js:567-571 | without animated items up to a position the queue is untouched and an element none of them names keeps all but its children |
| Lifecycle.ScheduleItemEffect | wasi_obj.js:553-572 | in a queue of distinct ids, an item no animated item precedes ends armed (listener and exit class added, parent kept) if animated, else detached with listeners and classes kept |
| Lifecycle.ScheduleVisitEffect | wasi_obj.js:553-572 | in a queue of distinct ids, the item forEach finds at a position is armed or detached as its kind says, against the document at that point, and later visits leave it but its children alone |
| Lifecycle.NoAnimationDetachesAll | wasi_obj.js:553-572 | without exit animations every queued element is detached |
| Lifecycle.DetachedStaysDetached | wasi_obj.js:553-572 | detaching others keeps a detached element detached |
| Lifecycle.SwapSkipsQueuedItem | wasi_obj.js:523-572 | as written, a swap can move an unvisited item behind the forEach, which never detaches it |
| Lifecycle.SkipSteps | wasi_obj.js:523-572 | example: the steps of the skip walk |
| Lifecycle.SkipStripB | wasi_obj.js:523-538 | example: the strip step of the skip walk |
| Lifecycle.SkipExample | wasi_obj.js:540 | example: the skip queue, two animated items and one plain item |
| Lifecycle.AnimationEnd | wasi_obj.js:558-563 | animationend keeps every element object |
| Lifecycle.Drop | wasi_obj.js:558-563 | dropping a listener removes it and keeps the others |
| Lifecycle.AnimationEndDetaches | wasi_obj.js:558-563 | the element leaves the page iff it was armed for that name, and the listener goes with it |
| Lifecycle.ArmExitArms | wasi_obj.js:558-566 | an armed element has the exit class and the listener, and stays in place |
| Lifecycle.LayoutIdOfSegments | wasi_obj.js:577-580 | the layout kept for "/s1/../sn" is the layout of "/s1/../s(n-1)" |
| Queue.RemovalQueue.constructor | wasi_obj.js:540 | the queue starts empty |
| Queue.RemovalQueue.RemoveByIdSwap | wasi_obj.js:530-538 | the in-place swap-remove equals its specification |
| Queue.RemovalQueue.RemoveAnimatedNodeTree | wasi_obj.js:523-528 | the recursive in-place strip equals StripTree, whose effect StripTreeEffect states |
| Queue.RemovalQueue.RemoveChildTree | wasi_obj.js:525-527 | one loop iteration: remove the child, then its subtree |
| Frames.RoutePathSharing | wasi_obj.js:453-458 | only "/" and "/root" share a route, and "/" is never sent |
| Frames.DestroyHooks | wasi_obj.js:488-498 | callDestroyFncs only appends calls |
| Frames.RemoveNodesKeeps | wasi_obj.js:541-573 | RemoveNodes (removeInactiveNodes) keeps exactly the active keys, unchanged, and changes only the registry and DOM |
| Frames.RemoveRouteNodesKeepsLayout | wasi_obj.js:575-611 | removeRouteSpecificNodes keeps only the parent layout's entry |
| Frames.GlobalBeatsGrain | wasi_obj.js:448-479 | a global rerender ignores the grain flag |
| Frames.SweepCalls | wasi_obj.js:463-476 | after the walk come the two pending-class calls and then only destroy hooks |
| Frames.RouteBytes | wasi_obj.js:227-236 | the size allocString asks for is exactly the zero-terminated string Wasm.Instance.AllocString writes (Wasm.CString); for a route without U+0000 the first 0 byte is the last one, and the bytes before it decode to the route |
| Frames.RouteRequested | wasi_obj.js:451-460 | the global branch first allocates the route ("/" as "/root"); if the region lies in memory it requests the route's commands, otherwise the RangeError ends the turn with nothing else done; the other branches allocate and request nothing |
| Frames.ConcludeCalls | wasi_obj.js:461-484 | each reset appears iff its branch completed without throwing |
| Frames.SweptCalls | wasi_obj.js:463-466 | sweep calls are pending-class or destroy calls only |
| Frames.ConcludeShape | wasi_obj.js:461-484 | what the end of a turn appends to calls and deferred work, and how initial_render is set |
| Frames.ResetsPerBranch | wasi_obj.js:448-486 | RenderStep (one renderLoop turn): resetRerender iff a global turn completed, resetGrainRerender iff a grain turn completed; initial_render is cleared by a completed global turn |
| Frames.RegistryWithinActive | wasi_obj.js:448-486 | after a completed walk every registry entry was seen this frame and keeps its registration |
| Frames.NextFrameUnlessThrown | wasi_obj.js:448-484 | the next frame is requested iff the body did not throw, in allocString or in the walk; a throw leaves toRemove as it was |
| Frames.ConcludeDeferred | wasi_obj.js:461-484 | the same for the end of a turn |
| Runtime.Renderer.constructor | wasi_obj.js:241-445 | the initial renderer state and environment |
| Runtime.Renderer.ApplyStyles | web/traversal.js:802-830 | the in-place restyle equals its specification |
| Runtime.Renderer.ProcessInputElement | web/traversal.js:86-264 | the in-place input set-up equals ProcessInput, errors included: the IndexSizeError of a refused length, and the check-mark css read with each node's own length |
| Runtime.Renderer.CreateElementByType | web/traversal.js:553-765 | the in-place creation equals MakeElement, including the skipped dialog button |
| Runtime.Renderer.SetupElement | web/traversal.js:772-795 | the in-place set-up equals Setup |
| Runtime.Renderer.UpdateElement | web/traversal.js:802-830 | the in-place update equals UpdateStage |
| Runtime.Renderer.Traverse | web/traversal.js:836-911 | the imperative walk equals the functional Traverse |
| Runtime.Renderer.VisitChild | web/traversal.js:841-910 | one loop iteration equals Child |
| Runtime.Renderer.CreateChild | web/traversal.js:862-893 | the create path equals Create |
| Runtime.Renderer.AttachToParent | web/traversal.js:874-893 | attachment equals Attach |
| Runtime.Renderer.UpdateChild | web/traversal.js:898-904 | the update path equals Update |
| Runtime.Renderer.TraverseRemove | web/traversal.js:913-931 | the imperative removal walk equals TraverseRemove |
| Runtime.Renderer.RemoveDirtyChild | web/traversal.js:916-930 | one removal iteration equals RemoveChild |
| Runtime.Renderer.CallDestroyFncs | wasi_obj.js:488-498 | the loop equals DestroyHooks |
| Runtime.Renderer.RemoveInactiveNodes | wasi_obj.js:541-573 | the two passes equal RemoveNodes with the active set |
| Runtime.Renderer.RemoveRouteSpecificNodes | wasi_obj.js:575-611 | the two passes equal RemoveRouteNodes |
| Runtime.Renderer.RemoveNodesKeeping | wasi_obj.js:541-611 | the shared passes equal RemoveNodes |
| Runtime.Renderer.CollectPass | wasi_obj.js:544-550 | the registry loop equals Collect |
| Runtime.Renderer.SchedulePass | wasi_obj.js:553-572 | the forEach over the shrinking queue equals Schedule |
| Runtime.Renderer.RenderLoop | wasi_obj.js:448-486 | one turn equals RenderStep on that turn's memory, allocString's RangeError included; the renderer keeps that memory and its decoder afterwards |
| Runtime.Renderer.FinishTurn | wasi_obj.js:461-484 | the end of a turn equals Conclude |
| DupKeys.ReadLiteral | web/traversal.js:393-408 | the literal reader stops within the text, and only on a closing quote |
| DupKeys.RowIsOpenKeys | web/traversal.js:386-391 | the keys held for a depth are exactly those met at that depth since its last close |
| DupKeys.ScanIsRepeats | web/traversal.js:380-427 | from any scan state that agrees with the events met so far, the scan reports the repeats among all the events |
| DupKeys.ScanReportsSameDepthRepeats | web/traversal.js:380-427 | detectDuplicateKeys reports exactly the keys met again at the same depth with no close of that depth in between, in order, at their opening quotes |
| DupKeys.RepeatsMembers | web/traversal.js:409-420 | a report names a repeated key event, and every repeated key event is reported |
| DupKeys.DetectDuplicateKeys | web/traversal.js:380-427 | the loop equals the Scan definition, which ScanReportsSameDepthRepeats characterises |
| DupKeys.DuplicatesAreRepeatedKeys | web/traversal.js:380-427 | every report is the opening quote of a key whose same text starts a key earlier |
| DupKeys.ScanReportsRepeats | web/traversal.js:380-427 | the same from any scan state whose seen keys are keys met earlier |
| DupKeys.NoQuoteNoDuplicates | web/traversal.js:392 | text without a quote reports nothing |
| DupKeys.SameObjectRepeatReported | web/traversal.js:409-420 | a key repeated in one object is reported at its second quote |
| DupKeys.NestedRepeatNotReported | web/traversal.js:386-391 | a repeat at another depth is not reported |
| DupKeys.ClosedObjectForgotten | web/traversal.js:387-391 | closing an object forgets its keys |
| DupKeys.FirstKeyRead | web/traversal.js:380-427 | example: the opening brace and first key of a sample text |
| DupKeys.KeyAtSeven | web/traversal.js:409-420 | example: the repeat in the first sample |
| DupKeys.SiblingKey | web/traversal.js:387-420 | example: the sibling object in the last sample |
| Wasi.IovLen | web/wasi_env.js:82-84 | buf_len is a u32 |
| Wasi.IovTotal | web/wasi_env.js:78-88 | the only failure of the sum is a RangeError |
| Wasi.IovTotalOk | web/wasi_env.js:81 | the sum is defined iff the iovec array is 4-aligned and inside memory, or empty |
| Wasi.IovTotalSplit | web/wasi_env.js:80-88 | the total is additive over a split of the iovecs |
| Wasi.IovTotalFails | web/wasi_env.js:81 | one misplaced iovec makes every longer sum fail |
| Wasi.StoreWritten | web/wasi_env.js:90 | the indexed store keeps the memory length |
| Wasi.BadDescriptor | web/wasi_env.js:77-93 | any fd other than 1 returns 8 and leaves memory untouched |
| Wasi.FdWriteStoresTotal | web/wasi_env.js:76-93 | on stdout fd_write returns 0 and stores the total length mod 2^32 at nwritten_ptr; no other byte changes |
| Wasi.FdWrite | web/wasi_env.js:76-93 | the in-place loop on the memory array equals FdWriteSpec |
| Wasi.ToUint64 | web/wasi_env.js:29 | setBigUint64 keeps a value below 2^64 and reduces larger ones |
| Wasi.ClockTimeGet | web/wasi_env.js:26-31 | the in-place store equals ClockSpec |
| Wasi.LE64Slice | web/wasi_env.js:29 | a u64 read depends only on its eight bytes |
| Wasi.StoreLE64ReadBack | web/wasi_env.js:29 | a u64 stored and read back is the same value |
| Wasi.ClockStoresNanoseconds | web/wasi_env.js:26-31 | the call succeeds iff 8 bytes fit, and the stored u64 is now × 10^6 mod 2^64 |
| Wasi.PollTimeout | web/wasi_env.js:40-49 | the timeout is read iff its 8 bytes fit, else a RangeError; it is the nanoseconds floored to milliseconds |
| Wasi.PollOneoff | web/wasi_env.js:33-65 | the engine receives 0 for every input, since the async import returns a Promise; the Promise is rejected, with a RangeError, iff the timeout read fails |
| Wasi.ClockThenPoll | web/wasi_env.js:26-49 | a time clock_time_get stores is read back by poll_oneoff as the same milliseconds |
| Intervals.ClearRouteEffect | web/traversal.js:72-79 | ClearRoute (clearIntervalsForRoute): the route's entry is gone, other routes are unchanged, and exactly its ids were cleared in order |
| Intervals.ClearRouteIdempotent | web/traversal.js:72-79 | clearing twice is the same as clearing once |
| Intervals.RouteIntervals.constructor | web/traversal.js:66 | the table starts empty |
| Intervals.RouteIntervals.ClearIntervalsForRoute | web/traversal.js:72-79 | the in-place loop equals ClearRoute |
| HostEnv.Measure | web/wasi_env.js:372-395 | a measurement stores the box and the current time, with right and bottom derived |
| HostEnv.Bounds | web/wasi_env.js:359-395 | the six slots in order: top, left, right, bottom, width, height |
| HostEnv.Offsets | web/wasi_env.js:334-397 | a missing element gives null and keeps the cache; an entry younger than 16 ms is reused; otherwise it is re-measured and stored |
| HostEnv.OffsetsShaped | web/wasi_env.js:334-397 | right = left + width and bottom = top + height always, fresh or cached |
| HostEnv.ReusedWithin16 | web/wasi_env.js:351-370 | within 16 ms a second call returns the first measurement, not the current box |
| HostEnv.MeasuredAfter16 | web/wasi_env.js:351-395 | after 16 ms the element is measured again |
| HostEnv.DimensionCache.constructor | web/wasi_env.js:3 | an empty cache |
| HostEnv.DimensionCache.GetOffsets | web/wasi_env.js:334-397 | the in-place cache update equals Offsets |
| HostEnv.PxOnlyForTopAndLeft | web/wasi_env.js:715-719 | StyleValue: the value gets "px" iff the attribute is top or left |
| HostEnv.FindPair | web/wasi_env.js:978 | the leftmost position from q where the cookie pattern matches, or none |
| HostEnv.FindPairSkip | web/wasi_env.js:978 | positions that do not match can be skipped |
| HostEnv.RunEnd | web/wasi_env.js:978 | [^;]+ stops at the next ";" or the end |
| HostEnv.CookieValueSpec | web/wasi_env.js:976-980 | CookieValue (getCookieWASM): a value comes back iff the pattern matches; it is the non-empty ";"-free text after the leftmost name= |
| HostEnv.SecondCookieFound | web/wasi_env.js:978 | "b" in "a=1; b=2" is "2" |
| HostEnv.SuffixNameNotFound | web/wasi_env.js:978 | "token" does not match inside "mytoken=abc" |
| HostEnv.EmptyValueSkipped | web/wasi_env.js:978 | an empty name= is passed over for the next one |
| Navigation.NavigateEffect | web/wasi_env.js:935-950 | Navigate (navigateWASM): the current page's intervals are cleared; the path is pushed as given; the engine is asked for its route; the root is emptied before the walk |
| Navigation.RootAliases | web/wasi_env.js:943 | "/" and "/root" request the same route |
| Navigation.LinkClickAgreesWithNavigate | web/traversal.js:277-324 | LinkClick: a link click pushes the same URL and route as navigateWASM, but clears no intervals and removes stale nodes instead of emptying the root |

## Left out

- Floating point. The bounding box and the `Float32Array` slots of
  getOffsetsWasm are integers in the model, and `performance.now()` is an
  integer parameter.
- Text decoding. `TextDecoder` decoding of linear memory is modelled as
  one character per byte, which is exact on ASCII. Multi-byte UTF-8
  decoding of engine strings is not modelled.
- Utf8.Encode: a JavaScript string may hold a lone surrogate, which
  `TextEncoder` writes as U+FFFD; a Dafny `char` is a Unicode scalar value
  and cannot hold one, so that case is not modelled.
- DupKeys.DetectDuplicateKeys: positions count Unicode scalar values,
  while JavaScript counts UTF-16 code units; the two differ after any
  character outside the Basic Multilingual Plane.
- Memory growth. The memory buffer has a fixed length, and
  `checkMemoryGrowth`/`getWasmMemoryUsage` are not part of this model.
- Timers and promises. `poll_oneoff` is an async import, so the engine
  always receives the Promise converted to 0 (Wasi.PollOneoff); the
  `setTimeout` that resolves it is out, and its rejection is recorded only
  as the error that rejects it. The logging in `fd_write` (`TextDecoder`,
  `console.log`) is out. `requestAnimationFrame` callbacks are recorded as
  deferred work and not run.
- Browser glue. The JSON and code editor set-up (`initJsonEditor`,
  `initEditor`, `formatJSON`) is recorded as one deferred step; only its
  `detectDuplicateKeys` scan is modelled. Event dispatch, drag handlers,
  module loading and fetch are out. The real DOM is out: URL resolution of
  `href`/`src`, input value sanitisation, whitespace rejection in
  `classList.add`, and the `textContent` setter dropping existing children.
- The history API. `history.pushState` and `window.location` are recorded
  as steps or taken as parameters.
- HostEnv.CookieValueSpec returns the raw `match[2]`. `decodeURIComponent`
  is not modelled, and cookie names are assumed to hold no
  regular-expression metacharacters, since the source puts the name into
  the pattern unescaped.
- HostEnv.Offsets: the `!wasmInstance` early return is not modelled.
- Navigation.LinkClick: the URL's pathname is a parameter, and the steps
  themselves (`traverseRemove`, `rerenderRoute`) are modelled elsewhere.
- mutateDomElementStyleWasm: the frame deferral and the inline style write
  itself are out, because inline styles are not part of the DOM model;
  only the value text (HostEnv.StyleValue) is modelled.
- Intervals.RouteIntervals: nothing in the modelled code adds to
  `routeIntervals`; its `routes` field is whatever the caller stores there.
- Queue.RemovalQueue.RemoveAnimatedNodeTree: recursion is bounded by a
  fuel parameter, which the renderer sets to the number of elements. A
  cyclic DOM is cut off at that depth.
- Lifecycle.Schedule is modelled as written, including the skip that
  Lifecycle.SwapSkipsQueuedItem exhibits. Lifecycle.ScheduleItemEffect
  speaks of the initial document only for items no animated item
  precedes; Lifecycle.ScheduleVisitEffect covers the others against the
  document as it is when they are visited. `animationend` bubbling from
  descendants is not modelled; Lifecycle.AnimationEnd looks only at the
  element's own listeners.
- `removeNodeWithExitAnimation` (never called) and `getDepth` (used only
  for logging) are not modelled.
- Duplicate element ids are not modelled: `getElementById` is keyed by
  id. When `state.initial_render` makes the renderer create an element
  whose id is already in the page, the page holds both objects for a
  while; the model keeps only the new one (Dom.Replace) and unlinks the
  old one's children, which the new object does not have either.
- Input.LengthAt follows the HTML standard's reflection rule: only a
  length that is negative as a `long` throws. The extra IndexSizeError some
  browsers raise when maxLength is set below an existing minLength is not
  modelled.
- Frames.RenderStep: the route bytes `allocString` writes are read by
  `renderCommands`, a foreign call; the model records the allocation and
  its RangeError, and takes the memory `renderCommands` leaves as the
  turn's input instead of deriving it from that write.
- Decoder.ReadRenderCommand: the `hasEctClasses`/`addEctClasses` calls a
  dirty decode makes (wasi_obj.js:714-716) change engine state but are not
  recorded in the call trace; the decoder is a function of memory and the
  dirty oracle.
- Traversal.KindElement: the SVG kind's `innerHTML` is kept as a string.
  The markup is not parsed into child elements, so ids inside it are not
  found by `getElementById`.
- Styling.CheckMarkUpdate: the `catch` in `checkMarkStyling` is not
  modelled. Its two rules select the component class, which always parses
  in the model, but an element id holding whitespace makes
  `classList.add` throw, and the catch itself then throws a ReferenceError
  on `checkedStyle`; neither is modelled.
- Styling.Parses: a rule parses when every class name it selects starts an
  identifier (a letter, `_`, a non-ASCII character, `-` then one of those
  or another `-`, or an escape). Only that first position is checked, and
  keyframes text and declaration blocks are taken to parse.
- Traversal.TraverseGrows (and ChildrenGrows, ChildGrows, CreateGrows,
  UpdateGrows): the sheet is promised to grow only for a walk that does
  not throw (Traversal.WalkExtendsSheet). A walk that throws after a
  cached hover rule failed to re-insert has one rule fewer.
- HostEnv.DimensionCache.GetOffsets: the result is the six slots as a
  value. `wasmInstance.allocate(6)` and the `Float32Array` written at the
  returned pointer are not modelled, so neither is the RangeError that
  constructor throws for a misaligned pointer or a window past the end of
  memory, after `elementDimensions.set` has already run.
- HostEnv.Offsets: the same allocation and store are not modelled.
- Lifecycle.StripTreeEffect: the descendant relation is bounded by the
  fuel; with the renderer's fuel (the number of elements) it is the whole
  subtree of any document whose parent chains are no longer than that.
- Number arguments that JavaScript passes as doubles (pointers, lengths,
  ids) are natural numbers.
