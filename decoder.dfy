// `readRenderCommand`: decoding one render-command record out of engine
// memory through the layout descriptor. The engine's dirty flag and its
// style-string accessors are oracles.
module Decoder {
  import opened Wrappers
  import opened Memory
  import opened Layout

  datatype Hooks = Hooks(createdId: nat, mountedId: nat, updatedId: nat, destroyId: nat)

  datatype Props = Props(css: string, hoverCss: string, btnId: nat, dialogId: string, keyFrames: string)

  /**
   * A decoded record. `hooks` is None where the source leaves it `{}`;
   * the bounding box is kept as its four raw 32-bit words (x, y, width, height).
   */
  datatype RenderCommand = RenderCommand(
    boundingBox: seq<nat>,
    elemType: nat,
    text: string,
    href: string,
    props: Props,
    id: string,
    show: nat,
    hooks: Option<Hooks>,
    nodePtr: nat,
    exitAnimationId: Option<string>,
    styleId: string,
    isDirty: bool)

  /** `getStyle`/`getStyleLen` and `getHoverStyle`/`getHoverLen`, per node pointer. */
  datatype StyleOracle = StyleOracle(
    stylePtr: nat -> nat,
    styleLen: nat -> nat,
    hoverPtr: nat -> nat,
    hoverLen: nat -> nat)

  /** A (pointer, length) pair at ptrOff/lenOff of a view, both always read, then `ptr ? readWasmString(ptr, len) : ""`. */
  function StrAt(m: seq<uint8>, view: View, ptrOff: nat, lenOff: nat): (r: Result<string>)
    ensures r.Ok? ==> view.base + view.len <= |m| && ptrOff + 4 <= view.len && lenOff + 4 <= view.len
    ensures r.Ok? ==>
      var ptr, len := LE32(m, view.base + ptrOff), LE32(m, view.base + lenOff);
      (ptr != 0 ==> ptr + len <= |m|) && r.value == (if ptr == 0 then "" else Widen(m[ptr..ptr + len]))
  {
    var ptr :- GetUint32(m, view, ptrOff);
    var len :- GetUint32(m, view, lenOff);
    ReadOptString(m, ptr, len)
  }

  /**
   * The four 32-bit words of the bounding box, at off, off + 4, off + 8 and
   * off + 12; a RangeError unless all sixteen bytes lie inside the view.
   */
  function ReadBox(m: seq<uint8>, view: View, off: nat): (r: Result<seq<nat>>)
    ensures r.Ok? <==> view.base + view.len <= |m| && off + 16 <= view.len
    ensures r.Err? ==> r.error == RangeError
    ensures r.Ok? ==> r.value == [LE32(m, view.base + off), LE32(m, view.base + off + 4),
                                  LE32(m, view.base + off + 8), LE32(m, view.base + off + 12)]
  {
    var x :- GetUint32(m, view, off);
    var y :- GetUint32(m, view, off + 4);
    var width :- GetUint32(m, view, off + 8);
    var height :- GetUint32(m, view, off + 12);
    Ok([x, y, width, height])
  }

  /** The hook ids, read only for dirty records. */
  function ReadHooks(m: seq<uint8>, view: View, l: Layout): (r: Result<Hooks>)
    ensures r.Ok? ==> l.hooksOffset + 16 <= view.len && view.base + view.len <= |m|
    ensures r.Ok? ==> r.value == Hooks(LE32(m, view.base + l.hooksOffset),
                                       LE32(m, view.base + l.hooksOffset + 4),
                                       LE32(m, view.base + l.hooksOffset + 8),
                                       LE32(m, view.base + l.hooksOffset + 12))
  {
    var created :- GetUint32(m, view, l.hooksOffset);
    var mounted :- GetUint32(m, view, l.hooksOffset + 4);
    var updated :- GetUint32(m, view, l.hooksOffset + 8);
    var destroy :- GetUint32(m, view, l.hooksOffset + 12);
    Ok(Hooks(created, mounted, updated, destroy))
  }

  /** A string behind a (pointer, length) pair of the props block that is read only when the pointer is non-zero. */
  function ReadGuarded(m: seq<uint8>, props: View, ptrOff: nat, lenOff: nat): (r: Result<Option<string>>)
    ensures r.Ok? ==> GetUint32(m, props, ptrOff).Ok?
    ensures r.Ok? && GetUint32(m, props, ptrOff).value == 0 ==> r.value == None
    ensures r.Ok? && GetUint32(m, props, ptrOff).value != 0 ==>
      GetUint32(m, props, lenOff).Ok? &&
      ReadWasmString(m, GetUint32(m, props, ptrOff).value, GetUint32(m, props, lenOff).value).Ok? &&
      r.value == Some(ReadWasmString(m, GetUint32(m, props, ptrOff).value, GetUint32(m, props, lenOff).value).value)
  {
    var ptr :- GetUint32(m, props, ptrOff);
    if ptr == 0 then Ok(None)
    else
      var len :- GetUint32(m, props, lenOff);
      var s :- ReadWasmString(m, ptr, len);
      Ok(Some(s))
  }

  function OrEmpty(o: Option<string>): string
  {
    if o.Some? then o.value else ""
  }

  /** The fields read only for a dirty record, with the values left at their defaults otherwise. */
  datatype DirtyPart = DirtyPart(css: string, hooks: Hooks, dialogId: string, hoverCss: string,
                                 exitAnimationId: Option<string>, styleId: string)

  function ReadDirtyPart(m: seq<uint8>, offset: nat, l: Layout, view: View, props: View,
                         nodePtr: nat, o: StyleOracle): (r: Result<DirtyPart>)
    requires view.base == offset
    ensures r.Ok? ==> GetUint8(m, View(offset + l.propsHoverOffset, l.propsHoverSize), 0).Ok?
    ensures r.Ok? ==> o.stylePtr(nodePtr) + o.styleLen(nodePtr) <= |m|
    ensures r.Ok? ==> r.value.css == Widen(m[o.stylePtr(nodePtr)..o.stylePtr(nodePtr) + o.styleLen(nodePtr)])
    ensures r.Ok? && m[offset + l.propsHoverOffset] == 0 ==> r.value.hoverCss == ""
    ensures r.Ok? && m[offset + l.propsHoverOffset] > 0 ==>
      o.hoverPtr(nodePtr) + o.hoverLen(nodePtr) <= |m| &&
      r.value.hoverCss == Widen(m[o.hoverPtr(nodePtr)..o.hoverPtr(nodePtr) + o.hoverLen(nodePtr)])
    ensures r.Ok? ==>
      var guarded := ReadGuarded(m, props, l.propsStyleId, l.propsStyleIdLength);
      guarded.Ok? && r.value.styleId == OrEmpty(guarded.value)
    ensures r.Ok? ==> ReadGuarded(m, props, l.propsExitAnimation, l.propsExitAnimationLength) == Ok(r.value.exitAnimationId)
    ensures r.Ok? ==> ReadHooks(m, view, l) == Ok(r.value.hooks)
    ensures r.Ok? ==> StrAt(m, props, l.dialogIdPtrOffset, l.dialogIdLenOffset) == Ok(r.value.dialogId)
  {
    var css :- ReadWasmString(m, o.stylePtr(nodePtr), o.styleLen(nodePtr));
    var hooks :- ReadHooks(m, view, l);
    var dialogId :- StrAt(m, props, l.dialogIdPtrOffset, l.dialogIdLenOffset);
    var hoverView :- NewView(m, offset + l.propsHoverOffset, l.propsHoverSize);
    var hoverExists :- GetUint8(m, hoverView, 0);
    var hoverCss :- if hoverExists > 0 then ReadWasmString(m, o.hoverPtr(nodePtr), o.hoverLen(nodePtr)) else Ok("");
    var exitAnimation :- ReadGuarded(m, props, l.propsExitAnimation, l.propsExitAnimationLength);
    var styleId :- ReadGuarded(m, props, l.propsStyleId, l.propsStyleIdLength);
    Ok(DirtyPart(css, hooks, dialogId, hoverCss, exitAnimation, OrEmpty(styleId)))
  }

  /** The fields read for every record, dirty or not. */
  datatype Common = Common(nodePtr: nat, boundingBox: seq<nat>, elemType: nat, text: string, href: string,
                           btnId: nat, show: nat, id: string)

  /** The reads `readRenderCommand` performs whatever the dirty flag says, in its order. */
  function ReadCommon(m: seq<uint8>, offset: nat, l: Layout): (r: Result<Common>)
    ensures r.Ok? ==> offset + l.renderCommandSize <= |m| && l.nodePtrOffset + 4 <= l.renderCommandSize
    ensures r.Ok? ==> r.value.nodePtr == LE32(m, offset + l.nodePtrOffset)
    ensures r.Ok? ==>
      var view := View(offset, l.renderCommandSize);
      && StrAt(m, view, l.textPtrOffset, l.textLenOffset) == Ok(r.value.text)
      && StrAt(m, view, l.hrefPtrOffset, l.hrefLenOffset) == Ok(r.value.href)
      && StrAt(m, view, l.idPtrOffset, l.idLenOffset) == Ok(r.value.id)
      && GetUint8(m, view, l.elemTypeOffset) == Ok(r.value.elemType)
      && GetUint8(m, view, l.showOffset) == Ok(r.value.show)
      && ReadBox(m, view, l.boundingBoxOffset) == Ok(r.value.boundingBox)
      && GetUint32(m, View(offset + l.propsOffset, l.propsSize), l.propsBtnIdOffset) == Ok(r.value.btnId)
  {
    var view :- NewView(m, offset, l.renderCommandSize);
    var nodePtr :- GetUint32(m, view, l.nodePtrOffset);
    var box :- ReadBox(m, view, l.boundingBoxOffset);
    var elemType :- GetUint8(m, view, l.elemTypeOffset);
    var rest :- ReadRest(m, view, l);
    Ok(rest.(nodePtr := nodePtr, boundingBox := box, elemType := elemType))
  }

  /** The common reads after the element type, in their order; the first three fields are left for ReadCommon. */
  function ReadRest(m: seq<uint8>, view: View, l: Layout): (r: Result<Common>)
    ensures r.Ok? ==>
      && StrAt(m, view, l.textPtrOffset, l.textLenOffset) == Ok(r.value.text)
      && StrAt(m, view, l.hrefPtrOffset, l.hrefLenOffset) == Ok(r.value.href)
      && StrAt(m, view, l.idPtrOffset, l.idLenOffset) == Ok(r.value.id)
      && GetUint8(m, view, l.showOffset) == Ok(r.value.show)
      && GetUint32(m, View(view.base + l.propsOffset, l.propsSize), l.propsBtnIdOffset) == Ok(r.value.btnId)
  {
    var text :- StrAt(m, view, l.textPtrOffset, l.textLenOffset);
    var href :- StrAt(m, view, l.hrefPtrOffset, l.hrefLenOffset);
    var props :- NewView(m, view.base + l.propsOffset, l.propsSize);
    var btnId :- GetUint32(m, props, l.propsBtnIdOffset);
    var show :- GetUint8(m, view, l.showOffset);
    var id :- StrAt(m, view, l.idPtrOffset, l.idLenOffset);
    Ok(Common(0, [], 0, text, href, btnId, show, id))
  }

  /**
   * `readRenderCommand(offset, layout)` on memory m, with `dirty` the set of node
   * pointers the engine reports dirty (`getDirtyValue`). The dirty flag is a pure
   * oracle here, so asking it before or after the common reads is the same.
   */
  function ReadRenderCommand(m: seq<uint8>, offset: nat, l: Layout, dirty: set<nat>, o: StyleOracle): (r: Result<RenderCommand>)
    // The record's node pointer and dirtiness come from the record's own view.
    ensures r.Ok? ==> ReadCommon(m, offset, l).Ok?
    ensures r.Ok? ==> offset + l.renderCommandSize <= |m| && l.nodePtrOffset + 4 <= l.renderCommandSize
    ensures r.Ok? ==> r.value.nodePtr == LE32(m, offset + l.nodePtrOffset)
    ensures r.Ok? ==> (r.value.isDirty <==> r.value.nodePtr in dirty)
    // A clean record keeps every dirty-only field at its default.
    ensures r.Ok? && !r.value.isDirty ==>
      r.value.props.css == "" && r.value.props.hoverCss == "" && r.value.props.dialogId == "" &&
      r.value.styleId == "" && r.value.exitAnimationId == None && r.value.hooks == None
    // A dirty record carries its hook ids.
    ensures r.Ok? && r.value.isDirty ==> r.value.hooks.Some?
    ensures r.Ok? ==> r.value.props.keyFrames == "" && |r.value.boundingBox| == 4
    // The always-read fields are the common reads.
    ensures r.Ok? ==>
      var c := ReadCommon(m, offset, l).value;
      && r.value.text == c.text && r.value.href == c.href && r.value.id == c.id
      && r.value.elemType == c.elemType && r.value.show == c.show && r.value.boundingBox == c.boundingBox
      && r.value.props.btnId == c.btnId
    // The dirty-only fields are the dirty reads.
    ensures r.Ok? && r.value.isDirty ==>
      var d := ReadDirtyPart(m, offset, l, View(offset, l.renderCommandSize), View(offset + l.propsOffset, l.propsSize),
                             r.value.nodePtr, o);
      && d.Ok? && r.value.hooks == Some(d.value.hooks) && r.value.props.css == d.value.css
      && r.value.props.dialogId == d.value.dialogId && r.value.props.hoverCss == d.value.hoverCss
      && r.value.exitAnimationId == d.value.exitAnimationId && r.value.styleId == d.value.styleId
  {
    var c :- ReadCommon(m, offset, l);
    if c.nodePtr in dirty then
      var d :- ReadDirtyPart(m, offset, l, View(offset, l.renderCommandSize),
                             View(offset + l.propsOffset, l.propsSize), c.nodePtr, o);
      Ok(RenderCommand(c.boundingBox, c.elemType, c.text, c.href,
                       Props(d.css, d.hoverCss, c.btnId, d.dialogId, ""), c.id, c.show, Some(d.hooks),
                       c.nodePtr, d.exitAnimationId, d.styleId, true))
    else
      Ok(RenderCommand(c.boundingBox, c.elemType, c.text, c.href,
                       Props("", "", c.btnId, "", ""), c.id, c.show, None, c.nodePtr, None, "", false))
  }

  /**
   * text, href and id (which `ReadRenderCommand` copies from the common reads): empty
   * for a null pointer, otherwise exactly `len` bytes from `ptr`.
   */
  lemma StringFields(m: seq<uint8>, offset: nat, l: Layout)
    requires ReadCommon(m, offset, l).Ok?
    ensures var c := ReadCommon(m, offset, l).value;
      && offset + l.textPtrOffset + 4 <= |m| && offset + l.textLenOffset + 4 <= |m|
      && offset + l.hrefPtrOffset + 4 <= |m| && offset + l.hrefLenOffset + 4 <= |m|
      && offset + l.idPtrOffset + 4 <= |m| && offset + l.idLenOffset + 4 <= |m|
      && ReadOptString(m, LE32(m, offset + l.textPtrOffset), LE32(m, offset + l.textLenOffset)) == Ok(c.text)
      && ReadOptString(m, LE32(m, offset + l.hrefPtrOffset), LE32(m, offset + l.hrefLenOffset)) == Ok(c.href)
      && ReadOptString(m, LE32(m, offset + l.idPtrOffset), LE32(m, offset + l.idLenOffset)) == Ok(c.id)
  {
    var c := ReadCommon(m, offset, l).value;
    var view := View(offset, l.renderCommandSize);
    assert StrAt(m, view, l.textPtrOffset, l.textLenOffset) == Ok(c.text);
    assert StrAt(m, view, l.hrefPtrOffset, l.hrefLenOffset) == Ok(c.href);
    assert StrAt(m, view, l.idPtrOffset, l.idLenOffset) == Ok(c.id);
  }

  /**
   * btnId, show, id, text and href are read whatever the dirty flag says: a record
   * that decodes as dirty also decodes as clean, with the same values for them.
   */
  lemma AlwaysReadFields(m: seq<uint8>, offset: nat, l: Layout, dirty: set<nat>, o: StyleOracle)
    requires ReadRenderCommand(m, offset, l, dirty, o).Ok?
    ensures var c, clean := ReadRenderCommand(m, offset, l, dirty, o), ReadRenderCommand(m, offset, l, {}, o);
      && clean.Ok? && !clean.value.isDirty
      && clean.value.props.btnId == c.value.props.btnId && clean.value.show == c.value.show
      && clean.value.id == c.value.id && clean.value.text == c.value.text
      && clean.value.href == c.value.href && clean.value.elemType == c.value.elemType
      && clean.value.nodePtr == c.value.nodePtr && clean.value.boundingBox == c.value.boundingBox
  {
  }

  /** A dirty record's hook ids are the four words at offset + hooksOffset: created, mounted, updated, destroy. */
  lemma DirtyHooks(m: seq<uint8>, offset: nat, l: Layout, nodePtr: nat, o: StyleOracle)
    requires ReadDirtyPart(m, offset, l, View(offset, l.renderCommandSize), View(offset + l.propsOffset, l.propsSize), nodePtr, o).Ok?
    ensures var c := ReadDirtyPart(m, offset, l, View(offset, l.renderCommandSize), View(offset + l.propsOffset, l.propsSize), nodePtr, o).value;
      var h := offset + l.hooksOffset;
      && h + 16 <= |m|
      && c.hooks == Hooks(LE32(m, h), LE32(m, h + 4), LE32(m, h + 8), LE32(m, h + 12))
  {
    HooksWords(m, View(offset, l.renderCommandSize), l, offset + l.hooksOffset);
  }

  lemma HooksWords(m: seq<uint8>, view: View, l: Layout, h: nat)
    requires ReadHooks(m, view, l).Ok? && h == view.base + l.hooksOffset
    ensures h + 16 <= |m|
    ensures ReadHooks(m, view, l).value == Hooks(LE32(m, h), LE32(m, h + 4), LE32(m, h + 8), LE32(m, h + 12))
  {
  }

  /** A dirty record's css is the engine's style string for its node. */
  lemma DirtyCss(m: seq<uint8>, offset: nat, l: Layout, nodePtr: nat, o: StyleOracle)
    requires ReadDirtyPart(m, offset, l, View(offset, l.renderCommandSize), View(offset + l.propsOffset, l.propsSize), nodePtr, o).Ok?
    ensures var c := ReadDirtyPart(m, offset, l, View(offset, l.renderCommandSize), View(offset + l.propsOffset, l.propsSize), nodePtr, o).value;
      ReadWasmString(m, o.stylePtr(nodePtr), o.styleLen(nodePtr)) == Ok(c.css)
  {
  }

  /** A dirty record's dialog id comes from the props block at offset + propsOffset. */
  lemma DirtyDialogId(m: seq<uint8>, offset: nat, l: Layout, nodePtr: nat, o: StyleOracle)
    requires ReadDirtyPart(m, offset, l, View(offset, l.renderCommandSize), View(offset + l.propsOffset, l.propsSize), nodePtr, o).Ok?
    ensures var c := ReadDirtyPart(m, offset, l, View(offset, l.renderCommandSize), View(offset + l.propsOffset, l.propsSize), nodePtr, o).value;
      var p := offset + l.propsOffset;
      && p + l.dialogIdPtrOffset + 4 <= |m| && p + l.dialogIdLenOffset + 4 <= |m|
      && ReadOptString(m, LE32(m, p + l.dialogIdPtrOffset), LE32(m, p + l.dialogIdLenOffset)) == Ok(c.dialogId)
  {
  }

  /** A dirty record's hover string is fetched only when the byte at offset + propsHoverOffset is non-zero. */
  lemma DirtyHover(m: seq<uint8>, offset: nat, l: Layout, nodePtr: nat, o: StyleOracle)
    requires ReadDirtyPart(m, offset, l, View(offset, l.renderCommandSize), View(offset + l.propsOffset, l.propsSize), nodePtr, o).Ok?
    ensures var c := ReadDirtyPart(m, offset, l, View(offset, l.renderCommandSize), View(offset + l.propsOffset, l.propsSize), nodePtr, o).value;
      && offset + l.propsHoverOffset < |m|
      && (m[offset + l.propsHoverOffset] == 0 ==> c.hoverCss == "")
      && (m[offset + l.propsHoverOffset] > 0 ==>
            ReadWasmString(m, o.hoverPtr(nodePtr), o.hoverLen(nodePtr)) == Ok(c.hoverCss))
  {
  }

  /** The exit animation of a dirty record: read only when its pointer is non-zero. */
  lemma DirtyExitAnimation(m: seq<uint8>, offset: nat, l: Layout, nodePtr: nat, o: StyleOracle)
    requires ReadDirtyPart(m, offset, l, View(offset, l.renderCommandSize), View(offset + l.propsOffset, l.propsSize), nodePtr, o).Ok?
    ensures var c := ReadDirtyPart(m, offset, l, View(offset, l.renderCommandSize), View(offset + l.propsOffset, l.propsSize), nodePtr, o).value;
      var p := offset + l.propsOffset;
      && p + l.propsExitAnimation + 4 <= |m|
      && (LE32(m, p + l.propsExitAnimation) == 0 ==> c.exitAnimationId == None)
      && (LE32(m, p + l.propsExitAnimation) != 0 ==>
            p + l.propsExitAnimationLength + 4 <= |m| && c.exitAnimationId.Some? &&
            ReadWasmString(m, LE32(m, p + l.propsExitAnimation), LE32(m, p + l.propsExitAnimationLength))
              == Ok(c.exitAnimationId.value))
  {
  }

  /** The style id of a dirty record: read only when its pointer is non-zero, empty otherwise. */
  lemma DirtyStyleId(m: seq<uint8>, offset: nat, l: Layout, nodePtr: nat, o: StyleOracle)
    requires ReadDirtyPart(m, offset, l, View(offset, l.renderCommandSize), View(offset + l.propsOffset, l.propsSize), nodePtr, o).Ok?
    ensures var c := ReadDirtyPart(m, offset, l, View(offset, l.renderCommandSize), View(offset + l.propsOffset, l.propsSize), nodePtr, o).value;
      var p := offset + l.propsOffset;
      && p + l.propsStyleId + 4 <= |m|
      && (LE32(m, p + l.propsStyleId) == 0 ==> c.styleId == "")
      && (LE32(m, p + l.propsStyleId) != 0 ==>
            p + l.propsStyleIdLength + 4 <= |m| &&
            ReadWasmString(m, LE32(m, p + l.propsStyleId), LE32(m, p + l.propsStyleIdLength)) == Ok(c.styleId))
  {
  }
}
