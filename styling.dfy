// The component style cache: one stylesheet whose rules are strings and a
// map from class (or hover) names to rule indices. Existing rules are
// replaced in place by delete-then-insert at the same index; new rules go at
// the end. Insert and delete follow the CSSOM "insert a CSS rule" and
// "remove a CSS rule" steps: the index check first, then the parse.
module Styling {
  import opened Wrappers
  import opened Text
  import opened Dom

  /**
   * The kinds of rule the renderer inserts, by the parts it fills in; `Css`
   * gives the text passed to `insertRule`. A hover rule selects `.cls:hover`,
   * followed by ` .target` when a style id names a nested target.
   */
  datatype Rule =
    | ClassRule(selector: string, style: string)
    | HideScrollbar(cls: string)
    | HoverRule(cls: string, target: Option<string>, style: string)
    | CheckedRule(cls: string, style: string)
    | CheckedAfterRule(cls: string, style: string)
    | KeyframesRule(text: string)

  /** The rule's text (whitespace inside the fixed parts compacted). */
  function Css(r: Rule): string
  {
    match r
    case ClassRule(selector, style) => "." + selector + " { " + style + " }"
    case HideScrollbar(cls) => "." + cls + "::-webkit-scrollbar { display: none; }"
    case HoverRule(cls, target, style) =>
      "." + cls + ":hover" + (if target.Some? then " ." + target.value else "") + " { " + style + " }"
    case CheckedRule(cls, style) => "." + cls + ":checked {" + style + "}"
    case CheckedAfterRule(cls, style) =>
      "." + cls + ":checked::after { content: ''; position: absolute; top: 50%; left: 50%; "
        + "transform: translate(-50%, -50%); width: 10px; height: 10px; border-radius: 50%; " + style + " }"
    case KeyframesRule(text) => text
  }

  /** An ident-start code point (CSS Syntax Level 3, section 4.2): a letter, `_`, or a non-ASCII code point. */
  predicate IdentStartChar(c: char)
  {
    'a' <= c <= 'z' || 'A' <= c <= 'Z' || c == '_' || c >= '\U{80}'
  }

  /** A valid escape at position i (CSS Syntax Level 3, section 4.3.8): a backslash not followed by a newline. */
  predicate EscapeAt(n: string, i: nat)
  {
    i < |n| && n[i] == '\\' && (i + 1 == |n| || n[i + 1] != '\n')
  }

  /**
   * The name after a selector's `.` starts an ident sequence (CSS Syntax
   * Level 3, section 4.3.9): an ident-start code point, an escape, or `-`
   * followed by either of those or by a second `-`.
   */
  predicate StartsIdent(n: string)
  {
    |n| > 0
    && (IdentStartChar(n[0]) || EscapeAt(n, 0)
        || (n[0] == '-' && |n| > 1 && (IdentStartChar(n[1]) || n[1] == '-' || EscapeAt(n, 1))))
  }

  /**
   * Whether the browser parses the rule's text: every class selector in it
   * must name an identifier, otherwise `insertRule` throws a SyntaxError.
   */
  predicate Parses(r: Rule)
  {
    match r
    case ClassRule(selector, _) => StartsIdent(selector)
    case HideScrollbar(cls) => StartsIdent(cls)
    case HoverRule(cls, target, _) => StartsIdent(cls) && (target.None? || StartsIdent(target.value))
    case CheckedRule(cls, _) => StartsIdent(cls)
    case CheckedAfterRule(cls, _) => StartsIdent(cls)
    case KeyframesRule(_) => true
  }

  /** The stylesheet's rule list and `styleRuleCache`. */
  datatype Sheet = Sheet(rules: seq<Rule>, cache: map<string, nat>)

  /** Every cached index names an existing rule. */
  predicate Valid(s: Sheet)
  {
    forall k :: k in s.cache ==> s.cache[k] < |s.rules|
  }

  /** CSSOM insertRule(rule, index): IndexSizeError when index > length, then SyntaxError when the text does not parse. */
  function InsertRuleAt(rules: seq<Rule>, rule: Rule, index: nat): (r: Result<seq<Rule>>)
    ensures r.Ok? <==> index <= |rules| && Parses(rule)
    ensures r.Err? ==> r.error == (if index > |rules| then IndexSizeError else SyntaxError)
    ensures r.Ok? ==> |r.value| == |rules| + 1 && r.value[index] == rule
    ensures r.Ok? ==> forall j :: 0 <= j < index ==> r.value[j] == rules[j]
    ensures r.Ok? ==> forall j :: index < j <= |rules| ==> r.value[j] == rules[j - 1]
    ensures index == |rules| && Parses(rule) ==> r == Ok(rules + [rule])
  {
    if index > |rules| then Err(IndexSizeError)
    else if !Parses(rule) then Err(SyntaxError)
    else
      assert index == |rules| ==> rules[..index] + [rule] + rules[index..] == rules + [rule];
      Ok(rules[..index] + [rule] + rules[index..])
  }

  /** CSSOM deleteRule(index): IndexSizeError when index >= length. */
  function DeleteRuleAt(rules: seq<Rule>, index: nat): (r: Result<seq<Rule>>)
    ensures r.Ok? <==> index < |rules|
    ensures r.Err? ==> r.error == IndexSizeError
    ensures r.Ok? ==> |r.value| == |rules| - 1
    ensures r.Ok? ==> forall j :: 0 <= j < index ==> r.value[j] == rules[j]
    ensures r.Ok? ==> forall j :: index <= j < |rules| - 1 ==> r.value[j] == rules[j + 1]
  {
    if index < |rules| then Ok(rules[..index] + rules[index + 1..]) else Err(IndexSizeError)
  }

  /** The rules after a run of CSSOM calls, and the exception that stopped the run, if any. */
  datatype Edit = Edit(rules: seq<Rule>, thrown: Option<JsError>)

  /**
   * Delete-then-insert at one index. When the delete succeeds and the insert
   * does not parse, the rule stays deleted and every later rule has moved
   * down by one.
   */
  function ReplaceRuleAt(rules: seq<Rule>, rule: Rule, index: nat): (r: Edit)
    ensures r.thrown.None? <==> index < |rules| && Parses(rule)
    ensures r.thrown.None? ==> r.rules == rules[index := rule]
    ensures index >= |rules| ==> r == Edit(rules, Some(IndexSizeError))
    ensures index < |rules| && !Parses(rule) ==> r == Edit(rules[..index] + rules[index + 1..], Some(SyntaxError))
  {
    match DeleteRuleAt(rules, index)
    case Err(err) => Edit(rules, Some(err))
    case Ok(shorter) =>
      match InsertRuleAt(shorter, rule, index)
      case Err(err) => Edit(shorter, Some(err))
      case Ok(replaced) =>
        assert replaced == rules[index := rule];
        Edit(replaced, None)
  }

  function ComponentClass(id: string): string { "fabric-component-" + id }

  function HoverName(id: string): string { "hover-" + id }

  /** Every component class names an identifier, so the rules that select it always parse. */
  lemma ComponentClassStarts(id: string)
    ensures StartsIdent(ComponentClass(id))
  {
    assert ComponentClass(id)[0] == 'f';
  }

  /** `styleRuleCache.get(key)` passed as a rule index, where `undefined` converts to 0. */
  function IndexOf(cache: map<string, nat>, key: string): nat
  {
    if key in cache then cache[key] else 0
  }

  /** The sheet and element after `updateComponentStyle`, with its returned class name or the exception it threw. */
  datatype Styled = Styled(sheet: Sheet, element: Element, result: Result<string>)

  /**
   * `updateComponentStyle(nodePtr, specified, style, element)`, with
   * `showScrollBar` the engine's answer for nodePtr. The sheet and the
   * element are as the source leaves them, also when an insert throws.
   */
  function StyleUpdate(s: Sheet, showScrollBar: int, specified: string, style: string, e: Element): Styled
  {
    var cls := ComponentClass(e.id);
    if cls in s.cache then
      var ed := ReplaceRuleAt(s.rules, ClassRule(cls, style), s.cache[cls]);
      match ed.thrown
      case Some(err) => Styled(Sheet(ed.rules, s.cache), e, Err(err))
      case None => Styled(Sheet(ed.rules, s.cache), e.(className := cls), Ok(cls))
    else if |specified| > 0 && specified in s.cache then
      // The index is looked up under `cls`, which is not cached.
      var ed := ReplaceRuleAt(s.rules, ClassRule(cls, style), IndexOf(s.cache, cls));
      match ed.thrown
      case Some(err) => Styled(Sheet(ed.rules, s.cache), e, Err(err))
      case None => Styled(Sheet(ed.rules, s.cache), e.(className := cls), Ok(cls))
    else if |e.className| == 0 && |specified| == 0 then
      var newIndex := |s.rules|;
      match InsertRuleAt(s.rules, ClassRule(cls, style), newIndex)
      case Err(err) => Styled(s, e, Err(err))
      case Ok(rules) =>
        var s1 := Sheet(rules, s.cache[cls := newIndex]);
        if showScrollBar == 0 then
          match InsertRuleAt(rules, HideScrollbar(cls), |rules|)
          case Err(err) => Styled(s1, e, Err(err))
          case Ok(rules') => Styled(Sheet(rules', s1.cache), e.(className := cls), Ok(cls))
        else Styled(s1, e.(className := cls), Ok(cls))
    else if |specified| > 0 && e.localName != I then
      // The element takes the class before the rule is inserted.
      var e' := e.(className := specified);
      var newIndex := |s.rules|;
      match InsertRuleAt(s.rules, ClassRule(specified, style), newIndex)
      case Err(err) => Styled(s, e', Err(err))
      case Ok(rules) => Styled(Sheet(rules, s.cache[specified := newIndex]), e', Ok(cls))
    else
      var full := e.className;
      var newIndex := |s.rules|;
      match InsertRuleAt(s.rules, ClassRule(LastToken(full), style), newIndex)
      case Err(err) => Styled(s, e, Err(err))
      case Ok(rules) => Styled(Sheet(rules, s.cache[full := newIndex]), e, Ok(full))
  }

  /** The class `applyHoverClass` puts before `:hover`: the last token for an icon without a style id. */
  function HoverClass(e: Element, styleId: string): string
  {
    if |styleId| == 0 && e.localName == I then LastToken(e.className) else e.className
  }

  /** The nested target `applyHoverClass` selects: the style id, without its leading `.` if it has one. */
  function HoverTarget(styleId: string): Option<string>
  {
    if |styleId| == 0 then None
    else if styleId[0] == '.' then Some(styleId[1..])
    else Some(styleId)
  }

  /** The selector text `applyHoverClass` builds, in the source's own terms. */
  function HoverSelector(e: Element, styleId: string): string
  {
    if |styleId| > 0 then
      "." + e.className + ":hover " + (if styleId[0] == '.' then styleId else "." + styleId)
    else if e.localName == I then "." + LastToken(e.className) + ":hover"
    else "." + e.className + ":hover"
  }

  /** The sheet after a CSSOM call sequence, and the exception that stopped it, if any. */
  datatype Applied = Applied(sheet: Sheet, thrown: Option<JsError>)

  /** `applyHoverClass(element, styleId, hover)`: the rule cached under `hover-<id>`. */
  function HoverUpdate(s: Sheet, e: Element, styleId: string, hover: string): Applied
  {
    var name := HoverName(e.id);
    var rule := HoverRule(HoverClass(e, styleId), HoverTarget(styleId), hover);
    if name in s.cache then
      var ed := ReplaceRuleAt(s.rules, rule, s.cache[name]);
      Applied(Sheet(ed.rules, s.cache), ed.thrown)
    else
      var newIndex := |s.rules|;
      match InsertRuleAt(s.rules, rule, newIndex)
      case Err(err) => Applied(s, Some(err))
      case Ok(rules) => Applied(Sheet(rules, s.cache[name := newIndex]), None)
  }

  /**
   * `checkMarkStyling(id, element, styleId, css)`; the styleId prefixing it
   * does is never used. Both rules select the component class, so neither
   * insert throws (`CheckMarkOnce`) and the `catch` is never entered.
   */
  function CheckMarkUpdate(s: Sheet, id: string, e: Element, css: string): Result<(Sheet, Element)>
  {
    var cls := ComponentClass(id);
    if cls in s.cache then Ok((s, e))
    else
      var rules :- InsertRuleAt(s.rules, CheckedRule(cls, css), |s.rules|);
      var rules' :- InsertRuleAt(rules, CheckedAfterRule(cls, css), |rules|);
      Ok((Sheet(rules', s.cache), e.(className := AddClass(e.className, cls))))
  }

  /** `addKeyframesToStylesheet(kf)`. */
  function KeyframesUpdate(s: Sheet, keyframes: string): Result<Sheet>
  {
    var rules :- InsertRuleAt(s.rules, KeyframesRule(keyframes), |s.rules|);
    Ok(Sheet(rules, s.cache))
  }

  // ---- Properties of the specification ----

  /** Whether `updateComponentStyle` adds a new rule rather than rewriting a cached one. */
  predicate AddsRule(s: Sheet, specified: string, e: Element)
  {
    ComponentClass(e.id) !in s.cache && !(|specified| > 0 && specified in s.cache)
  }

  /** The class a newly added rule selects: the component class, the specified class, or the className's last token. */
  function AddedClass(specified: string, e: Element): string
  {
    if |e.className| == 0 && |specified| == 0 then ComponentClass(e.id)
    else if |specified| > 0 && e.localName != I then specified
    else LastToken(e.className)
  }

  /**
   * With a consistent cache the update throws exactly when it adds a rule
   * whose class does not name an identifier; the error is a SyntaxError and
   * the sheet is left as it was.
   */
  lemma StyleUpdateThrows(s: Sheet, showScrollBar: int, specified: string, style: string, e: Element)
    requires Valid(s)
    ensures var r := StyleUpdate(s, showScrollBar, specified, style, e);
      (r.result.Err? <==> AddsRule(s, specified, e) && !StartsIdent(AddedClass(specified, e)))
      && (r.result.Err? ==> r.result.error == SyntaxError && r.sheet == s)
  {
    ComponentClassStarts(e.id);
    var cls := ComponentClass(e.id);
    if cls in s.cache {
      assert s.cache[cls] < |s.rules|;
    } else if |specified| > 0 && specified in s.cache {
      assert s.cache[specified] < |s.rules|;
    }
  }

  /** Every outcome keeps every cached index pointing at a rule and removes no rule. */
  lemma StyleUpdateKeepsValid(s: Sheet, showScrollBar: int, specified: string, style: string, e: Element)
    requires Valid(s)
    ensures var r := StyleUpdate(s, showScrollBar, specified, style, e);
      Valid(r.sheet) && |r.sheet.rules| >= |s.rules|
  {
    StyleUpdateThrows(s, showScrollBar, specified, style, e);
  }

  /** A component whose class is cached has its rule rewritten at the same index and nothing else moves. */
  lemma CachedClassReplacedInPlace(s: Sheet, showScrollBar: int, specified: string, style: string, e: Element)
    requires Valid(s) && ComponentClass(e.id) in s.cache
    ensures var cls := ComponentClass(e.id);
      var r := StyleUpdate(s, showScrollBar, specified, style, e);
      r.result == Ok(cls) && r.sheet.cache == s.cache
      && |r.sheet.rules| == |s.rules|
      && r.sheet.rules[s.cache[cls]] == ClassRule(cls, style)
      && (forall j :: 0 <= j < |s.rules| && j != s.cache[cls] ==> r.sheet.rules[j] == s.rules[j])
      && r.element.className == cls
  {
    ComponentClassStarts(e.id);
  }

  /**
   * When only the specified class is cached, the index is read under the
   * component class, which is absent, so rule 0 is the one rewritten and the
   * specified class's own rule is left as it was.
   */
  lemma SpecifiedCachedRewritesRuleZero(s: Sheet, showScrollBar: int, specified: string, style: string, e: Element)
    requires Valid(s) && ComponentClass(e.id) !in s.cache && |specified| > 0 && specified in s.cache
    ensures var cls := ComponentClass(e.id);
      var r := StyleUpdate(s, showScrollBar, specified, style, e);
      r.result == Ok(cls) && r.sheet.rules == s.rules[0 := ClassRule(cls, style)]
      && r.sheet.cache == s.cache
      && (s.cache[specified] != 0 ==> r.sheet.rules[s.cache[specified]] == s.rules[s.cache[specified]])
      && r.element.className == cls
  {
    ComponentClassStarts(e.id);
    assert s.cache[specified] < |s.rules|;
  }

  /**
   * A fresh unstyled component: its rule is appended and cached under the
   * component class, followed by the scrollbar rule exactly when the engine
   * says the scrollbar is hidden.
   */
  lemma FreshComponentAppends(s: Sheet, showScrollBar: int, style: string, e: Element)
    requires ComponentClass(e.id) !in s.cache && |e.className| == 0
    ensures var cls := ComponentClass(e.id);
      var r := StyleUpdate(s, showScrollBar, "", style, e);
      r.result == Ok(cls) && r.sheet.rules == s.rules + [ClassRule(cls, style)]
        + (if showScrollBar == 0 then [HideScrollbar(cls)] else [])
      && r.sheet.cache == s.cache[cls := |s.rules|]
      && r.element.className == cls
  {
    var cls := ComponentClass(e.id);
    ComponentClassStarts(e.id);
    var once := s.rules + [ClassRule(cls, style)];
    assert InsertRuleAt(s.rules, ClassRule(cls, style), |s.rules|) == Ok(once);
    assert InsertRuleAt(once, HideScrollbar(cls), |once|) == Ok(once + [HideScrollbar(cls)]);
  }

  /** Styling a fresh component a second time with the same style leaves the sheet as it is. */
  lemma RestyleIsStable(s: Sheet, showScrollBar: int, style: string, e: Element,
                        showScrollBar': int, specified': string, e': Element)
    requires ComponentClass(e.id) !in s.cache && |e.className| == 0 && e'.id == e.id
    ensures var first := StyleUpdate(s, showScrollBar, "", style, e);
      first.result.Ok?
      && StyleUpdate(first.sheet, showScrollBar', specified', style, e')
         == Styled(first.sheet, e'.(className := ComponentClass(e.id)), Ok(ComponentClass(e.id)))
  {
    FreshComponentAppends(s, showScrollBar, style, e);
    var first := StyleUpdate(s, showScrollBar, "", style, e).sheet;
    var cls := ComponentClass(e.id);
    ComponentClassStarts(e.id);
    assert first.cache[cls] == |s.rules|;
    assert first.rules[|s.rules|] == ClassRule(cls, style);
    assert first.rules[|s.rules| := ClassRule(cls, style)] == first.rules;
  }

  /**
   * A specified class on a non-icon element: the element adopts it, then its
   * rule is appended and cached; a class that names no identifier throws
   * after the element has adopted it.
   */
  lemma SpecifiedClassAppends(s: Sheet, showScrollBar: int, specified: string, style: string, e: Element)
    requires ComponentClass(e.id) !in s.cache && |specified| > 0 && specified !in s.cache && e.localName != I
    ensures var r := StyleUpdate(s, showScrollBar, specified, style, e);
      r.element == e.(className := specified)
      && (StartsIdent(specified) ==>
            r.sheet.rules == s.rules + [ClassRule(specified, style)]
            && r.sheet.cache == s.cache[specified := |s.rules|]
            && r.result == Ok(ComponentClass(e.id)))
      && (!StartsIdent(specified) ==> r.sheet == s && r.result == Err(SyntaxError))
  {
  }

  /**
   * The remaining case (icons, or an element that already has a class): the
   * rule selects the last space-separated token while the cache key and the
   * returned name are the whole className; the element is not touched. A
   * last token that names no identifier (an empty className, or one ending
   * in a space) throws and changes nothing.
   */
  lemma ExistingClassAppends(s: Sheet, showScrollBar: int, specified: string, style: string, e: Element)
    requires ComponentClass(e.id) !in s.cache && !(|specified| > 0 && specified in s.cache)
    requires !(|e.className| == 0 && |specified| == 0) && !(|specified| > 0 && e.localName != I)
    ensures var r := StyleUpdate(s, showScrollBar, specified, style, e);
      r.element == e
      && (StartsIdent(LastToken(e.className)) ==>
            r.sheet.rules == s.rules + [ClassRule(LastToken(e.className), style)]
            && r.sheet.cache == s.cache[e.className := |s.rules|]
            && r.result == Ok(e.className))
      && (!StartsIdent(LastToken(e.className)) ==> r.sheet == s && r.result == Err(SyntaxError))
  {
  }

  /** An icon whose className is empty and whose style id is not cached throws: its rule would select `.`. */
  lemma EmptyIconClassThrows(s: Sheet, showScrollBar: int, specified: string, style: string, e: Element)
    requires ComponentClass(e.id) !in s.cache && |specified| > 0 && specified !in s.cache
    requires e.localName == I && e.className == ""
    ensures StyleUpdate(s, showScrollBar, specified, style, e) == Styled(s, e, Err(SyntaxError))
  {
    assert Split("", ' ') == [""];
  }

  /** The structured hover rule has exactly the text `applyHoverClass` builds. */
  lemma HoverRuleText(e: Element, styleId: string, hover: string)
    ensures Css(HoverRule(HoverClass(e, styleId), HoverTarget(styleId), hover))
      == HoverSelector(e, styleId) + " { " + hover + " }"
  {
    if |styleId| > 0 && styleId[0] == '.' {
      assert "." + styleId[1..] == styleId;
    }
  }

  /**
   * The hover rule lives under `hover-<id>`: rewritten in place when cached,
   * appended and cached otherwise. A selector that does not parse throws a
   * SyntaxError; in the cached case the delete has already happened, so the
   * rule is gone and the later rules have moved down by one.
   */
  lemma HoverRuleKeyed(s: Sheet, e: Element, styleId: string, hover: string)
    requires Valid(s)
    ensures var rule := HoverRule(HoverClass(e, styleId), HoverTarget(styleId), hover);
      var name := HoverName(e.id);
      var r := HoverUpdate(s, e, styleId, hover);
      (r.thrown.None? <==> Parses(rule)) && (r.thrown.Some? ==> r.thrown.value == SyntaxError)
      && (Parses(rule) ==> Valid(r.sheet))
      && (name in s.cache ==>
            r.sheet == Sheet(if Parses(rule) then s.rules[s.cache[name] := rule]
                             else s.rules[..s.cache[name]] + s.rules[s.cache[name] + 1..], s.cache))
      && (name !in s.cache ==>
            r.sheet == if Parses(rule) then Sheet(s.rules + [rule], s.cache[name := |s.rules|]) else s)
  {
  }

  /**
   * A failed re-insert of a cached hover rule leaves the cache stale: the
   * entry that named the last rule now names no rule at all.
   */
  lemma HoverFailureLeavesStaleCache(s: Sheet, e: Element, styleId: string, hover: string, k: string)
    requires Valid(s) && HoverName(e.id) in s.cache && k in s.cache && s.cache[k] == |s.rules| - 1
    requires !Parses(HoverRule(HoverClass(e, styleId), HoverTarget(styleId), hover))
    ensures var r := HoverUpdate(s, e, styleId, hover);
      r.thrown == Some(SyntaxError) && |r.sheet.rules| == |s.rules| - 1 && !Valid(r.sheet)
  {
    HoverRuleKeyed(s, e, styleId, hover);
    var r := HoverUpdate(s, e, styleId, hover);
    assert r.sheet.cache[k] >= |r.sheet.rules|;
  }

  /**
   * Check-mark styling adds the two `:checked` rules and the class once; a
   * cached component class makes it a no-op. Nothing is cached by it.
   */
  lemma CheckMarkOnce(s: Sheet, id: string, e: Element, css: string)
    ensures var cls := ComponentClass(id);
      var r := CheckMarkUpdate(s, id, e, css);
      r.Ok? && r.value.0.cache == s.cache
      && (cls in s.cache ==> r.value == (s, e))
      && (cls !in s.cache ==>
            r.value.0.rules == s.rules + [CheckedRule(cls, css), CheckedAfterRule(cls, css)]
            && r.value.1 == e.(className := AddClass(e.className, cls)))
  {
    var cls := ComponentClass(id);
    ComponentClassStarts(id);
    var once := s.rules + [CheckedRule(cls, css)];
    assert InsertRuleAt(s.rules, CheckedRule(cls, css), |s.rules|) == Ok(once);
    assert InsertRuleAt(once, CheckedAfterRule(cls, css), |once|) == Ok(once + [CheckedAfterRule(cls, css)]);
  }

  /** Keyframes are appended as the last rule. */
  lemma KeyframesAppended(s: Sheet, keyframes: string)
    ensures KeyframesUpdate(s, keyframes) == Ok(Sheet(s.rules + [KeyframesRule(keyframes)], s.cache))
  {
    assert s.rules[..|s.rules|] + [KeyframesRule(keyframes)] + s.rules[|s.rules|..] == s.rules + [KeyframesRule(keyframes)];
  }

  /** A later sheet: no fewer rules, and a consistent cache stays consistent. */
  predicate Extends(s: Sheet, s': Sheet)
  {
    |s.rules| <= |s'.rules| && (Valid(s) ==> Valid(s'))
  }

  /**
   * Whatever branch runs, only the element's className changes; an update
   * that returns only replaces or appends rules, and one that throws leaves
   * at most one rule fewer.
   */
  lemma StyleUpdateExtends(s: Sheet, showScrollBar: int, specified: string, style: string, e: Element)
    ensures var r := StyleUpdate(s, showScrollBar, specified, style, e);
      r.element == e.(className := r.element.className)
      && (r.result.Ok? ==> Extends(s, r.sheet))
      && |s.rules| <= |r.sheet.rules| + 1
  {
  }

  lemma HoverUpdateExtends(s: Sheet, e: Element, styleId: string, hover: string)
    ensures var r := HoverUpdate(s, e, styleId, hover);
      (r.thrown.None? ==> Extends(s, r.sheet)) && |s.rules| <= |r.sheet.rules| + 1
  {
  }

  lemma CheckMarkExtends(s: Sheet, id: string, e: Element, css: string)
    ensures var r := CheckMarkUpdate(s, id, e, css);
      r.Ok? ==> Extends(s, r.value.0) && r.value.1 == e.(className := r.value.1.className)
  {
  }

  /** The page's stylesheet together with `styleRuleCache`. */
  class StyleSheet {
    var rules: seq<Rule>
    var cache: map<string, nat>

    function State(): Sheet
      reads this
    {
      Sheet(rules, cache)
    }

    constructor ()
      ensures State() == Sheet([], map[])
    {
      rules := [];
      cache := map[];
    }

    method InsertRule(rule: Rule, index: nat) returns (r: Result<()>)
      modifies this`rules
      ensures r.Ok? <==> InsertRuleAt(old(rules), rule, index).Ok?
      ensures r.Err? ==> r.error == InsertRuleAt(old(rules), rule, index).error
      ensures rules == if r.Ok? then InsertRuleAt(old(rules), rule, index).value else old(rules)
    {
      if index > |rules| {
        return Err(IndexSizeError);
      }
      if !Parses(rule) {
        return Err(SyntaxError);
      }
      rules := rules[..index] + [rule] + rules[index..];
      r := Ok(());
    }

    method DeleteRule(index: nat) returns (r: Result<()>)
      modifies this`rules
      ensures r.Ok? <==> DeleteRuleAt(old(rules), index).Ok?
      ensures r.Err? ==> r.error == IndexSizeError
      ensures rules == if r.Ok? then DeleteRuleAt(old(rules), index).value else old(rules)
    {
      if index >= |rules| {
        return Err(IndexSizeError);
      }
      rules := rules[..index] + rules[index + 1..];
      r := Ok(());
    }

    /** `deleteRule(index)` then `insertRule(rule, index)`, stopping at the first exception. */
    method ReplaceRule(rule: Rule, index: nat) returns (thrown: Option<JsError>)
      modifies this`rules
      ensures Edit(rules, thrown) == ReplaceRuleAt(old(rules), rule, index)
    {
      var deleted := DeleteRule(index);
      if deleted.Err? {
        return Some(deleted.error);
      }
      var inserted := InsertRule(rule, index);
      thrown := if inserted.Ok? then None else Some(inserted.error);
    }

    /** `updateComponentStyle`: the element as the source leaves it, and the returned class name or the exception. */
    method UpdateComponentStyle(showScrollBar: int, specified: string, style: string, e: Element)
      returns (element: Element, r: Result<string>)
      modifies this
      ensures StyleUpdate(old(State()), showScrollBar, specified, style, e) == Styled(State(), element, r)
    {
      var className := ComponentClass(e.id);
      ComponentClassStarts(e.id);
      if className in cache {
        var ruleIndex := cache[className];
        var thrown := ReplaceRule(ClassRule(className, style), ruleIndex);
        if thrown.Some? {
          return e, Err(thrown.value);
        }
        element, r := e.(className := className), Ok(className);
      } else if |specified| > 0 && specified in cache {
        var ruleIndex := IndexOf(cache, className);
        var thrown := ReplaceRule(ClassRule(className, style), ruleIndex);
        if thrown.Some? {
          return e, Err(thrown.value);
        }
        element, r := e.(className := className), Ok(className);
      } else if |e.className| == 0 && |specified| == 0 {
        var newIndex := |rules|;
        // The component class parses and the index is the length, so neither insert throws.
        var _ := InsertRule(ClassRule(className, style), newIndex);
        cache := cache[className := newIndex];
        if showScrollBar == 0 {
          var _ := InsertRule(HideScrollbar(className), |rules|);
        }
        element, r := e.(className := className), Ok(className);
      } else if |specified| > 0 && e.localName != I {
        element := e.(className := specified);
        var newIndex := |rules|;
        var inserted := InsertRule(ClassRule(specified, style), newIndex);
        if inserted.Err? {
          return element, Err(inserted.error);
        }
        cache := cache[specified := newIndex];
        r := Ok(className);
      } else {
        className := e.className;
        var newIndex := |rules|;
        var inserted := InsertRule(ClassRule(LastToken(className), style), newIndex);
        if inserted.Err? {
          return e, Err(inserted.error);
        }
        cache := cache[className := newIndex];
        element, r := e, Ok(className);
      }
    }

    /** `applyHoverClass`: the exception it threw, if any. */
    method ApplyHoverClass(e: Element, styleId: string, hover: string) returns (thrown: Option<JsError>)
      modifies this
      ensures HoverUpdate(old(State()), e, styleId, hover) == Applied(State(), thrown)
    {
      var styleName := HoverName(e.id);
      var hoverCss := HoverRule(HoverClass(e, styleId), HoverTarget(styleId), hover);
      if styleName in cache {
        var ruleIndex := cache[styleName];
        thrown := ReplaceRule(hoverCss, ruleIndex);
      } else {
        var newIndex := |rules|;
        var inserted := InsertRule(hoverCss, newIndex);
        if inserted.Err? {
          return Some(inserted.error);
        }
        cache := cache[styleName := newIndex];
        thrown := None;
      }
    }

    /** `checkMarkStyling`: returns the element with the component class added when the rules were inserted. */
    method CheckMarkStyling(id: string, e: Element, css: string) returns (r: Result<Element>)
      modifies this
      ensures var spec := CheckMarkUpdate(old(State()), id, e, css);
        if spec.Ok? then r == Ok(spec.value.1) && State() == spec.value.0 else r == Err(spec.error) && State() == old(State())
    {
      var className := ComponentClass(id);
      if className in cache {
        return Ok(e);
      }
      // Both rules select the component class, which parses, so neither insert throws.
      ComponentClassStarts(id);
      var _ := InsertRule(CheckedRule(className, css), |rules|);
      var _ := InsertRule(CheckedAfterRule(className, css), |rules|);
      r := Ok(e.(className := AddClass(e.className, className)));
    }

    /** `addKeyframesToStylesheet`. */
    method AddKeyframes(keyframes: string) returns (r: Result<()>)
      modifies this
      ensures var spec := KeyframesUpdate(old(State()), keyframes);
        if spec.Ok? then r.Ok? && State() == spec.value else r.Err? && State() == old(State())
    {
      r := InsertRule(KeyframesRule(keyframes), |rules|);
    }
  }
}
