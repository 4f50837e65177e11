// The live DOM as the model sees it: elements keyed by their id attribute
// (what document.getElementById looks up), each with its parent, its
// children's ids and the listeners the renderer attached.
module Dom {
  import opened Wrappers
  import opened Text

  /** Event listeners the renderer installs, by what they do when fired. */
  datatype Listener =
    | DialogShowOnClick(dialogId: string, btnId: nat)
    | DialogCloseOnClick(dialogId: string, btnId: nat)
    | ButtonOnClick(buttonId: string)
    | CtxButtonOnClick(buttonId: string)
    | LinkOnClick
    | RemoveOnAnimationEnd(animationName: string)

  /** The tags the renderer creates (`input` and `option` are written InputTag and OptionTag). */
  datatype Tag =
    | P | Textarea | Img | Div | Dialog | Button | InputTag | H1 | A | Link | I
    | Ul | Li | Select | OptionTag | Label | Form | Table | Tr | Td | Th | Tbody | Canvas

  /** The element properties and attributes the renderer sets besides id, text, value and class. */
  datatype Prop =
    | Type | Name | Placeholder | AriaValueMin | MinLength | MaxLength
    | Src | Href | Rel | HtmlFor | Action

  datatype Element = Element(
    localName: Tag,
    id: string,
    textContent: string,
    innerHTML: string,
    value: string,
    className: string,
    attrs: map<Prop, string>,
    parent: Option<string>,
    children: seq<string>,
    listeners: seq<Listener>)

  type Document = map<string, Element>

  /** `document.createElement(tag)`. */
  function CreateElement(tag: Tag): (e: Element)
    ensures e.localName == tag && e.id == "" && e.className == "" && e.children == [] && e.parent == None
  {
    Element(tag, "", "", "", "", "", map[], None, [], [])
  }

  function SetAttr(e: Element, name: Prop, v: string): (e': Element)
    ensures e'.attrs.Keys == e.attrs.Keys + {name} && e'.attrs[name] == v
    ensures forall p :: p in e.attrs && p != name ==> e'.attrs[p] == e.attrs[p]
    ensures e' == e.(attrs := e'.attrs)
  {
    e.(attrs := e.attrs[name := v])
  }

  /** The ASCII whitespace a DOMTokenList splits on: tab, LF, FF, CR and space. */
  predicate AsciiSpace(c: char)
  {
    c == ' ' || c == '\t' || c == '\n' || c == '\U{C}' || c == '\r'
  }

  /** A token `classList.add` accepts holds no ASCII whitespace. */
  predicate Plain(t: string)
  {
    forall i :: 0 <= i < |t| ==> !AsciiSpace(t[i])
  }

  /** The only ASCII whitespace in s is the space. */
  predicate SpacesOnly(s: string)
  {
    forall i :: 0 <= i < |s| && AsciiSpace(s[i]) ==> s[i] == ' '
  }

  /** The string with every ASCII whitespace character written as a space. */
  function Spaced(s: string): (r: string)
    ensures |r| == |s| && SpacesOnly(r)
    ensures forall i :: 0 <= i < |s| && !AsciiSpace(s[i]) ==> r[i] == s[i]
  {
    seq(|s|, i requires 0 <= i < |s| => if AsciiSpace(s[i]) then ' ' else s[i])
  }

  /**
   * The class tokens of a className, in order, each once: the className is
   * split on ASCII whitespace and the empty pieces dropped.
   */
  function Tokens(className: string): seq<string>
  {
    Dedup(NonEmpty(Split(Spaced(className), ' ')), [])
  }

  /** Every token of a className is non-empty and holds no ASCII whitespace. */
  lemma TokensPlain(className: string)
    ensures forall i :: 0 <= i < |Tokens(className)| ==> Tokens(className)[i] != "" && Plain(Tokens(className)[i])
  {
    var s := Spaced(className);
    var parts := Split(s, ' ');
    SplitChars(s, ' ');
    forall i | 0 <= i < |Tokens(className)|
      ensures Tokens(className)[i] != "" && Plain(Tokens(className)[i])
    {
      var t := Tokens(className)[i];
      assert t in NonEmpty(parts);
      var n :| 0 <= n < |parts| && parts[n] == t;
      forall j | 0 <= j < |t| ensures !AsciiSpace(t[j]) {
        assert t[j] in s && t[j] != ' ';
      }
    }
  }

  /** The pieces of a split are made of the split string's characters. */
  lemma {:induction false} SplitChars(s: string, c: char)
    ensures forall i, j :: 0 <= i < |Split(s, c)| && 0 <= j < |Split(s, c)[i]| ==> Split(s, c)[i][j] in s
  {
    if s != [] {
      SplitChars(s[1..], c);
      var rest := Split(s[1..], c);
      forall i, j | 0 <= i < |Split(s, c)| && 0 <= j < |Split(s, c)[i]| ensures Split(s, c)[i][j] in s {
        if s[0] != c && i == 0 && j > 0 {
          assert Split(s, c)[0][j] == rest[0][j - 1];
        } else if s[0] != c && i > 0 {
          assert Split(s, c)[i] == rest[i];
        } else if s[0] == c && i > 0 {
          assert Split(s, c)[i] == rest[i - 1];
        }
      }
    }
  }

  /** Joining tokens free of ASCII whitespace with spaces leaves the space as the only whitespace. */
  lemma {:induction false} JoinSpacesOnly(parts: seq<string>)
    requires forall i :: 0 <= i < |parts| ==> Plain(parts[i])
    ensures SpacesOnly(Join(parts, ' '))
    decreases |parts|
  {
    if |parts| > 1 {
      JoinSpacesOnly(parts[1..]);
      var a, b := parts[0], Join(parts[1..], ' ');
      assert Plain(a);
      forall i | 0 <= i < |a + [' '] + b| && AsciiSpace((a + [' '] + b)[i]) ensures (a + [' '] + b)[i] == ' ' {
        if i > |a| {
          assert (a + [' '] + b)[i] == b[i - |a| - 1];
        }
      }
    } else if |parts| == 1 {
      assert Plain(parts[0]);
    }
  }

  function Dedup(xs: seq<string>, seen: seq<string>): (r: seq<string>)
    ensures forall i :: 0 <= i < |r| ==> r[i] in xs && r[i] !in seen
    ensures forall x :: x in xs && x !in seen ==> x in r
    ensures forall i, j :: 0 <= i < j < |r| ==> r[i] != r[j]
  {
    if xs == [] then []
    else if xs[0] in seen then Dedup(xs[1..], seen)
    else [xs[0]] + Dedup(xs[1..], seen + [xs[0]])
  }

  /** example: a tab, like a space, separates two class tokens. */
  lemma TabSeparatesTokens()
    ensures Tokens("a\tb") == ["a", "b"]
  {
    assert Spaced("a\tb") == "a b";
    assert Split("a b", ' ') == ["a", "b"] by {
      assert Split("b", ' ') == ["b"] by {
        assert "b"[1..] == "" && Split("", ' ') == [""];
        assert ['b'] + "" == "b" && [""][1..] == [];
      }
      assert Split(" b", ' ') == ["", "b"] by { assert " b"[1..] == "b"; }
      assert "a b"[1..] == " b";
      assert ['a'] + "" == "a" && ["", "b"][1..] == ["b"];
    }
    assert NonEmpty(["a", "b"]) == ["a", "b"] by {
      assert NonEmpty(["b"]) == ["b"] by { assert NonEmpty(["b"][1..]) == []; }
      assert ["a", "b"][1..] == ["b"];
    }
    assert Dedup(["a", "b"], []) == ["a", "b"] by {
      assert Dedup(["b"], ["a"]) == ["b"] by { assert ["b"][1..] == []; }
      assert ["a", "b"][1..] == ["b"];
    }
  }

  /** `classList.add(token)`: the token set with the token added, serialized with single spaces. */
  function AddClass(className: string, token: string): string
  {
    var tokens := Tokens(className);
    Join(if token in tokens then tokens else tokens + [token], ' ')
  }

  /** After `classList.add(token)` the element carries the token, together with every class it had. */
  lemma {:induction false} AddClassHasToken(className: string, token: string)
    requires token != "" && Plain(token)
    ensures token in Tokens(AddClass(className, token))
    ensures forall t :: t in Tokens(className) ==> t in Tokens(AddClass(className, token))
  {
    var tokens := Tokens(className);
    var added := if token in tokens then tokens else tokens + [token];
    TokensPlain(className);
    assert forall i :: 0 <= i < |added| ==> Plain(added[i]) && added[i] != "" by {
      forall i | 0 <= i < |added| ensures Plain(added[i]) && added[i] != "" {
        if i < |tokens| {
          assert added[i] == tokens[i];
        }
      }
    }
    assert forall i :: 0 <= i < |added| ==> ' ' !in added[i];
    var joined := Join(added, ' ');
    JoinSpacesOnly(added);
    assert Spaced(joined) == joined;
    assert |added| >= 1;
    SplitJoin(added, ' ');
    NonEmptyKeepsNonEmpty(added);
    assert NonEmpty(Split(Spaced(AddClass(className, token)), ' ')) == added;
    DedupDistinct(added);
  }

  /** Deduplicating a duplicate-free sequence changes nothing. */
  lemma {:induction false} DedupDistinct(xs: seq<string>)
    requires forall i, j :: 0 <= i < j < |xs| ==> xs[i] != xs[j]
    ensures Dedup(xs, []) == xs
  {
    DedupFresh(xs, []);
  }

  lemma {:induction false} DedupFresh(xs: seq<string>, seen: seq<string>)
    requires forall i, j :: 0 <= i < j < |xs| ==> xs[i] != xs[j]
    requires forall i :: 0 <= i < |xs| ==> xs[i] !in seen
    ensures Dedup(xs, seen) == xs
  {
    if xs != [] {
      DedupFresh(xs[1..], seen + [xs[0]]);
      assert [xs[0]] + xs[1..] == xs;
    }
  }

  /**
   * An element is in the document when its parent chain reaches the root
   * element; the fuel bounds the walk by the number of elements.
   */
  predicate Connected(doc: Document, root: string, id: string, fuel: nat)
    decreases fuel
  {
    id in doc
    && (id == root
        || (fuel > 0 && doc[id].parent.Some? && Connected(doc, root, doc[id].parent.value, fuel - 1)))
  }

  /** `document.getElementById(id)`: only elements attached under the root are found. */
  function GetElementById(doc: Document, root: string, id: string): (r: Option<string>)
    ensures r.Some? ==> r.value == id && id in doc
    ensures r.Some? <==> Connected(doc, root, id, |doc|)
  {
    if Connected(doc, root, id, |doc|) then Some(id) else None
  }

  function Without(xs: seq<string>, x: string): (r: seq<string>)
    ensures x !in r
    ensures forall y :: y in xs && y != x ==> y in r
    ensures forall y :: y in r ==> y in xs
  {
    if xs == [] then [] else if xs[0] == x then Without(xs[1..], x) else [xs[0]] + Without(xs[1..], x)
  }

  /**
   * `el.remove()`: the element is unlinked from its parent's children and has
   * no parent; the element itself (and its own subtree) still exists.
   */
  function Detach(doc: Document, id: string): (doc': Document)
    ensures doc'.Keys == doc.Keys
    ensures id in doc ==> doc'[id] == doc[id].(parent := None)
    ensures id in doc && doc[id].parent.Some? && doc[id].parent.value in doc && doc[id].parent.value != id ==>
      doc'[doc[id].parent.value].children == Without(doc[doc[id].parent.value].children, id)
    ensures forall k :: k in doc && k != id && (id in doc && doc[id].parent.Some? ==> k != doc[id].parent.value) ==> doc'[k] == doc[k]
    ensures forall k :: k in doc && k != id ==> doc'[k] == doc[k].(children := doc'[k].children)
  {
    if id !in doc then doc
    else
      var p := doc[id].parent;
      var doc1 := if p.Some? && p.value in doc && p.value != id
                  then doc[p.value := doc[p.value].(children := Without(doc[p.value].children, id))]
                  else doc;
      doc1[id := doc1[id].(parent := None)]
  }

  /** A removed element is no longer found by id (unless it is the root itself). */
  lemma DetachedNotFound(doc: Document, root: string, id: string)
    requires id in doc && id != root
    ensures GetElementById(Detach(doc, id), root, id) == None
  {
  }

  /**
   * Storing a new element object under an id whose old object may still be
   * held, detached, by the page: the old object keeps its children, so they
   * stop hanging under the id and their subtrees are out of the page.
   */
  function Replace(doc: Document, id: string, e: Element): (doc': Document)
    ensures doc'.Keys == doc.Keys + {id} && doc'[id] == e
    ensures forall k :: k in doc && k != id && doc[k].parent == Some(id) ==> doc'[k] == doc[k].(parent := None)
    ensures forall k :: k in doc && k != id && doc[k].parent != Some(id) ==> doc'[k] == doc[k]
  {
    var kept := map k | k in doc :: if k != id && doc[k].parent == Some(id) then doc[k].(parent := None) else doc[k];
    kept[id := e]
  }

  /**
   * A child of the replaced object is not found once the id holds the new
   * object, and attaching the new object does not bring it back.
   */
  lemma ReplacedChildrenNotFound(doc: Document, id: string, e: Element, root: string, parentId: string, k: string)
    requires k in doc && k != id && k != root && doc[k].parent == Some(id)
    ensures var d := Replace(doc, id, e);
      && GetElementById(d, root, k) == None
      && GetElementById(AppendChild(d, parentId, id), root, k) == None
  {
    var d := Replace(doc, id, e);
    assert d[k].parent == None;
    var a := AppendChild(d, parentId, id);
    if parentId in d && id in d && parentId != id {
      assert Detach(d, id)[k].parent == None;
    }
    assert a[k].parent == None;
  }

  /** `parent.appendChild(child)`: the child leaves its old parent and becomes the last child of `parentId`. */
  function AppendChild(doc: Document, parentId: string, childId: string): (doc': Document)
    ensures doc'.Keys == doc.Keys
    ensures parentId in doc && childId in doc && parentId != childId ==>
      doc'[childId].parent == Some(parentId)
      && doc'[parentId].children == Detach(doc, childId)[parentId].children + [childId]
    ensures forall k :: k in doc ==> doc'[k].listeners == doc[k].listeners && doc'[k].className == doc[k].className
  {
    if parentId in doc && childId in doc && parentId != childId then
      var d := Detach(doc, childId);
      var d1 := d[childId := d[childId].(parent := Some(parentId))];
      d1[parentId := d1[parentId].(children := d1[parentId].children + [childId])]
    else doc
  }

  /** An element attached under a found parent is found too. */
  lemma AppendedIsFound(doc: Document, root: string, parentId: string, childId: string)
    requires childId in doc && childId != root && parentId != childId
    requires Connected(Detach(doc, childId), root, parentId, |doc| - 1)
    ensures GetElementById(AppendChild(doc, parentId, childId), root, childId) == Some(childId)
  {
    ConnectedAfterAppend(doc, root, parentId, childId, parentId, |doc| - 1);
  }

  /** Appending a detached child moves no element other than the child and its new parent. */
  lemma {:induction false} ConnectedAfterAppend(doc: Document, root: string, parentId: string, childId: string,
                                                 x: string, fuel: nat)
    requires childId in doc && parentId != childId
    requires Connected(Detach(doc, childId), root, x, fuel)
    ensures Connected(AppendChild(doc, parentId, childId), root, x, fuel)
    decreases fuel
  {
    var det := Detach(doc, childId);
    var d := AppendChild(doc, parentId, childId);
    if x != root {
      var p := det[x].parent.value;
      ConnectedAfterAppend(doc, root, parentId, childId, p, fuel - 1);
      if x != childId {
        assert d[x].parent == det[x].parent;
      }
    }
  }
}
