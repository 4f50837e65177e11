// Three small host functions of the page's import object: the layout
// cache behind getOffsetsWasm, the value text mutateDomElementStyleWasm
// assigns, and the cookie lookup of getCookieWASM.
module HostEnv {
  import opened Wrappers
  import Keys

  // ---------------------------------------------------------------------
  // getOffsetsWasm

  /** What the page reads off an element: offsetTop, offsetLeft, offsetWidth, offsetHeight. */
  datatype Box = Box(top: int, left: int, width: int, height: int)

  /** One `elementDimensions` entry. */
  datatype Dimensions = Dimensions(
    offsetTop: int, offsetLeft: int, offsetRight: int, offsetBottom: int,
    offsetWidth: int, offsetHeight: int, lastUpdateTime: int)

  /** Entries reused within this many milliseconds. */
  const CACHE_MS: int := 16

  /** Right is left plus width and bottom is top plus height. */
  predicate Shaped(d: Dimensions)
  {
    d.offsetRight == d.offsetLeft + d.offsetWidth && d.offsetBottom == d.offsetTop + d.offsetHeight
  }

  /** The entry measured from box b at time `now`. */
  function Measure(b: Box, now: int): (d: Dimensions)
    ensures Shaped(d) && d.lastUpdateTime == now
    ensures d.offsetTop == b.top && d.offsetLeft == b.left && d.offsetWidth == b.width && d.offsetHeight == b.height
  {
    Dimensions(b.top, b.left, b.left + b.width, b.top + b.height, b.width, b.height, now)
  }

  /** The six slots: top, left, right, bottom, width, height. */
  function Bounds(d: Dimensions): (s: seq<int>)
    ensures |s| == 6
    ensures s[0] == d.offsetTop && s[1] == d.offsetLeft && s[2] == d.offsetRight
    ensures s[3] == d.offsetBottom && s[4] == d.offsetWidth && s[5] == d.offsetHeight
  {
    [d.offsetTop, d.offsetLeft, d.offsetRight, d.offsetBottom, d.offsetWidth, d.offsetHeight]
  }

  /** The cached entry for id exists and is younger than 16 ms. */
  predicate Recent(cache: map<string, Dimensions>, id: string, now: int)
  {
    id in cache && now - cache[id].lastUpdateTime < CACHE_MS
  }

  /**
   * getOffsetsWasm(id) at time `now`, with `element` the element
   * getElementById finds: the six slots (None for the null pointer
   * returned when there is no element) and the cache afterwards.
   */
  function Offsets(cache: map<string, Dimensions>, id: string, element: Option<Box>, now: int): (r: (Option<seq<int>>, map<string, Dimensions>))
    ensures element.None? ==> r == (None, cache)
    ensures element.Some? && Recent(cache, id, now) ==> r == (Some(Bounds(cache[id])), cache)
    ensures element.Some? && !Recent(cache, id, now) ==>
      r.1.Keys == cache.Keys + {id} && r.1[id].lastUpdateTime == now && r.0 == Some(Bounds(r.1[id]))
      && forall k :: k in cache && k != id ==> r.1[k] == cache[k]
  {
    match element
    case None => (None, cache)
    case Some(b) =>
      if Recent(cache, id, now) then (Some(Bounds(cache[id])), cache)
      else
        var d := Measure(b, now);
        (Some(Bounds(d)), cache[id := d])
  }

  /** Every cached entry is Shaped. */
  predicate CacheShaped(cache: map<string, Dimensions>)
  {
    forall k :: k in cache ==> Shaped(cache[k])
  }

  /**
   * With a well-formed cache, the slots always satisfy right = left + width
   * and bottom = top + height, fresh or cached, and the cache stays well formed.
   */
  lemma OffsetsShaped(cache: map<string, Dimensions>, id: string, element: Option<Box>, now: int)
    requires CacheShaped(cache)
    ensures CacheShaped(Offsets(cache, id, element, now).1)
    ensures var r := Offsets(cache, id, element, now).0;
      r.Some? ==> r.value[2] == r.value[1] + r.value[4] && r.value[3] == r.value[0] + r.value[5]
  {
    if element.Some? && Recent(cache, id, now) {
      assert Shaped(cache[id]);
    }
  }

  /**
   * A measurement taken at t1 is what a second call sees until 16 ms have
   * passed, whatever the element's box is by then; the cache does not change.
   */
  lemma ReusedWithin16(cache: map<string, Dimensions>, id: string, b1: Box, b2: Box, t1: int, t2: int)
    requires !Recent(cache, id, t1)
    requires t1 <= t2 < t1 + CACHE_MS
    ensures var first := Offsets(cache, id, Some(b1), t1);
      Offsets(first.1, id, Some(b2), t2) == first
  {
  }

  /** Once 16 ms have passed the element is measured again and its current box is what comes back. */
  lemma MeasuredAfter16(cache: map<string, Dimensions>, id: string, b1: Box, b2: Box, t1: int, t2: int)
    requires !Recent(cache, id, t1)
    requires t2 >= t1 + CACHE_MS
    ensures var first := Offsets(cache, id, Some(b1), t1);
      Offsets(first.1, id, Some(b2), t2).0 == Some(Bounds(Measure(b2, t2)))
  {
  }

  /** The `elementDimensions` Map. */
  class DimensionCache {
    var entries: map<string, Dimensions>

    ghost predicate Valid()
      reads this
    {
      CacheShaped(entries)
    }

    constructor()
      ensures entries == map[] && Valid()
    {
      entries := map[];
    }

    /** getOffsetsWasm: the six slots it writes into the allocated Float32Array, or None for the null pointer. */
    method GetOffsets(id: string, element: Option<Box>, now: int) returns (bounds: Option<seq<int>>)
      requires Valid()
      modifies this
      ensures Valid()
      ensures (bounds, entries) == Offsets(old(entries), id, element, now)
    {
      OffsetsShaped(entries, id, element, now);
      if element.None? {
        return None;
      }
      if id in entries && now - entries[id].lastUpdateTime < CACHE_MS {
        return Some(Bounds(entries[id]));
      }
      var d := Measure(element.value, now);
      entries := entries[id := d];
      bounds := Some(Bounds(d));
    }
  }

  // ---------------------------------------------------------------------
  // mutateDomElementStyleWasm

  /** How a whole number prints as a JavaScript string. */
  function NumberText(v: int): (s: string)
  {
    if v < 0 then "-" + Keys.Decimal(-v) else Keys.Decimal(v)
  }

  /** The text assigned to `element.style[attribute]`. */
  function StyleValue(attribute: string, value: int): (s: string)
  {
    if attribute == "top" || attribute == "left" then NumberText(value) + "px" else NumberText(value)
  }

  /** The value gets a `px` unit exactly for `top` and `left`; otherwise it is the bare number. */
  lemma PxOnlyForTopAndLeft(attribute: string, value: int)
    ensures StyleValue(attribute, value) == NumberText(value) + "px" <==> attribute == "top" || attribute == "left"
    ensures StyleValue(attribute, value) == NumberText(value) <==> !(attribute == "top" || attribute == "left")
  {
    if !(attribute == "top" || attribute == "left") {
      assert |StyleValue(attribute, value)| != |NumberText(value) + "px"|;
    } else {
      assert |StyleValue(attribute, value)| != |NumberText(value)|;
    }
  }

  // ---------------------------------------------------------------------
  // getCookieWASM

  /**
   * The pattern `(^| )name=([^;]+)` matches with `name` starting at q: q is
   * the start of the string or follows a space, `name=` is there, and at
   * least one character other than `;` follows.
   */
  predicate PairAt(c: string, name: string, q: nat)
  {
    (q == 0 || (q <= |c| && c[q - 1] == ' '))
    && q + |name| + 1 < |c|
    && c[q..q + |name|] == name && c[q + |name|] == '=' && c[q + |name| + 1] != ';'
  }

  /** The first position from q on where the pattern matches. */
  function FindPair(c: string, name: string, q: nat): (r: Option<nat>)
    ensures r.Some? ==> q <= r.value && PairAt(c, name, r.value)
    ensures r.Some? ==> forall p :: q <= p < r.value ==> !PairAt(c, name, p)
    ensures r.None? ==> forall p :: q <= p ==> !PairAt(c, name, p)
    decreases |c| - q
  {
    if q + |name| + 1 >= |c| then None
    else if PairAt(c, name, q) then Some(q)
    else FindPair(c, name, q + 1)
  }

  /** Positions where the pattern does not match can be skipped. */
  lemma {:induction false} FindPairSkip(c: string, name: string, q: nat, p: nat)
    requires q <= p
    requires forall i :: q <= i < p ==> !PairAt(c, name, i)
    ensures FindPair(c, name, q) == FindPair(c, name, p)
    decreases p - q
  {
    if q < p {
      FindPairSkip(c, name, q + 1, p);
    }
  }

  /** Where the greedy run of non-`;` characters from j stops. */
  function RunEnd(c: string, j: nat): (k: nat)
    requires j <= |c|
    ensures j <= k <= |c| && (k == |c| || c[k] == ';')
    ensures forall i :: j <= i < k ==> c[i] != ';'
    decreases |c| - j
  {
    if j == |c| || c[j] == ';' then j else RunEnd(c, j + 1)
  }

  /**
   * `match[2]` of document.cookie against the pattern for `name`, before
   * decodeURIComponent; None where the page returns null.
   */
  function CookieValue(c: string, name: string): (r: Option<string>)
  {
    match FindPair(c, name, 0)
    case None => None
    case Some(q) => Some(c[q + |name| + 1..RunEnd(c, q + |name| + 1)])
  }

  /** q is the leftmost position where the pattern matches. */
  predicate FirstPair(c: string, name: string, q: nat)
  {
    PairAt(c, name, q) && forall p :: 0 <= p < q ==> !PairAt(c, name, p)
  }

  /**
   * A value comes back exactly when the pattern matches somewhere; it is the
   * whole non-empty, `;`-free text after the leftmost `name=`, up to the next
   * `;` or the end of the string.
   */
  lemma CookieValueSpec(c: string, name: string)
    ensures CookieValue(c, name).Some? <==> exists q :: PairAt(c, name, q)
    ensures CookieValue(c, name).Some? ==>
      var v := CookieValue(c, name).value;
      exists q: nat :: FirstPair(c, name, q)
        && q + |name| + 1 + |v| <= |c| && c[q + |name| + 1..q + |name| + 1 + |v|] == v
        && (q + |name| + 1 + |v| == |c| || c[q + |name| + 1 + |v|] == ';')
        && |v| >= 1 && ';' !in v
  {
    var f := FindPair(c, name, 0);
    if f.Some? {
      var q := f.value;
      var v := CookieValue(c, name).value;
      var j := q + |name| + 1;
      assert FirstPair(c, name, q);
      assert c[j..j + |v|] == v;
      forall i | 0 <= i < |v|
        ensures v[i] != ';'
      {
        assert v[i] == c[j + i];
      }
    } else {
      assert forall q :: !PairAt(c, name, q) by {
        forall q
          ensures !PairAt(c, name, q)
        {
          assert 0 <= q;
        }
      }
    }
  }

  /** In `a=1; b=2` the value of `b` is `2`. */
  lemma SecondCookieFound()
    ensures CookieValue("a=1; b=2", "b") == Some("2")
  {
    var c := "a=1; b=2";
    assert c[0..1][0] != "b"[0];
    forall i | 1 <= i < 5
      ensures !PairAt(c, "b", i)
    {
      assert c[i - 1] != ' ';
    }
    FindPairSkip(c, "b", 0, 5);
    assert PairAt(c, "b", 5);
    assert FindPair(c, "b", 5) == Some(5);
    assert RunEnd(c, 7) == 8 by {
      assert RunEnd(c, 7) == RunEnd(c, 8);
    }
    assert c[7..8] == "2";
  }

  /** A name that only ends another cookie's name does not match: `mytoken=abc` has no `token`. */
  lemma SuffixNameNotFound()
    ensures CookieValue("mytoken=abc", "token") == None
  {
    var c := "mytoken=abc";
    assert FindPair(c, "token", 5) == None;
    assert c[1] != ' ' && c[0] != ' ';
    assert !PairAt(c, "token", 2);
  }

  /** A `name=` with nothing before its `;` does not match; the lookup moves on to the next pair. */
  lemma EmptyValueSkipped()
    ensures CookieValue("token=; token=x", "token") == Some("x")
  {
    var c := "token=; token=x";
    assert c[6] == ';';
    assert !PairAt(c, "token", 0);
    forall i | 1 <= i < 8
      ensures !PairAt(c, "token", i)
    {
      assert c[i - 1] != ' ';
    }
    FindPairSkip(c, "token", 0, 8);
    assert PairAt(c, "token", 8);
    assert FindPair(c, "token", 8) == Some(8);
    assert RunEnd(c, 14) == 15 by {
      assert RunEnd(c, 14) == RunEnd(c, 15);
    }
    assert c[14..15] == "x";
  }
}
