// The string keys the host builds: `String(n)` for a number, the two
// event-handler key formats of the `eventHandlers` Map, and the hook key.
module Keys {

  /** JavaScript's String(n) for a non-negative integer. */
  function Decimal(n: nat): (s: string)
    ensures |s| >= 1 && forall i :: 0 <= i < |s| ==> '0' <= s[i] <= '9'
    ensures n == 0 <==> s == "0"
  {
    if n < 10 then ['0' + n as char]
    else Decimal(n / 10) + ['0' + (n % 10) as char]
  }

  /** Different numbers print differently. */
  lemma {:induction false} DecimalInjective(a: nat, b: nat)
    requires Decimal(a) == Decimal(b)
    ensures a == b
  {
    if a >= 10 && b >= 10 {
      var da, db := Decimal(a / 10), Decimal(b / 10);
      assert da == Decimal(a)[..|Decimal(a)| - 1];
      assert db == Decimal(b)[..|Decimal(b)| - 1];
      DecimalInjective(a / 10, b / 10);
      assert Decimal(a)[|Decimal(a)| - 1] == Decimal(b)[|Decimal(b)| - 1];
    }
  }

  /** `fb-evt-hd-${id}-${elementId}`: set by createElementEventListener and the input listener, read by removeElementEventListener. */
  function PlainKey(id: nat, elementId: string): string
  {
    "fb-evt-hd-" + Decimal(id) + "-" + elementId
  }

  /** `fb-inst-evt-hd-${id}-${elementId}`: set by createElementEventInstListener. */
  function InstKey(id: nat, elementId: string): string
  {
    "fb-inst-evt-hd-" + Decimal(id) + "-" + elementId
  }

  /** Instance listeners are never hit by a plain-listener lookup. */
  lemma PlainNeverInst(id: nat, elementId: string, id': nat, elementId': string)
    ensures PlainKey(id, elementId) != InstKey(id', elementId')
  {
    assert PlainKey(id, elementId)[3] == 'e';
    assert InstKey(id', elementId')[3] == 'i';
  }

  /** In u + [c] + x with c not in u, the first c sits right after u. */
  lemma FirstSeparator(u: string, x: string, c: char)
    requires c !in u
    ensures (u + [c] + x)[|u|] == c
    ensures forall i :: 0 <= i < |u| ==> (u + [c] + x)[i] != c
  {
    forall i | 0 <= i < |u| ensures (u + [c] + x)[i] != c {
      assert (u + [c] + x)[i] == u[i];
    }
  }

  /** A separator that occurs in neither head splits a joined string uniquely. */
  lemma SplitAtFirst(u: string, x: string, v: string, y: string, c: char)
    requires c !in u && c !in v && u + [c] + x == v + [c] + y
    ensures u == v && x == y
  {
    FirstSeparator(u, x, c);
    FirstSeparator(v, y, c);
    assert |u| == |v|;
    assert u == (u + [c] + x)[..|u|];
    assert v == (v + [c] + y)[..|v|];
    assert x == (u + [c] + x)[|u| + 1..];
    assert y == (v + [c] + y)[|v| + 1..];
  }

  /** A plain key names one (callback id, element id) pair. */
  lemma PlainKeyInjective(id: nat, elementId: string, id': nat, elementId': string)
    requires PlainKey(id, elementId) == PlainKey(id', elementId')
    ensures id == id' && elementId == elementId'
  {
    var prefix := "fb-evt-hd-";
    var k, k' := PlainKey(id, elementId), PlainKey(id', elementId');
    assert Decimal(id) + "-" + elementId == k[|prefix|..];
    assert Decimal(id') + "-" + elementId' == k'[|prefix|..];
    assert '-' !in Decimal(id) && '-' !in Decimal(id');
    SplitAtFirst(Decimal(id), elementId, Decimal(id'), elementId', '-');
    DecimalInjective(id, id');
  }

  /** An instance-listener key names one (callback id, element id) pair. */
  lemma InstKeyInjective(id: nat, elementId: string, id': nat, elementId': string)
    requires InstKey(id, elementId) == InstKey(id', elementId')
    ensures id == id' && elementId == elementId'
  {
    var prefix := "fb-inst-evt-hd-";
    var k, k' := InstKey(id, elementId), InstKey(id', elementId');
    assert Decimal(id) + "-" + elementId == k[|prefix|..];
    assert Decimal(id') + "-" + elementId' == k'[|prefix|..];
    assert '-' !in Decimal(id) && '-' !in Decimal(id');
    SplitAtFirst(Decimal(id), elementId, Decimal(id'), elementId', '-');
    DecimalInjective(id, id');
  }

  /** `${endpoint}-${id}`: the key createHookWASM registers a hook under. */
  function HookKey(endpoint: string, id: nat): string
  {
    endpoint + "-" + Decimal(id)
  }

  /** A separator that occurs in neither tail splits a joined string uniquely, at its last occurrence. */
  lemma SplitAtLast(u: string, x: string, v: string, y: string, c: char)
    requires c !in x && c !in y && u + [c] + x == v + [c] + y
    ensures u == v && x == y
  {
    var k := u + [c] + x;
    assert !(|x| < |y|) by { assert k[|u|] == c; }
    assert !(|y| < |x|) by { assert k[|v|] == c; }
    assert u == k[..|u|] && v == k[..|v|];
    assert x == k[|u| + 1..] && y == k[|v| + 1..];
  }

  /**
   * A hook key names one (endpoint, hook id) pair, even for endpoints that
   * contain `-` themselves: the id is the digits after the last `-`.
   */
  lemma HookKeyInjective(endpoint: string, id: nat, endpoint': string, id': nat)
    requires HookKey(endpoint, id) == HookKey(endpoint', id')
    ensures endpoint == endpoint' && id == id'
  {
    assert '-' !in Decimal(id) && '-' !in Decimal(id');
    SplitAtLast(endpoint, Decimal(id), endpoint', Decimal(id'), '-');
    DecimalInjective(id, id');
  }
}
