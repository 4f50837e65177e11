// The host side of string passing: `allocString`, `encodeString`,
// `rerenderRoute` and `navToRoute` ask the engine for |CString(s)| bytes,
// |utf8(s)| + 1, and fill them in place with CString(s): the UTF-8 bytes of s
// and a terminating 0.
module Wasm {
  import opened Wrappers
  import opened Memory
  import opened Utf8

  /** Calls into the engine, in the order they are made. */
  datatype EngineCall =
    | AllocUint8(size: nat)
    | SetRouteRenderTree(ptr: nat)
    | CallRouteRenderCycle(ptr: nat)

  /** The bytes a string occupies in engine memory: its UTF-8 encoding, then 0. */
  function CString(s: string): (bs: seq<uint8>)
    ensures |bs| == |Encode(s)| + 1 && bs[|Encode(s)|] == 0 && bs[..|Encode(s)|] == Encode(s)
  {
    Encode(s) + [0]
  }

  /** The length of a zero-terminated string: the position of the first 0 byte. */
  function CStrLen(bs: seq<uint8>): (n: nat)
    ensures n <= |bs|
    ensures forall i :: 0 <= i < n ==> bs[i] != 0
    ensures n < |bs| ==> bs[n] == 0
  {
    if bs == [] || bs[0] == 0 then 0 else 1 + CStrLen(bs[1..])
  }

  /**
   * An engine that reads the region as a zero-terminated string gets back exactly
   * the UTF-8 bytes of s, which decode to s, as long as s holds no U+0000.
   */
  lemma {:induction false} CStringRoundTrip(s: string)
    requires '\0' !in s
    ensures CStrLen(CString(s)) == |Encode(s)|
    ensures Decode(CString(s)[..CStrLen(CString(s))]) == Some(s)
  {
    var bs := CString(s);
    ZeroByteIffNul(s);
    DecodeEncode(s);
  }

  /** The engine instance as the host sees it: its linear memory and the calls made into it. */
  class Instance {
    const memory: array<uint8>
    var calls: seq<EngineCall>

    constructor (size: nat)
      ensures memory.Length == size && calls == []
      ensures forall i :: 0 <= i < size ==> memory[i] == 0
    {
      memory := new uint8[size](_ => 0);
      calls := [];
    }

    /**
     * The shared body of the four entry points: allocUint8(|utf8(s)| + 1), whose
     * answer is `granted`, then the bytes and the 0 written in place. The
     * Uint8Array constructor throws a RangeError when the region leaves memory.
     */
    method WriteCString(s: string, granted: nat) returns (r: Result<nat>)
      modifies this, memory
      ensures calls == old(calls) + [AllocUint8(|CString(s)|)]
      ensures r.Ok? <==> granted + |CString(s)| <= memory.Length
      ensures r.Ok? ==> r.value == granted && memory[..] == Store(old(memory[..]), granted, CString(s))
      ensures r.Err? ==> r.error == RangeError && memory[..] == old(memory[..])
    {
      var buffer := Encode(s);
      calls := calls + [AllocUint8(|buffer| + 1)];
      if granted + |buffer| + 1 > memory.Length {
        return Err(RangeError);
      }
      var i := 0;
      while i < |buffer|
        modifies memory
        invariant 0 <= i <= |buffer|
        invariant forall k :: 0 <= k < i ==> memory[granted + k] == buffer[k]
        invariant forall k :: 0 <= k < memory.Length && !(granted <= k < granted + i) ==> memory[k] == old(memory[k])
      {
        memory[granted + i] := buffer[i];
        i := i + 1;
      }
      memory[granted + |buffer|] := 0;
      ghost var expected := Store(old(memory[..]), granted, CString(s));
      forall k | 0 <= k < memory.Length
        ensures memory[k] == expected[k]
      {
        if granted <= k < granted + |buffer| + 1 {
          assert expected[k] == expected[granted..granted + |buffer| + 1][k - granted];
        }
      }
      assert memory[..] == expected;
      return Ok(granted);
    }

    /** `allocString(s)`: the pointer to the filled region. */
    method AllocString(s: string, granted: nat) returns (r: Result<nat>)
      modifies this, memory
      ensures calls == old(calls) + [AllocUint8(|CString(s)|)]
      ensures r.Ok? <==> granted + |CString(s)| <= memory.Length
      ensures r.Ok? ==> r.value == granted && memory[..] == Store(old(memory[..]), granted, CString(s))
      ensures r.Err? ==> memory[..] == old(memory[..])
    {
      r := WriteCString(s, granted);
    }

    /** `encodeString(s)` and `navToRoute(s)`: the region is handed to setRouteRenderTree. */
    method EncodeString(s: string, granted: nat) returns (r: Result<()>)
      modifies this, memory
      ensures r.Ok? <==> granted + |CString(s)| <= memory.Length
      ensures r.Ok? ==> calls == old(calls) + [AllocUint8(|CString(s)|), SetRouteRenderTree(granted)]
      ensures r.Ok? ==> memory[..] == Store(old(memory[..]), granted, CString(s))
      ensures r.Err? ==> calls == old(calls) + [AllocUint8(|CString(s)|)] && memory[..] == old(memory[..])
    {
      var p :- WriteCString(s, granted);
      calls := calls + [SetRouteRenderTree(p)];
      return Ok(());
    }

    /** `rerenderRoute(route)`: the region is handed to callRouteRenderCycle instead. */
    method RerenderRoute(route: string, granted: nat) returns (r: Result<()>)
      modifies this, memory
      ensures r.Ok? <==> granted + |CString(route)| <= memory.Length
      ensures r.Ok? ==> calls == old(calls) + [AllocUint8(|CString(route)|), CallRouteRenderCycle(granted)]
      ensures r.Ok? ==> memory[..] == Store(old(memory[..]), granted, CString(route))
      ensures r.Err? ==> calls == old(calls) + [AllocUint8(|CString(route)|)] && memory[..] == old(memory[..])
    {
      var p :- WriteCString(route, granted);
      calls := calls + [CallRouteRenderCycle(p)];
      return Ok(());
    }
  }
}
