// The engine's linear memory seen from JavaScript: a byte sequence, read
// through DataView and Uint8Array windows whose bounds the browser checks.
module Memory {
  import opened Wrappers

  type uint8 = x: int | 0 <= x < 0x100

  const TWO32: nat := 0x1_0000_0000

  /** The little-endian unsigned 32-bit value at byte position p. */
  function LE32(m: seq<uint8>, p: nat): (v: nat)
    requires p + 4 <= |m|
    ensures v < TWO32
  {
    (m[p] as int) + 0x100 * (m[p + 1] as int) + 0x1_0000 * (m[p + 2] as int) + 0x100_0000 * (m[p + 3] as int)
  }

  /** The little-endian unsigned 64-bit value at byte position p. */
  function LE64(m: seq<uint8>, p: nat): (v: nat)
    requires p + 8 <= |m|
    ensures v < TWO32 * TWO32
  {
    LE32(m, p) + TWO32 * LE32(m, p + 4)
  }

  /** The four bytes that DataView.setUint32(_, v, true) stores. */
  function EncodeLE32(v: nat): (bs: seq<uint8>)
    requires v < TWO32
    ensures |bs| == 4 && LE32(bs, 0) == v
  {
    var q1 := v / 0x100;
    var q2 := q1 / 0x100;
    var q3 := q2 / 0x100;
    assert v == v % 0x100 + 0x100 * q1;
    assert q1 == q1 % 0x100 + 0x100 * q2;
    assert q2 == q2 % 0x100 + 0x100 * q3;
    [v % 0x100, q1 % 0x100, q2 % 0x100, q3]
  }

  /** The eight bytes that DataView.setBigUint64(_, v, true) stores. */
  function EncodeLE64(v: nat): (bs: seq<uint8>)
    requires v < TWO32 * TWO32
    ensures |bs| == 8 && LE64(bs, 0) == v
  {
    var lo, hi := EncodeLE32(v % TWO32), EncodeLE32(v / TWO32);
    assert (lo + hi)[..4] == lo && (lo + hi)[4..] == hi;
    LE32Slice(lo + hi, 0);
    LE32Slice(lo + hi, 4);
    lo + hi
  }

  /** LE32 only looks at the four bytes it decodes. */
  lemma LE32Slice(m: seq<uint8>, p: nat)
    requires p + 4 <= |m|
    ensures LE32(m, p) == LE32(m[p..p + 4], 0)
  {
  }

  /** `m` with the bytes `bs` stored from position p on. */
  function Store(m: seq<uint8>, p: nat, bs: seq<uint8>): (m': seq<uint8>)
    requires p + |bs| <= |m|
    ensures |m'| == |m| && m'[p..p + |bs|] == bs
    ensures forall i :: 0 <= i < |m| && !(p <= i < p + |bs|) ==> m'[i] == m[i]
  {
    m[..p] + bs + m[p + |bs|..]
  }

  /** A DataView: a window [base, base + len) on the buffer. */
  datatype View = View(base: nat, len: nat)

  /** `new DataView(buffer, base, len)`: a RangeError when the window leaves the buffer. */
  function NewView(m: seq<uint8>, base: nat, len: nat): (r: Result<View>)
    ensures r.Ok? <==> base + len <= |m|
    ensures r.Ok? ==> r.value == View(base, len)
  {
    if base + len <= |m| then Ok(View(base, len)) else Err(RangeError)
  }

  /** `view.getUint32(off, true)`: a RangeError unless the four bytes lie inside the view. */
  function GetUint32(m: seq<uint8>, v: View, off: nat): (r: Result<nat>)
    ensures r.Ok? <==> v.base + v.len <= |m| && off + 4 <= v.len
    ensures r.Err? ==> r.error == RangeError
    ensures r.Ok? ==> r.value == LE32(m, v.base + off)
  {
    if v.base + v.len <= |m| && off + 4 <= v.len then Ok(LE32(m, v.base + off)) else Err(RangeError)
  }

  /** `view.getUint8(off)`. */
  function GetUint8(m: seq<uint8>, v: View, off: nat): (r: Result<nat>)
    ensures r.Ok? <==> v.base + v.len <= |m| && off < v.len
    ensures r.Ok? ==> r.value == m[v.base + off]
  {
    if v.base + v.len <= |m| && off < v.len then Ok(m[v.base + off]) else Err(RangeError)
  }

  /**
   * Text made of the given bytes, one character per byte. This is what
   * TextDecoder yields on ASCII input; multi-byte UTF-8 decoding is not modelled.
   */
  function Widen(bs: seq<uint8>): (s: string)
    ensures |s| == |bs|
    ensures forall i :: 0 <= i < |bs| ==> s[i] as int == bs[i]
  {
    seq(|bs|, i requires 0 <= i < |bs| => bs[i] as char)
  }

  /** `readWasmString(ptr, len)`: `new Uint8Array(buffer, ptr, len)` decoded to text. */
  function ReadWasmString(m: seq<uint8>, ptr: nat, len: nat): (r: Result<string>)
    ensures r.Ok? <==> ptr + len <= |m|
    ensures r.Ok? ==> r.value == Widen(m[ptr..ptr + len])
  {
    if ptr + len <= |m| then Ok(Widen(m[ptr..ptr + len])) else Err(RangeError)
  }

  /** The `ptr ? readWasmString(ptr, len) : ""` idiom: a null pointer means the empty string. */
  function ReadOptString(m: seq<uint8>, ptr: nat, len: nat): (r: Result<string>)
    ensures ptr == 0 ==> r == Ok("")
    ensures ptr != 0 ==> r == ReadWasmString(m, ptr, len)
  {
    if ptr == 0 then Ok("") else ReadWasmString(m, ptr, len)
  }

  /** Reading back what was stored gives the stored value. */
  lemma {:induction false} LE32AfterStore(m: seq<uint8>, p: nat, v: nat)
    requires v < TWO32 && p + 4 <= |m|
    ensures LE32(Store(m, p, EncodeLE32(v)), p) == v
  {
    var m' := Store(m, p, EncodeLE32(v));
    LE32Slice(m', p);
  }

  /** Same for 64-bit values. */
  lemma {:induction false} LE64AfterStore(m: seq<uint8>, p: nat, v: nat)
    requires v < TWO32 * TWO32 && p + 8 <= |m|
    ensures LE64(Store(m, p, EncodeLE64(v)), p) == v
  {
    var bs := EncodeLE64(v);
    var m' := Store(m, p, bs);
    LE32Slice(m', p);
    LE32Slice(m', p + 4);
    LE32Slice(bs, 0);
    LE32Slice(bs, 4);
    assert m'[p..p + 4] == bs[0..4];
    assert m'[p + 4..p + 8] == bs[4..8];
  }
}
