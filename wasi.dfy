// The WASI snapshot_preview1 functions the page gives the engine:
// fd_write, clock_time_get and the timeout read of poll_oneoff. Each works
// on the engine's linear memory through typed-array and DataView windows.
module Wasi {
  import opened Wrappers
  import opened Memory

  /** The errno `badf` of WASI snapshot_preview1. */
  const EBADF: nat := 8
  /** Where poll_oneoff finds the clock timeout inside a subscription. */
  const CLOCK_TIMEOUT_OFFSET: nat := 24
  const NS_PER_MS: nat := 1000000
  const TWO64: nat := TWO32 * TWO32

  /** An iovec is (buf: u32, buf_len: u32); `Uint32Array(buffer, e, 2)` needs e 4-aligned and inside memory. */
  predicate IovFits(m: seq<uint8>, e: nat)
  {
    e % 4 == 0 && e + 8 <= |m|
  }

  /** The buf_len field of the iovec at position e. */
  function IovLen(m: seq<uint8>, e: nat): (len: nat)
    requires e + 8 <= |m|
    ensures len < TWO32
  {
    LE32(m, e + 4)
  }

  /** `written` after the first n iovecs from `iovs` on, or the RangeError a misplaced iovec raises. */
  function IovTotal(m: seq<uint8>, iovs: nat, n: nat): (r: Result<nat>)
    ensures r.Err? ==> r.error == RangeError
    decreases n
  {
    if n == 0 then Ok(0)
    else
      var prev :- IovTotal(m, iovs, n - 1);
      var e := iovs + 8 * (n - 1);
      if !IovFits(m, e) then Err(RangeError) else Ok(prev + IovLen(m, e))
  }

  /** The whole sum is defined exactly when the iovec array is aligned and lies inside memory. */
  lemma {:induction false} IovTotalOk(m: seq<uint8>, iovs: nat, n: nat)
    ensures IovTotal(m, iovs, n).Ok? <==> n == 0 || (iovs % 4 == 0 && iovs + 8 * n <= |m|)
  {
    if n > 0 {
      IovTotalOk(m, iovs, n - 1);
      var e := iovs + 8 * (n - 1);
      assert e % 4 == iovs % 4 by {
        assert e == iovs + 4 * (2 * (n - 1));
      }
    }
  }

  /** Writing n iovecs counts as much as writing the first k and then the rest. */
  lemma {:induction false} IovTotalSplit(m: seq<uint8>, iovs: nat, k: nat, n: nat)
    requires k <= n
    requires IovTotal(m, iovs, n).Ok?
    ensures IovTotal(m, iovs, k).Ok? && IovTotal(m, iovs + 8 * k, n - k).Ok?
    ensures IovTotal(m, iovs, n).value == IovTotal(m, iovs, k).value + IovTotal(m, iovs + 8 * k, n - k).value
    decreases n
  {
    if n > k {
      IovTotalSplit(m, iovs, k, n - 1);
      assert iovs + 8 * k + 8 * (n - k - 1) == iovs + 8 * (n - 1);
    }
  }

  /** Once one iovec is misplaced, every longer sum fails. */
  lemma {:induction false} IovTotalFails(m: seq<uint8>, iovs: nat, i: nat, n: nat)
    requires i < n && !IovFits(m, iovs + 8 * i)
    ensures IovTotal(m, iovs, n) == Err(RangeError)
    decreases n
  {
    if n - 1 > i {
      IovTotalFails(m, iovs, i, n - 1);
    } else {
      assert iovs + 8 * (n - 1) == iovs + 8 * i;
    }
  }

  /**
   * `new Uint32Array(memory.buffer)[nwritten_ptr / 4] = written`: the index
   * must be a whole number below the length, otherwise the assignment does
   * nothing; the stored value is taken modulo 2^32.
   */
  function StoreWritten(m: seq<uint8>, nwritten: nat, written: nat): (m': seq<uint8>)
    ensures |m'| == |m|
  {
    if nwritten % 4 == 0 && nwritten + 4 <= |m| then Store(m, nwritten, EncodeLE32(written % TWO32)) else m
  }

  /** fd_write: the errno it returns (or the exception it throws) and the memory afterwards. */
  function FdWriteSpec(m: seq<uint8>, fd: int, iovs: nat, iovsLen: nat, nwritten: nat): (p: (Result<nat>, seq<uint8>))
  {
    if fd != 1 then (Ok(EBADF), m)
    else match IovTotal(m, iovs, iovsLen)
      case Err(e) => (Err(e), m)
      case Ok(written) =>
        // A Uint32Array over the whole buffer needs its length to be a multiple of 4.
        if |m| % 4 != 0 then (Err(RangeError), m)
        else (Ok(0), StoreWritten(m, nwritten, written))
  }

  /** Any descriptor other than stdout is refused with `badf`, and memory is untouched. */
  lemma BadDescriptor(m: seq<uint8>, fd: int, iovs: nat, iovsLen: nat, nwritten: nat)
    requires fd != 1
    ensures FdWriteSpec(m, fd, iovs, iovsLen, nwritten) == (Ok(EBADF), m)
  {
  }

  /**
   * On stdout with well-placed iovecs and pointer, fd_write returns 0 and the
   * u32 at nwritten_ptr reads back the sum of the lengths modulo 2^32; no
   * other byte changes.
   */
  lemma FdWriteStoresTotal(m: seq<uint8>, iovs: nat, iovsLen: nat, nwritten: nat)
    requires iovsLen == 0 || (iovs % 4 == 0 && iovs + 8 * iovsLen <= |m|)
    requires |m| % 4 == 0 && nwritten % 4 == 0 && nwritten + 4 <= |m|
    ensures IovTotal(m, iovs, iovsLen).Ok?
    ensures FdWriteSpec(m, 1, iovs, iovsLen, nwritten).0 == Ok(0)
    ensures var m' := FdWriteSpec(m, 1, iovs, iovsLen, nwritten).1;
      |m'| == |m|
      && LE32(m', nwritten) == IovTotal(m, iovs, iovsLen).value % TWO32
      && forall i :: 0 <= i < |m| && !(nwritten <= i < nwritten + 4) ==> m'[i] == m[i]
  {
    IovTotalOk(m, iovs, iovsLen);
    var m' := FdWriteSpec(m, 1, iovs, iovsLen, nwritten).1;
    LE32Slice(m', nwritten);
  }

  /** fd_write as the page runs it, on the memory buffer itself. */
  method FdWrite(mem: array<uint8>, fd: int, iovs: nat, iovsLen: nat, nwritten: nat) returns (r: Result<nat>)
    modifies mem
    ensures (r, mem[..]) == FdWriteSpec(old(mem[..]), fd, iovs, iovsLen, nwritten)
  {
    if fd != 1 {
      return Ok(EBADF);
    }
    var written := 0;
    var i := 0;
    while i < iovsLen
      invariant 0 <= i <= iovsLen
      invariant IovTotal(mem[..], iovs, i) == Ok(written)
    {
      var e := iovs + 8 * i;
      if e % 4 != 0 || e + 8 > mem.Length {
        IovTotalFails(mem[..], iovs, i, iovsLen);
        return Err(RangeError);
      }
      written := written + LE32(mem[..], e + 4);
      i := i + 1;
    }
    if mem.Length % 4 != 0 {
      return Err(RangeError);
    }
    if nwritten % 4 == 0 && nwritten + 4 <= mem.Length {
      var bs := EncodeLE32(written % TWO32);
      mem[nwritten] := bs[0];
      mem[nwritten + 1] := bs[1];
      mem[nwritten + 2] := bs[2];
      mem[nwritten + 3] := bs[3];
      assert mem[..] == Store(old(mem[..]), nwritten, bs);
    }
    return Ok(0);
  }

  /** A BigInt stored by setBigUint64 is taken modulo 2^64. */
  function ToUint64(v: nat): (u: nat)
    ensures u < TWO64 && (v < TWO64 ==> u == v)
  {
    v % TWO64
  }

  /** clock_time_get: the wall clock in milliseconds, stored in nanoseconds at resultPtr. */
  function ClockSpec(m: seq<uint8>, resultPtr: nat, nowMs: nat): (p: (Result<nat>, seq<uint8>))
  {
    if resultPtr + 8 <= |m| then (Ok(0), Store(m, resultPtr, EncodeLE64(ToUint64(nowMs * NS_PER_MS))))
    else (Err(RangeError), m)
  }

  /** clock_time_get with the clock reading `nowMs` (Date.now()) as a parameter. */
  method ClockTimeGet(mem: array<uint8>, resultPtr: nat, nowMs: nat) returns (r: Result<nat>)
    modifies mem
    ensures (r, mem[..]) == ClockSpec(old(mem[..]), resultPtr, nowMs)
  {
    if resultPtr + 8 > mem.Length {
      return Err(RangeError);
    }
    var bs := EncodeLE64(ToUint64(nowMs * NS_PER_MS));
    var k := 0;
    while k < 8
      invariant 0 <= k <= 8
      invariant forall j :: 0 <= j < k ==> mem[resultPtr + j] == bs[j]
      invariant forall j :: 0 <= j < mem.Length && !(resultPtr <= j < resultPtr + k) ==> mem[j] == old(mem[j])
    {
      mem[resultPtr + k] := bs[k];
      k := k + 1;
    }
    ghost var expected := Store(old(mem[..]), resultPtr, bs);
    forall j | 0 <= j < mem.Length
      ensures mem[j] == expected[j]
    {
      if resultPtr <= j < resultPtr + 8 {
        assert expected[j] == expected[resultPtr..resultPtr + 8][j - resultPtr];
      }
    }
    assert mem[..] == expected;
    return Ok(0);
  }

  /** LE64 only looks at the eight bytes it decodes. */
  lemma LE64Slice(m: seq<uint8>, p: nat)
    requires p + 8 <= |m|
    ensures LE64(m, p) == LE64(m[p..p + 8], 0)
  {
    assert m[p..p + 8][4..8] == m[p + 4..p + 8];
    LE32Slice(m, p);
    LE32Slice(m, p + 4);
    LE32Slice(m[p..p + 8], 0);
    LE32Slice(m[p..p + 8], 4);
  }

  /** The u64 read back from a store of EncodeLE64(v) is v. */
  lemma StoreLE64ReadBack(m: seq<uint8>, p: nat, v: nat)
    requires p + 8 <= |m| && v < TWO64
    ensures LE64(Store(m, p, EncodeLE64(v)), p) == v
  {
    LE64Slice(Store(m, p, EncodeLE64(v)), p);
  }

  /** clock_time_get succeeds exactly when 8 bytes fit at resultPtr; the u64 there is the time in nanoseconds. */
  lemma ClockStoresNanoseconds(m: seq<uint8>, resultPtr: nat, nowMs: nat)
    ensures ClockSpec(m, resultPtr, nowMs).0.Ok? <==> resultPtr + 8 <= |m|
    ensures resultPtr + 8 <= |m| ==>
      var m' := ClockSpec(m, resultPtr, nowMs).1;
      |m'| == |m| && LE64(m', resultPtr) == (nowMs * NS_PER_MS) % TWO64
  {
    if resultPtr + 8 <= |m| {
      StoreLE64ReadBack(m, resultPtr, ToUint64(nowMs * NS_PER_MS));
    }
  }

  /** poll_oneoff's timeout: the u64 nanoseconds at subscriptions + 24, in whole milliseconds. */
  function PollTimeout(m: seq<uint8>, subscriptions: nat): (r: Result<nat>)
    ensures r.Ok? <==> subscriptions + CLOCK_TIMEOUT_OFFSET + 8 <= |m|
    ensures r.Err? ==> r.error == RangeError
    ensures r.Ok? ==> r.value * NS_PER_MS <= LE64(m, subscriptions + CLOCK_TIMEOUT_OFFSET) < (r.value + 1) * NS_PER_MS
  {
    if subscriptions + CLOCK_TIMEOUT_OFFSET + 8 <= |m| then Ok(LE64(m, subscriptions + CLOCK_TIMEOUT_OFFSET) / NS_PER_MS)
    else Err(RangeError)
  }

  /** What wasm receives from poll_oneoff, and the reason its Promise is rejected, if it is. */
  datatype Polled = Polled(answer: int, rejection: Option<JsError>)

  /**
   * poll_oneoff is an `async` function and the module is instantiated
   * without suspending imports, so wasm receives the returned Promise
   * converted to an i32, which is 0, whatever happens inside. A failed
   * timeout read does not reach wasm: it rejects that Promise.
   */
  function PollOneoff(m: seq<uint8>, subscriptions: nat): (r: Polled)
    ensures r.answer == 0
    ensures r.rejection.Some? <==> PollTimeout(m, subscriptions).Err?
    ensures r.rejection.Some? ==> r.rejection.value == RangeError
  {
    match PollTimeout(m, subscriptions)
    case Err(err) => Polled(0, Some(err))
    case Ok(_) => Polled(0, None)
  }

  /**
   * The two unit conversions agree: a time clock_time_get stores where
   * poll_oneoff reads its timeout comes back in the milliseconds it started
   * as, while it fits in 64 bits of nanoseconds.
   */
  lemma ClockThenPoll(m: seq<uint8>, subscriptions: nat, nowMs: nat)
    requires subscriptions + CLOCK_TIMEOUT_OFFSET + 8 <= |m|
    requires nowMs * NS_PER_MS < TWO64
    ensures PollTimeout(ClockSpec(m, subscriptions + CLOCK_TIMEOUT_OFFSET, nowMs).1, subscriptions) == Ok(nowMs)
  {
    StoreLE64ReadBack(m, subscriptions + CLOCK_TIMEOUT_OFFSET, nowMs * NS_PER_MS);
  }
}
