// The render-command layout descriptor that `init` reads once from the
// engine: 23 little-endian u32 words, field k at layoutInfoPtr + 4k.
module Layout {
  import opened Wrappers
  import opened Memory

  /** Byte offsets and sizes inside one render-command record, as the engine reports them. */
  datatype Layout = Layout(
    renderCommandSize: nat,
    boundingBoxOffset: nat,
    elemTypeOffset: nat,
    textPtrOffset: nat,
    textLenOffset: nat,
    hrefPtrOffset: nat,
    hrefLenOffset: nat,
    propsOffset: nat,
    propsSize: nat,
    propsBtnIdOffset: nat,
    dialogIdPtrOffset: nat,
    dialogIdLenOffset: nat,
    idPtrOffset: nat,
    idLenOffset: nat,
    showOffset: nat,
    hooksOffset: nat,
    nodePtrOffset: nat,
    propsHoverOffset: nat,
    propsHoverSize: nat,
    propsExitAnimation: nat,
    propsExitAnimationLength: nat,
    propsStyleId: nat,
    propsStyleIdLength: nat)

  const FieldCount: nat := 23

  /** The descriptor's fields in memory order. */
  function Fields(l: Layout): (fs: seq<nat>)
    ensures |fs| == FieldCount
  {
    [l.renderCommandSize, l.boundingBoxOffset, l.elemTypeOffset, l.textPtrOffset,
     l.textLenOffset, l.hrefPtrOffset, l.hrefLenOffset, l.propsOffset, l.propsSize,
     l.propsBtnIdOffset, l.dialogIdPtrOffset, l.dialogIdLenOffset, l.idPtrOffset,
     l.idLenOffset, l.showOffset, l.hooksOffset, l.nodePtrOffset, l.propsHoverOffset,
     l.propsHoverSize, l.propsExitAnimation, l.propsExitAnimationLength, l.propsStyleId,
     l.propsStyleIdLength]
  }

  /** `new DataView(buffer, p, 4).getUint32(0, true)`. */
  function Word(m: seq<uint8>, p: nat): (r: Result<nat>)
    ensures r.Ok? <==> p + 4 <= |m|
    ensures r.Ok? ==> r.value == LE32(m, p)
  {
    var v :- NewView(m, p, 4);
    GetUint32(m, v, 0)
  }

  /** The descriptor read in `init`; a RangeError when it does not fit in memory. */
  function ReadLayout(m: seq<uint8>, ptr: nat): (r: Result<Layout>)
    ensures r.Ok? <==> ptr + 4 * FieldCount <= |m|
    ensures r.Ok? ==> forall k :: 0 <= k < FieldCount ==> Fields(r.value)[k] == LE32(m, ptr + 4 * k)
  {
    var f0 :- Word(m, ptr);
    var f1 :- Word(m, ptr + 4);
    var f2 :- Word(m, ptr + 8);
    var f3 :- Word(m, ptr + 12);
    var f4 :- Word(m, ptr + 16);
    var f5 :- Word(m, ptr + 20);
    var f6 :- Word(m, ptr + 24);
    var f7 :- Word(m, ptr + 28);
    var f8 :- Word(m, ptr + 32);
    var f9 :- Word(m, ptr + 36);
    var f10 :- Word(m, ptr + 40);
    var f11 :- Word(m, ptr + 44);
    var f12 :- Word(m, ptr + 48);
    var f13 :- Word(m, ptr + 52);
    var f14 :- Word(m, ptr + 56);
    var f15 :- Word(m, ptr + 60);
    var f16 :- Word(m, ptr + 64);
    var f17 :- Word(m, ptr + 68);
    var f18 :- Word(m, ptr + 72);
    var f19 :- Word(m, ptr + 76);
    var f20 :- Word(m, ptr + 80);
    var f21 :- Word(m, ptr + 84);
    var f22 :- Word(m, ptr + 88);
    Ok(Layout(f0, f1, f2, f3, f4, f5, f6, f7, f8, f9, f10, f11, f12, f13, f14, f15,
              f16, f17, f18, f19, f20, f21, f22))
  }

  /** The descriptor is determined by the 23 words in memory: any layout whose fields are those words is the one read. */
  lemma {:induction false} ReadLayoutOfStored(m: seq<uint8>, ptr: nat, l: Layout)
    requires ptr + 4 * FieldCount <= |m|
    requires forall k :: 0 <= k < FieldCount ==> LE32(m, ptr + 4 * k) == Fields(l)[k]
    ensures ReadLayout(m, ptr) == Ok(l)
  {
    var r := ReadLayout(m, ptr);
    assert Fields(r.value) == Fields(l);
  }
}
