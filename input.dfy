// `processInputElement`: the input sub-record the engine lays out for an
// INPUT node, decoded through a DataView over [createInput(node),
// createInput(node) + getInputSize(node)), and the element properties set
// from it.
module Input {
  import opened Wrappers
  import opened Memory
  import opened Dom
  import opened Decoder
  import opened Keys

  /**
   * A length word the `minLength` and `maxLength` setters accept. Both IDL
   * attributes are `long`s reflected as non-negative numbers only, so the
   * u32 word is converted to a `long` and a negative one is refused.
   */
  type Length = w: nat | w < 0x8000_0000

  /** The WebIDL conversion of a number to `long` (ToInt32): words from 2^31 up wrap to negative values. */
  function ToLong(w: nat): (l: int)
    ensures -0x8000_0000 <= l < 0x8000_0000
    ensures w < 0x8000_0000 ==> l == w
    ensures 0x8000_0000 <= w < TWO32 ==> l == w - TWO32
  {
    var u := w % TWO32;
    if u < 0x8000_0000 then u else u - TWO32
  }

  /**
   * A length word read at `off` and handed at once to its setter: a
   * RangeError outside the view, an IndexSizeError from the setter when the
   * word is negative as a `long`.
   */
  function LengthAt(m: seq<uint8>, v: View, off: nat): (r: Result<Length>)
    ensures r.Ok? <==> v.base + v.len <= |m| && off + 4 <= v.len && LE32(m, v.base + off) < 0x8000_0000
    ensures r.Ok? ==> r.value == LE32(m, v.base + off)
    ensures r.Err? ==> (r.error == IndexSizeError <==> GetUint32(m, v, off).Ok?)
    ensures r.Err? ==> r.error == IndexSizeError || r.error == RangeError
  {
    var w :- GetUint32(m, v, off);
    if ToLong(w) < 0 then Err(IndexSizeError) else Ok(w)
  }

  /** What the record holds beyond the name, by input kind. */
  datatype InputFields =
    | NumberFields(numPlaceholder: nat, numValue: nat)
    | TextFields(placeholder: Option<string>, value: Option<string>, minLength: Length, maxLength: Length)
    | RadioFields(value: Option<string>)
    | NoFields

  datatype InputRecord = InputRecord(kind: nat, name: Option<string>, fields: InputFields)

  /** Kinds 2, 5 and 6 (text, password, email) share one layout. */
  predicate TextLike(kind: nat) { kind == 2 || kind == 5 || kind == 6 }

  /**
   * The record at its fixed byte offsets; strings are read only behind
   * non-zero pointers. The source sets each length right after reading its
   * word, so a length the setter refuses ends the read there.
   */
  function InputRecordAt(m: seq<uint8>, v: View, kind: nat): Result<InputRecord>
  {
    var name :- ReadGuarded(m, v, 8, 12);
    var fields :-
      if kind == 0 then
        var placeholder :- GetUint32(m, v, 20);
        var value :- GetUint32(m, v, 28);
        Ok(NumberFields(placeholder, value))
      else if TextLike(kind) then
        var placeholder :- ReadGuarded(m, v, 20, 24);
        var value :- ReadGuarded(m, v, 32, 36);
        var minLength :- LengthAt(m, v, 44);
        var maxLength :- LengthAt(m, v, 52);
        Ok(TextFields(placeholder, value, minLength, maxLength))
      else if kind == 4 then
        var value :- ReadGuarded(m, v, 20, 24);
        Ok(RadioFields(value))
      else Ok(NoFields);
    Ok(InputRecord(kind, name, fields))
  }

  /** The byte cursor walk of the source: skip 8, name pair, then the kind's fields. */
  method ReadInputRecord(m: seq<uint8>, v: View, kind: nat) returns (r: Result<InputRecord>)
    ensures r == InputRecordAt(m, v, kind)
  {
    var offset := 0;
    offset := offset + 8;
    var namePtr :- GetUint32(m, v, offset);
    offset := offset + 4;
    var name: Option<string> := None;
    if namePtr != 0 {
      var nameLen :- GetUint32(m, v, offset);
      var s :- ReadWasmString(m, namePtr, nameLen);
      name := Some(s);
    }
    offset := offset + 8;
    var fields := NoFields;
    if kind == 0 {
      var placeholder :- GetUint32(m, v, offset);
      offset := offset + 8;
      var value :- GetUint32(m, v, offset);
      fields := NumberFields(placeholder, value);
    } else if TextLike(kind) {
      var placeholderPtr :- GetUint32(m, v, offset);
      offset := offset + 4;
      var placeholder: Option<string> := None;
      if placeholderPtr != 0 {
        var placeholderLen :- GetUint32(m, v, offset);
        var s :- ReadWasmString(m, placeholderPtr, placeholderLen);
        placeholder := Some(s);
      }
      offset := offset + 8;
      var valuePtr :- GetUint32(m, v, offset);
      offset := offset + 4;
      var value: Option<string> := None;
      if valuePtr != 0 {
        var valueLen :- GetUint32(m, v, offset);
        var s :- ReadWasmString(m, valuePtr, valueLen);
        value := Some(s);
      }
      offset := offset + 8;
      var minLength :- LengthAt(m, v, offset);
      offset := offset + 8;
      var maxLength :- LengthAt(m, v, offset);
      fields := TextFields(placeholder, value, minLength, maxLength);
    } else if kind == 4 {
      var valuePtr :- GetUint32(m, v, offset);
      offset := offset + 4;
      var value: Option<string> := None;
      if valuePtr != 0 {
        var valueLen :- GetUint32(m, v, offset);
        var s :- ReadWasmString(m, valuePtr, valueLen);
        value := Some(s);
      }
      fields := RadioFields(value);
    }
    return Ok(InputRecord(kind, name, fields));
  }

  /** The `type` the element is given: codes 0, 2, 4, 5, 6, 7; any other code sets none. */
  function TypeName(kind: nat): Option<string>
  {
    if kind == 0 then Some("number")
    else if kind == 2 then Some("text")
    else if kind == 4 then Some("radio")
    else if kind == 5 then Some("password")
    else if kind == 6 then Some("email")
    else if kind == 7 then Some("file")
    else None
  }

  /** The properties the record sets, in the source's order; a zero word or a null string sets nothing. */
  function InputProps(a: map<Prop, string>, rec: InputRecord): map<Prop, string>
  {
    var a1 := if rec.name.Some? then a[Name := rec.name.value] else a;
    var a2 :=
      match rec.fields
      case NumberFields(placeholder, _) => if placeholder != 0 then a1[Placeholder := Decimal(placeholder)] else a1
      case TextFields(placeholder, _, minLength, maxLength) =>
        var b := if placeholder.Some? then a1[Placeholder := placeholder.value] else a1;
        var c := if minLength != 0 then b[AriaValueMin := Decimal(minLength)][MinLength := Decimal(minLength)] else b;
        if maxLength != 0 then c[AriaValueMin := Decimal(maxLength)][MaxLength := Decimal(maxLength)] else c
      case _ => a1;
    var t := TypeName(rec.kind);
    if t.Some? then a2[Type := t.value] else a2
  }

  /** The value the record sets, if any. */
  function InputValue(v: string, rec: InputRecord): string
  {
    match rec.fields
    case NumberFields(_, value) => if value != 0 then Decimal(value) else v
    case TextFields(_, value, _, _) => if value.Some? then value.value else v
    case RadioFields(value) => if value.Some? then value.value else v
    case NoFields => v
  }

  /** The element after `processInputElement` has set its properties. */
  function ApplyInput(e: Element, rec: InputRecord): (e': Element)
    ensures e' == e.(attrs := e'.attrs, value := e'.value)
  {
    e.(attrs := InputProps(e.attrs, rec), value := InputValue(e.value, rec))
  }

  /** The name pair sits at bytes 8 and 12; the length is read only behind a non-zero pointer. */
  lemma NameAt(m: seq<uint8>, v: View, kind: nat)
    requires InputRecordAt(m, v, kind).Ok?
    ensures v.base + v.len <= |m| && 12 <= v.len
    ensures var rec := InputRecordAt(m, v, kind).value;
      (LE32(m, v.base + 8) == 0 <==> rec.name == None)
      && (LE32(m, v.base + 8) != 0 ==>
            16 <= v.len && ReadWasmString(m, LE32(m, v.base + 8), LE32(m, v.base + 12)) == Ok(rec.name.value))
  {
  }

  /**
   * Text, password and email: placeholder pair at 20/24, value pair at 32/36,
   * minLength at 44 and maxLength at 52.
   */
  lemma TextLikeLayout(m: seq<uint8>, v: View, kind: nat)
    requires TextLike(kind) && InputRecordAt(m, v, kind).Ok?
    ensures 56 <= v.len && v.base + v.len <= |m|
    ensures var f := InputRecordAt(m, v, kind).value.fields;
      f.TextFields?
      && f.minLength == LE32(m, v.base + 44) && f.maxLength == LE32(m, v.base + 52)
      && LE32(m, v.base + 44) < 0x8000_0000 && LE32(m, v.base + 52) < 0x8000_0000
      && (f.placeholder.Some? <==> LE32(m, v.base + 20) != 0)
      && (f.placeholder.Some? ==> ReadWasmString(m, LE32(m, v.base + 20), LE32(m, v.base + 24)) == Ok(f.placeholder.value))
      && (f.value.Some? <==> LE32(m, v.base + 32) != 0)
      && (f.value.Some? ==> ReadWasmString(m, LE32(m, v.base + 32), LE32(m, v.base + 36)) == Ok(f.value.value))
  {
  }

  /**
   * A text, password or email record throws IndexSizeError exactly when the
   * strings before the lengths were read and the minLength word at 44 is
   * negative as a `long`, or, that word accepted, the maxLength word at 52
   * is. A refused minLength throws even when the view ends before byte 56.
   */
  lemma LengthWordsThrow(m: seq<uint8>, v: View, kind: nat)
    requires TextLike(kind)
    ensures InputRecordAt(m, v, kind) == Err(IndexSizeError) <==>
      ReadGuarded(m, v, 8, 12).Ok? && ReadGuarded(m, v, 20, 24).Ok? && ReadGuarded(m, v, 32, 36).Ok? && 48 <= v.len
      && (LE32(m, v.base + 44) >= 0x8000_0000 || (56 <= v.len && LE32(m, v.base + 52) >= 0x8000_0000))
  {
    GuardedFailsInRange(m, v, 8, 12);
    GuardedFailsInRange(m, v, 20, 24);
    GuardedFailsInRange(m, v, 32, 36);
  }

  /** The string reads fail only with a RangeError. */
  lemma GuardedFailsInRange(m: seq<uint8>, v: View, ptrOff: nat, lenOff: nat)
    ensures ReadGuarded(m, v, ptrOff, lenOff).Err? ==> ReadGuarded(m, v, ptrOff, lenOff).error == RangeError
  {
  }

  /** Number inputs: the two words at 20 and 28; radio inputs: the value pair at 20/24. */
  lemma NumberAndRadioLayout(m: seq<uint8>, v: View, kind: nat)
    requires (kind == 0 || kind == 4) && InputRecordAt(m, v, kind).Ok?
    ensures var f := InputRecordAt(m, v, kind).value.fields;
      (kind == 0 ==> 32 <= v.len && f == NumberFields(LE32(m, v.base + 20), LE32(m, v.base + 28)))
      && (kind == 4 ==>
            24 <= v.len && f.RadioFields? && (f.value.Some? <==> LE32(m, v.base + 20) != 0)
            && (f.value.Some? ==> ReadWasmString(m, LE32(m, v.base + 20), LE32(m, v.base + 24)) == Ok(f.value.value)))
  {
  }

  /** The element's type is set exactly for the six known codes and kept otherwise. */
  lemma TypeSetByKind(e: Element, rec: InputRecord)
    ensures var e' := ApplyInput(e, rec);
      (TypeName(rec.kind).Some? ==> Type in e'.attrs && e'.attrs[Type] == TypeName(rec.kind).value)
      && (TypeName(rec.kind).None? && Type in e.attrs ==> Type in e'.attrs && e'.attrs[Type] == e.attrs[Type])
  {
  }

  /**
   * A zero word sets nothing: a zero number value keeps the element's value.
   * A text input's non-zero lengths set minLength and maxLength (a record
   * only holds lengths the setters accept, see LengthWordsThrow), and its
   * maxLength overwrites the ariaValueMin its minLength set; the name is set
   * exactly when the record has one.
   */
  lemma InputPropsByField(e: Element, rec: InputRecord)
    ensures var e' := ApplyInput(e, rec);
      (rec.fields.NumberFields? ==>
         e'.value == if rec.fields.numValue == 0 then e.value else Decimal(rec.fields.numValue))
      && (rec.fields.TextFields? && rec.fields.maxLength != 0 ==>
            AriaValueMin in e'.attrs && e'.attrs[AriaValueMin] == Decimal(rec.fields.maxLength))
      && (rec.fields.TextFields? && rec.fields.minLength != 0 && rec.fields.maxLength == 0 ==>
            AriaValueMin in e'.attrs && e'.attrs[AriaValueMin] == Decimal(rec.fields.minLength))
      && (rec.fields.TextFields? && rec.fields.minLength != 0 ==>
            MinLength in e'.attrs && e'.attrs[MinLength] == Decimal(rec.fields.minLength))
      && (rec.fields.TextFields? && rec.fields.maxLength != 0 ==>
            MaxLength in e'.attrs && e'.attrs[MaxLength] == Decimal(rec.fields.maxLength))
      && (rec.name.Some? ==> Name in e'.attrs && e'.attrs[Name] == rec.name.value)
      && (rec.name.None? && Name in e.attrs ==> Name in e'.attrs && e'.attrs[Name] == e.attrs[Name])
  {
  }
}
