/** Cells as JSON: one encoding of a parameter, and the readers that must agree on it. */
module Cells {
  import opened Wrappers
  import opened Databases

  type NegativeInt64 = n: int | -0x8000_0000_0000_0000 <= n < 0 witness -1

  /** A JSON number keeps which of three forms it was written in. */
  datatype Number = PosInt(u: UInt64) | NegInt(n: NegativeInt64) | Float(value: real)

  datatype Json =
    | JNull
    | JBool(flag: bool)
    | JNumber(number: Number)
    | JString(text: string)
    | JArray(items: seq<Json>)
    | JObject(fields: map<string, Json>)

  datatype Parameter =
    | PNull
    | PBool(flag: bool)
    | PInteger(value: Int64)
    | PReal(float: Databases.Float)
    | PText(text: string)
    | PBlob(bytes: seq<Byte>)

  const INT64_MAX: int := 0x7FFF_FFFF_FFFF_FFFF

  // Number accessors

  function AsI64(n: Number): Option<Int64> {
    match n
    case PosInt(u) => if u <= INT64_MAX then Some(u) else None
    case NegInt(i) => Some(i)
    case Float(_) => None
  }

  function AsU64(n: Number): Option<UInt64> {
    match n
    case PosInt(u) => Some(u)
    case _ => None
  }

  function AsF64(n: Number): real {
    match n
    case PosInt(u) => u as real
    case NegInt(i) => i as real
    case Float(r) => r
  }

  function FromI64(i: Int64): (n: Number)
    ensures AsI64(n) == Some(i) && !n.Float?
  {
    if i >= 0 then PosInt(i) else NegInt(i)
  }

  /** `as i64` on an unsigned 64-bit integer. */
  function WrapI64(u: UInt64): Int64 {
    if u <= INT64_MAX then u else u - 0x1_0000_0000_0000_0000
  }

  function AsByte(v: Json): Option<Byte> {
    if v.JNumber? && AsU64(v.number).Some? && AsU64(v.number).value < 256 then Some(AsU64(v.number).value) else None
  }

  /** All elements as bytes, or nothing. */
  function Bytes(items: seq<Json>): (bytes: Option<seq<Byte>>)
    ensures bytes.Some? ==> |bytes.value| == |items|
    ensures bytes.Some? <==> forall v | v in items :: AsByte(v).Some?
  {
    if items == [] then Some([])
    else
      var head, tail := AsByte(items[0]), Bytes(items[1..]);
      if head.Some? && tail.Some? then Some([head.value] + tail.value) else None
  }

  // The encoding

  function EncodeBytes(bytes: seq<Byte>): (items: seq<Json>)
    ensures |items| == |bytes|
    ensures forall i | 0 <= i < |bytes| :: items[i] == JNumber(PosInt(bytes[i]))
  {
    seq(|bytes|, i requires 0 <= i < |bytes| => JNumber(PosInt(bytes[i])))
  }

  /** `Parameter`'s serialisation to a JSON value. */
  function Encode(p: Parameter): Json {
    match p
    case PNull => JNull
    case PBool(b) => JBool(b)
    case PInteger(i) => JNumber(FromI64(i))
    case PReal(Finite(r)) => JNumber(Number.Float(r))
    case PReal(NonFinite) => JNull
    case PText(s) => JString(s)
    case PBlob(bytes) => JArray(EncodeBytes(bytes))
  }

  /** `check_parameters` accepts. */
  predicate IsFinite(p: Parameter) {
    p.PReal? ==> p.float.Finite?
  }

  // The three readers

  /** The service adapter's check of one returned cell. */
  predicate Supported(v: Json) {
    match v
    case JNull => true
    case JBool(_) => true
    case JString(_) => true
    case JNumber(n) => AsI64(n).Some? || n.Float?
    case JArray(items) => forall item | item in items :: AsByte(item).Some?
    case JObject(_) => false
  }

  /** `Parameter`'s own deserialiser. */
  function Deserialize(v: Json): Option<Parameter> {
    match v
    case JNull => Some(PNull)
    case JBool(b) => Some(PBool(b))
    case JNumber(PosInt(u)) => Some(PInteger(WrapI64(u)))
    case JNumber(NegInt(i)) => Some(PInteger(i))
    case JNumber(Float(r)) => Some(PReal(Finite(r)))
    case JString(s) => Some(PText(s))
    case JArray(items) => if Bytes(items).Some? then Some(PBlob(Bytes(items).value)) else None
    case JObject(_) => None
  }

  /** `parameter_from_value`, recovery's reader. */
  function FromValue(v: Json): Option<Parameter> {
    match v
    case JNull => Some(PNull)
    case JBool(b) => Some(PBool(b))
    case JNumber(n) =>
      if AsI64(n).Some? then Some(PInteger(AsI64(n).value)) else Some(PReal(Finite(AsF64(n))))
    case JString(s) => Some(PText(s))
    case JArray(items) => if Bytes(items).Some? then Some(PBlob(Bytes(items).value)) else None
    case JObject(_) => None
  }

  /** The deserialiser's sequence visitor: push bytes until one does not fit. */
  method VisitSeq(items: seq<Json>) returns (r: Option<seq<Byte>>)
    ensures r == Bytes(items)
  {
    var bytes: seq<Byte> := [];
    for i := 0 to |items|
      invariant Bytes(items[..i]) == Some(bytes)
    {
      assert items[..i + 1] == items[..i] + [items[i]];
      var byte := AsByte(items[i]);
      if byte == None {
        assert items[i] in items;
        return None;
      }
      BytesAppend(items[..i], items[i]);
      bytes := bytes + [byte.value];
    }
    assert items[..|items|] == items;
    return Some(bytes);
  }

  lemma {:induction false} BytesAppend(items: seq<Json>, v: Json)
    requires Bytes(items).Some? && AsByte(v).Some?
    ensures Bytes(items + [v]) == Some(Bytes(items).value + [AsByte(v).value])
  {
    if items == [] {
      assert items + [v] == [v] && [v][1..] == [] && Bytes([v][1..]) == Some([]);
      assert [AsByte(v).value] + [] == [] + [AsByte(v).value];
    } else {
      assert (items + [v])[1..] == items[1..] + [v];
      BytesAppend(items[1..], v);
      var head := AsByte(items[0]).value;
      assert [head] + (Bytes(items[1..]).value + [AsByte(v).value]) == ([head] + Bytes(items[1..]).value) + [AsByte(v).value];
    }
  }

  lemma {:induction false} BytesOfEncoding(bytes: seq<Byte>)
    ensures Bytes(EncodeBytes(bytes)) == Some(bytes)
  {
    var items := EncodeBytes(bytes);
    if bytes != [] {
      assert items[1..] == EncodeBytes(bytes[1..]);
      BytesOfEncoding(bytes[1..]);
      assert AsByte(items[0]) == Some(bytes[0]);
      assert [bytes[0]] + bytes[1..] == bytes;
    }
  }

  lemma {:induction false} EncodingOfBytes(items: seq<Json>)
    requires Bytes(items).Some?
    ensures EncodeBytes(Bytes(items).value) == items
  {
    if items != [] {
      EncodingOfBytes(items[1..]);
      var bytes := Bytes(items).value;
      assert bytes[1..] == Bytes(items[1..]).value;
      assert EncodeBytes(bytes)[1..] == EncodeBytes(bytes[1..]);
      assert EncodeBytes(bytes)[0] == items[0];
    }
  }

  /** Both readers return the parameter that was encoded, and the check passes it. */
  lemma EncodingReadBack(p: Parameter)
    requires IsFinite(p)
    ensures Supported(Encode(p))
    ensures Deserialize(Encode(p)) == Some(p)
    ensures FromValue(Encode(p)) == Some(p)
  {
    if p.PBlob? {
      BytesOfEncoding(p.bytes);
    }
  }

  /** The check of parameters before they are sent refuses exactly those that either
      reader would get back as something else: as null. */
  lemma FiniteIff(p: Parameter)
    ensures IsFinite(p) <==> Deserialize(Encode(p)) == Some(p)
    ensures IsFinite(p) <==> FromValue(Encode(p)) == Some(p)
    ensures !IsFinite(p) ==> Deserialize(Encode(p)) == FromValue(Encode(p)) == Some(PNull)
  {
    if IsFinite(p) { EncodingReadBack(p); }
  }

  /** The check passes exactly the encodings of parameters with finite reals, and
      the parameter behind an encoding is unique. */
  lemma ProfileIsExact(v: Json)
    ensures Supported(v) <==> exists p :: IsFinite(p) && Encode(p) == v
    ensures forall p, q | IsFinite(p) && IsFinite(q) && Encode(p) == v && Encode(q) == v :: p == q
  {
    if Supported(v) {
      var p := FromValue(v).value;
      if v.JArray? {
        EncodingOfBytes(v.items);
      }
      assert IsFinite(p) && Encode(p) == v;
    }
    forall p | IsFinite(p) && Encode(p) == v ensures Supported(v) && FromValue(v) == Some(p) {
      EncodingReadBack(p);
    }
  }

  /** On every JSON value at all, the two readers agree exactly when the value is
      not an integer above the signed range: one wraps it, the other widens it. */
  lemma ReadersAgree(v: Json)
    ensures Deserialize(v) == FromValue(v)
            <==> !(v.JNumber? && v.number.PosInt? && v.number.u > INT64_MAX)
  {
  }

  // Through SQLite

  /** `Statement::value`: a stored cell as JSON, if it can be one. */
  function Value(c: Cell): Option<Json> {
    match c
    case Null => Some(JNull)
    case Integer(i) => Some(JNumber(FromI64(i)))
    case Real(Finite(r)) => Some(JNumber(Number.Float(r)))
    case Real(NonFinite) => None
    case Text(s) => Some(JString(s))
    case Garbled(_) => None
    case Blob(bytes) => Some(JArray(EncodeBytes(bytes)))
  }

  /** `Statement::bind_all`: the cell a parameter is stored as. */
  function Bind(p: Parameter): Cell {
    match p
    case PNull => Null
    case PBool(b) => Integer(if b then 1 else 0)
    case PInteger(i) => Integer(i)
    case PReal(f) => Real(f)
    case PText(s) => Text(s)
    case PBlob(bytes) => Blob(bytes)
  }

  /** What a bound parameter is read back as: itself, but a boolean comes back as
      one or zero, and a non-finite real cannot be read. */
  lemma BoundReadsBack(p: Parameter)
    ensures Value(Bind(p)) == None <==> !IsFinite(p)
    ensures IsFinite(p) ==>
              FromValue(Value(Bind(p)).value) == Some(if p.PBool? then PInteger(if p.flag then 1 else 0) else p)
  {
    if p.PBlob? { BytesOfEncoding(p.bytes); }
  }

  /** A stored cell read as JSON, turned into a parameter and bound again is the
      same cell, of the same storage class; only non-finite reals and invalid
      text cannot make the trip, and those are refused when read. */
  lemma CellSurvives(c: Cell)
    ensures Value(c) == None <==> c == Real(NonFinite) || c.Garbled?
    ensures Value(c).Some? ==> FromValue(Value(c).value).Some? && Bind(FromValue(Value(c).value).value) == c
  {
    if c.Blob? {
      BytesOfEncoding(c.bytes);
    }
  }
}
