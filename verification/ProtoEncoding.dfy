/**
 * Messages written according to the Protocol Buffers Encoding guide (sections "Base 128 Varints" and
 * "Message Structure") are read back field by field.
 */
module ProtoEncoding {
  import opened MachineWords
  import opened ProtoReader

  // ---------- the wire format ----------

  datatype Field =
    | VarIntField(id: nat, number: U64)
    | Fixed64Field(id: nat, number: U64)
    | Fixed32Field(id: nat, short: U32)
    | BytesField(id: nat, data: seq<Byte>)
  {
    ghost predicate Valid() {
      1 <= id <= 0xFFFF && (BytesField? ==> |data| <= MAX_MESSAGE_LENGTH)
    }

    function WireType(): nat {
      match this
      case VarIntField(_, _) => VARINT
      case Fixed64Field(_, _) => FIXED64
      case Fixed32Field(_, _) => FIXED32
      case BytesField(_, _) => LENGTH_DELIMITED
    }
  }

  function EncodeVarInt(v: nat): (b: seq<Byte>)
    ensures b != []
  {
    if v < 128 then [v] else [v % 128 + 128] + EncodeVarInt(v / 128)
  }

  function EncodeFixed(v: nat, n: nat): (b: seq<Byte>)
    ensures |b| == n
  {
    if n == 0 then [] else [v % 256] + EncodeFixed(v / 256, n - 1)
  }

  function EncodeValue(f: Field): (b: seq<Byte>)
    ensures b != []
  {
    match f
    case VarIntField(_, v) => EncodeVarInt(v)
    case Fixed64Field(_, v) => EncodeFixed(v, 8)
    case Fixed32Field(_, v) => EncodeFixed(v, 4)
    case BytesField(_, data) => EncodeVarInt(|data|) + data
  }

  function Tag(f: Field): nat { f.id * 8 + f.WireType() }

  function Encode(f: Field): (b: seq<Byte>)
    ensures b != []
  {
    EncodeVarInt(Tag(f)) + EncodeValue(f)
  }

  function EncodeAll(fields: seq<Field>): seq<Byte> {
    if fields == [] then [] else Encode(fields[0]) + EncodeAll(fields[1..])
  }

  /** The area a field is read as, when its encoding starts at this offset. */
  function AreaOf(f: Field, offset: nat): Area {
    match f
    case VarIntField(id, v) => Area(id, VARINT, v, 0)
    case Fixed64Field(id, v) => Area(id, FIXED64, v, 0)
    case Fixed32Field(id, v) => Area(id, FIXED32, v, 0)
    case BytesField(id, data) => Area(id, LENGTH_DELIMITED, offset + |Encode(f)| - |data|, |data|)
  }

  function AreasOf(fields: seq<Field>, offset: nat): seq<Area> {
    if fields == [] then [] else [AreaOf(fields[0], offset)] + AreasOf(fields[1..], offset + |Encode(fields[0])|)
  }

  // ---------- reading it back ----------

  /** These bytes stand at this offset. */
  ghost predicate At(b: seq<Byte>, offset: nat, part: seq<Byte>) {
    offset + |part| <= |b| && b[offset..offset + |part|] == part
  }

  lemma AtSplit(b: seq<Byte>, offset: nat, x: seq<Byte>, y: seq<Byte>)
    requires At(b, offset, x + y)
    ensures At(b, offset, x) && At(b, offset + |x|, y)
  {
    assert x == (x + y)[..|x|] && y == (x + y)[|x|..];
    assert b[offset..offset + |x|] == b[offset..offset + |x + y|][..|x|];
    assert b[offset + |x|..offset + |x| + |y|] == b[offset..offset + |x + y|][|x|..];
  }

  lemma AtEnds(b: seq<Byte>, offset: nat, part: seq<Byte>)
    requires At(b, offset, part)
    ensures offset + |part| <= |b|
  {
  }

  /** A byte whose value fits contributes its seven low bits, none lost. */
  lemma BitsOf(v: nat, low: nat, shift: nat)
    requires shift < 64 && v * Pow2(shift) < TWO64 && low < 256 && low % 128 == v % 128
    ensures Bits(low, shift) == v % 128 * Pow2(shift)
  {
    hide Pow2;
    Pow2Split(shift);
    Below(v, Pow2(shift), Pow2(64 - shift));
    SmallMod(v % 128, Pow2(64 - shift));
  }

  lemma Below(v: nat, p: nat, q: nat)
    requires v * p < q * p
    ensures v < q
  {
  }

  lemma SmallMod(x: nat, q: nat)
    requires x < q
    ensures x % q == x
  {
  }

  lemma Regroup(v: nat, p: nat)
    ensures v / 128 * (128 * p) + v % 128 * p == v * p
  {
    var h, l := v / 128, v % 128;
    assert v == 128 * h + l;
    assert (128 * h + l) * p == 128 * h * p + l * p;
    assert h * (128 * p) == 128 * h * p;
  }

  /** A number of at least 128 leaves room for another seven bits. */
  lemma ShiftFits(v: nat, shift: nat)
    requires v >= 128 && shift < 64 && v * Pow2(shift) < TWO64
    ensures shift + 7 < 64 && v / 128 * Pow2(shift + 7) + v % 128 * Pow2(shift) == v * Pow2(shift)
  {
    hide Pow2;
    var p := Pow2(shift);
    Pow2Split(shift);
    Regroup(v, p);
    assert v == 128 + (v - 128);
    assert v * p == 128 * p + (v - 128) * p;
    if shift + 7 >= 64 {
      Pow2At64();
      Pow2Monotone(64, shift + 7);
    }
  }

  lemma {:induction false} VarIntRoundTrip(b: seq<Byte>, offset: nat, v: nat, acc: nat, shift: nat)
    requires At(b, offset, EncodeVarInt(v)) && shift < 64 && acc < Pow2(shift) && acc + v * Pow2(shift) < TWO64
    ensures VarIntFrom(b, offset, acc, shift) == Some(Decoded(acc + v * Pow2(shift), offset + |EncodeVarInt(v)|))
    decreases v
  {
    assert b[offset] == EncodeVarInt(v)[0];
    BitsOf(v, b[offset], shift);
    BitsBound(b[offset], acc, shift);
    if v >= 128 {
      AtSplit(b, offset, [v % 128 + 128], EncodeVarInt(v / 128));
      ShiftFits(v, shift);
      VarIntRoundTrip(b, offset + 1, v / 128, acc + Bits(b[offset], shift), shift + 7);
    }
  }

  lemma ReadsVarInt(b: seq<Byte>, offset: nat, v: nat)
    requires At(b, offset, EncodeVarInt(v)) && v < TWO64
    ensures VarInt(b, offset) == Some(Decoded(v, offset + |EncodeVarInt(v)|))
  {
    assert Pow2(0) == 1;
    VarIntRoundTrip(b, offset, v, 0, 0);
  }

  lemma {:induction false} FixedRoundTrip(v: nat, n: nat)
    requires v < Pow2(8 * n)
    ensures LittleEndian(EncodeFixed(v, n)) == v
  {
    if n > 0 {
      assert Pow2(8 * n) == 256 * Pow2(8 * (n - 1)) by { Pow2Add(8, 8 * (n - 1)); assert Pow2(8) == 256; }
      FixedRoundTrip(v / 256, n - 1);
    }
  }

  lemma ReadsTag(b: seq<Byte>, offset: nat, tag: nat)
    requires At(b, offset, EncodeVarInt(tag)) && tag < TWO64 && offset + |EncodeVarInt(tag)| < |b|
    ensures NextTag(b, offset) == Some(Decoded(tag, offset + |EncodeVarInt(tag)|))
  {
    ReadsVarInt(b, offset, tag);
    if b[offset] < 128 {
      OneByteTag(b, offset);
    }
  }

  /** The value parser for a field's wire type reads its value. */
  lemma ReadsValue(b: seq<Byte>, start: nat, cursor: nat, f: Field)
    requires start < cursor < |b| && At(b, cursor, EncodeValue(f)) && f.Valid()
    ensures ParseValue(b, start, cursor, f.id, f.WireType()) ==
            Parsed(Ok, cursor + |EncodeValue(f)|,
                   match f
                   case VarIntField(id, v) => Area(id, VARINT, v, 0)
                   case Fixed64Field(id, v) => Area(id, FIXED64, v, 0)
                   case Fixed32Field(id, v) => Area(id, FIXED32, v, 0)
                   case BytesField(id, data) => Area(id, LENGTH_DELIMITED, cursor + |EncodeVarInt(|data|)|, |data|))
  {
    hide Pow2, LittleEndian, EncodeFixed, EncodeVarInt, VarInt;
    match f
    case VarIntField(_, v) => ReadsVarInt(b, cursor, v);
    case Fixed64Field(_, v) => Pow2At64(); FixedRoundTrip(v, 8);
    case Fixed32Field(_, v) => Pow2At64(); FixedRoundTrip(v, 4);
    case BytesField(_, data) =>
      AtSplit(b, cursor, EncodeVarInt(|data|), data);
      ReadsVarInt(b, cursor, |data|);
  }

  lemma ReadsField(b: seq<Byte>, offset: nat, f: Field)
    requires At(b, offset, Encode(f)) && f.Valid()
    ensures ParseOne(b, offset) == Parsed(Ok, offset + |Encode(f)|, AreaOf(f, offset))
  {
    hide NextTag, ParseValue, EncodeVarInt, At;
    AtSplit(b, offset, EncodeVarInt(Tag(f)), EncodeValue(f));
    AtEnds(b, offset + |EncodeVarInt(Tag(f))|, EncodeValue(f));
    ReadsTag(b, offset, Tag(f));
    ReadsValue(b, offset, offset + |EncodeVarInt(Tag(f))|, f);
  }

  lemma {:induction false} ReadsFields(b: seq<Byte>, offset: nat, fields: seq<Field>)
    requires offset <= |b| && b[offset..] == EncodeAll(fields) && forall f | f in fields :: f.Valid()
    ensures Areas(b, offset) == AreasOf(fields, offset)
    decreases fields
  {
    hide Encode, ParseOne, AreaOf;
    if fields != [] {
      var f, rest := fields[0], fields[1..];
      var next := offset + |Encode(f)|;
      assert b[offset..] == Encode(f) + EncodeAll(rest);
      assert b[offset..next] == b[offset..][..|Encode(f)|] && b[next..] == b[offset..][|Encode(f)|..];
      ReadsField(b, offset, f);
      ReadsFields(b, next, rest);
    }
  }

  /**
   * Every list of fields is recovered from its encoding: for each id of the table, the overflow entries
   * with that id followed by the slot are the fields with that id, in the order they were written.
   */
  lemma FieldsRoundTrip(fields: seq<Field>, count: nat, id: nat)
    requires (forall f | f in fields :: f.Valid()) && id < count
    ensures Areas(EncodeAll(fields), 0) == AreasOf(fields, 0)
    ensures Held(InsertAll(EmptyTable(count), Areas(EncodeAll(fields), 0)), id) == WithId(AreasOf(fields, 0), id)
  {
    ReadsFields(EncodeAll(fields), 0, fields);
    TableKeepsWireOrder(EncodeAll(fields), count, id);
  }

  /** A length-delimited area points at the bytes that were written. */
  lemma {:induction false} BytesRecovered(b: seq<Byte>, offset: nat, fields: seq<Field>, k: nat)
    requires offset <= |b| && b[offset..] == EncodeAll(fields) && k < |fields| && fields[k].BytesField?
    ensures |AreasOf(fields, offset)| == |fields|
    ensures var a := AreasOf(fields, offset)[k]; At(b, a.value, fields[k].data) && a.size == |fields[k].data|
    decreases fields
  {
    hide Encode, AreaOf, At;
    var f, rest := fields[0], fields[1..];
    FirstField(b, offset, f, EncodeAll(rest));
    AreasLength(fields, offset);
    if k == 0 {
      BytesStand(b, offset, f);
    } else {
      BytesRecovered(b, offset + |Encode(f)|, rest, k - 1);
    }
  }

  lemma FirstField(b: seq<Byte>, offset: nat, f: Field, rest: seq<Byte>)
    requires offset <= |b| && b[offset..] == Encode(f) + rest
    ensures offset + |Encode(f)| <= |b| && At(b, offset, Encode(f)) && b[offset + |Encode(f)|..] == rest
  {
    hide Encode;
    var next := offset + |Encode(f)|;
    assert b[offset..next] == b[offset..][..|Encode(f)|] && b[next..] == b[offset..][|Encode(f)|..];
  }

  lemma BytesStand(b: seq<Byte>, offset: nat, f: Field)
    requires f.BytesField? && At(b, offset, Encode(f))
    ensures var a := AreaOf(f, offset); At(b, a.value, f.data) && a.size == |f.data|
  {
    hide EncodeVarInt, At;
    assert Encode(f) == EncodeVarInt(Tag(f)) + EncodeVarInt(|f.data|) + f.data;
    AtSplit(b, offset, EncodeVarInt(Tag(f)) + EncodeVarInt(|f.data|), f.data);
  }

  lemma {:induction false} AreasLength(fields: seq<Field>, offset: nat)
    ensures |AreasOf(fields, offset)| == |fields|
    decreases fields
  {
    if fields != [] {
      AreasLength(fields[1..], offset + |Encode(fields[0])|);
    }
  }
}
