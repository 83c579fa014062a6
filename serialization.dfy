/** Attribute serialisation: how a record (a dataclass in the source) becomes
    the ordered name-to-value map that is written out, one file per entry
    (`_dict_factory`, `get_dict_factory`), and how each value becomes file
    content (`_write_text`, `_write_binary`).  The reflection the source uses
    (`dataclasses.fields`, `field.metadata`) is replaced by an explicit
    descriptor table per record kind. */
module Serialization {
  import opened Outcomes
  import opened Text
  import opened FileTree

  /** A field value as the source sees it at run time. */
  datatype Value = NoneValue | IntValue(i: int) | StrValue(s: string) | BytesValue(b: seq<byte>)

  /** One row of a descriptor table: the field's name, its `repr` metadata
      (if any), its `dict_ommit` metadata, and its current value. */
  datatype Field = Field(name: string, repr: Option<string>, omit: bool, value: Value)

  predicate DistinctNames(fields: seq<Field>) {
    forall i, j :: 0 <= i < j < |fields| ==> fields[i].name != fields[j].name
  }

  /** A dataclass never declares two fields with one name. */
  type FieldTable = fields: seq<Field> | DistinctNames(fields) witness []

  const DEFAULT_LANG := "0x409"

  /** The record kinds of the source: the four declared next to the gadget
      classes, the HID function attributes, and any other dataclass given by
      its descriptor table. */
  datatype Record =
    | GadgetAttributes(bcdUSB: Value, bDeviceClass: Value, bDeviceSubClass: Value,
                       bDeviceProtocol: Value, bMaxPacketSize0: Value, idVendor: Value,
                       idProduct: Value, bcdDevice: Value)
    | GadgetStrings(manufacturer: Value, product: Value, serialnumber: Value, lang: string)
    | ConfigStrings(configuration: Value, lang: string)
    | ConfigAttributes(MaxPower: Value)
    | HidFunctionAttributes(protocol: Value, report_desc: Value, report_length: Value, subclass: Value)
    | Custom(fields: FieldTable)
  {
    /** The string records carry the language tag that names their directory. */
    predicate HasLang() {
      GadgetStrings? || ConfigStrings?
    }
  }

  type StringsRecord = r: Record | r.HasLang() witness ConfigStrings(StrValue(""), DEFAULT_LANG)

  /** `GadgetStrings(manufacturer, product, serialnumber)`: `lang` is not an
      init argument and always starts as "0x409". */
  function NewGadgetStrings(manufacturer: Value, product: Value, serialnumber: Value): StringsRecord {
    GadgetStrings(manufacturer, product, serialnumber, DEFAULT_LANG)
  }

  /** `ConfigStrings(configuration='')`. */
  function NewConfigStrings(configuration: Value): StringsRecord {
    ConfigStrings(configuration, DEFAULT_LANG)
  }

  /** `HIDGadgetFunctionAttributes()` with its declared defaults. */
  function DefaultHidAttributes(): Record {
    HidFunctionAttributes(IntValue(1), BytesValue([]), IntValue(8), IntValue(0))
  }

  function Plain(name: string, value: Value): Field {
    Field(name, None, false, value)
  }

  /** The descriptor table of a record, in declaration order.  No record
      kind of the source declares `repr` metadata; only `lang` is omitted. */
  function Fields(r: Record): FieldTable {
    match r
    case GadgetAttributes(usb, cls, sub, proto, packet, vendor, product, device) =>
      [Plain("bcdUSB", usb), Plain("bDeviceClass", cls), Plain("bDeviceSubClass", sub),
       Plain("bDeviceProtocol", proto), Plain("bMaxPacketSize0", packet),
       Plain("idVendor", vendor), Plain("idProduct", product), Plain("bcdDevice", device)]
    case GadgetStrings(manufacturer, product, serial, lang) =>
      [Plain("manufacturer", manufacturer), Plain("product", product),
       Plain("serialnumber", serial), Field("lang", None, true, StrValue(lang))]
    case ConfigStrings(configuration, lang) =>
      [Plain("configuration", configuration), Field("lang", None, true, StrValue(lang))]
    case ConfigAttributes(power) =>
      [Plain("MaxPower", power)]
    case HidFunctionAttributes(protocol, desc, length, subclass) =>
      [Plain("protocol", protocol), Plain("report_desc", desc),
       Plain("report_length", length), Plain("subclass", subclass)]
    case Custom(fields) => fields
  }

  /** The `repr_map` of `get_dict_factory`: the digit count of each known
      transform name. */
  function HexWidth(name: string): Option<nat> {
    if name == "hex16" then Some(4)
    else if name == "hex12" then Some(3)
    else if name == "hex8" then Some(2)
    else None
  }

  /** The transform applies when the value is not None, the `repr` metadata
      is present and non-empty, and it names a known transform. */
  predicate Transforms(f: Field) {
    f.value != NoneValue && f.repr.Some? && f.repr.value != "" && HexWidth(f.repr.value).Some?
  }

  /** `field_value`: a hex transform renders an integer; formatting anything
      else with `x` raises. */
  function FieldValue(f: Field): Result<Value> {
    if Transforms(f) then
      match f.value
      case IntValue(i) => Ok(StrValue(HexFormat(i, HexWidth(f.repr.value).value)))
      case _ => Err(FormatError)
    else Ok(f.value)
  }

  /** The fields `include_field` lets through, in declaration order. */
  function Kept(fields: seq<Field>): seq<Field> {
    if fields == [] then []
    else if fields[0].omit then Kept(fields[1..])
    else [fields[0]] + Kept(fields[1..])
  }

  type Entry = (string, Value)

  /** `_dict_factory`: the dict comprehension over the fields in order,
      skipping omitted fields before their value is computed. */
  function Serialize(fields: seq<Field>): Result<seq<Entry>> {
    if fields == [] then Ok([])
    else if fields[0].omit then Serialize(fields[1..])
    else
      match FieldValue(fields[0])
      case Err(e) => Err(e)
      case Ok(v) =>
        match Serialize(fields[1..])
        case Err(e) => Err(e)
        case Ok(rest) => Ok([(fields[0].name, v)] + rest)
  }

  /** `asdict(attrs, dict_factory=get_dict_factory(attrs))`. */
  function Serialized(r: Record): Result<seq<Entry>> {
    Serialize(Fields(r))
  }

  /** Python's `f'{content}'` for a value that is not bytes. */
  function AsText(v: Value): string
    requires !v.BytesValue?
  {
    match v
    case NoneValue => "None"
    case IntValue(i) => DecimalText(i)
    case StrValue(s) => s
  }

  /** `store_attrs`' choice per value: bytes are written raw, anything else
      as its text and a newline. */
  function Render(v: Value): Content {
    if v.BytesValue? then RawContent(v.b) else TextContent(AsText(v) + "\n")
  }

  // ---------------------------------------------------------------------
  // Properties

  /** `Kept` keeps exactly the fields without `dict_ommit`, in their order. */
  lemma {:induction false} KeptExactly(fields: seq<Field>)
    ensures forall f :: f in Kept(fields) <==> f in fields && !f.omit
    ensures |Kept(fields)| <= |fields|
    ensures DistinctNames(fields) ==> DistinctNames(Kept(fields))
  {
    if fields != [] {
      KeptExactly(fields[1..]);
      if !fields[0].omit && DistinctNames(fields) {
        var k := Kept(fields);
        assert k == [fields[0]] + Kept(fields[1..]);
        forall i, j | 0 <= i < j < |k| ensures k[i].name != k[j].name {
          if i == 0 {
            assert k[j] in Kept(fields[1..]);
            assert k[j] in fields[1..];
          }
        }
      }
    }
  }

  /** The serialised map has one entry per kept field, in declaration order,
      named after the field and holding the field's (possibly transformed)
      value; it fails exactly when some kept field's transform fails. */
  lemma {:induction false} SerializeIsKeptFields(fields: seq<Field>)
    ensures Serialize(fields).Ok? ==>
      forall k :: 0 <= k < |Kept(fields)| ==> FieldValue(Kept(fields)[k]).Ok?
    ensures (forall k :: 0 <= k < |Kept(fields)| ==> FieldValue(Kept(fields)[k]).Ok?) ==>
      Serialize(fields).Ok?
    ensures Serialize(fields).Err? ==> Serialize(fields) == Err(FormatError)
    ensures Serialize(fields).Ok? ==>
      var r := Serialize(fields).value;
      |r| == |Kept(fields)| &&
      forall k :: 0 <= k < |r| ==>
        r[k] == (Kept(fields)[k].name, FieldValue(Kept(fields)[k]).value)
  {
    if fields != [] {
      var rest := fields[1..];
      SerializeIsKeptFields(rest);
      if !fields[0].omit {
        var kept, tail := Kept(fields), Kept(rest);
        assert kept == [fields[0]] + tail;
        if Serialize(fields).Ok? {
          forall k | 0 <= k < |kept| ensures FieldValue(kept[k]).Ok? {
            if k > 0 { assert kept[k] == tail[k - 1]; }
          }
        }
        if forall k :: 0 <= k < |kept| ==> FieldValue(kept[k]).Ok? {
          assert FieldValue(kept[0]).Ok?;
          assert kept[0] == fields[0];
          forall k | 0 <= k < |tail| ensures FieldValue(tail[k]).Ok? {
            assert tail[k] == kept[k + 1];
          }
          assert Serialize(rest).Ok?;
        } else {
          var k :| 0 <= k < |kept| && FieldValue(kept[k]).Err?;
          if k > 0 {
            assert tail[k - 1] == kept[k];
          }
        }
      } else {
        assert Kept(fields) == Kept(rest);
        assert Serialize(fields) == Serialize(rest);
      }
    }
  }

  /** No record kind of the source carries `repr` metadata. */
  lemma NoReprMetadata(r: Record)
    requires !r.Custom?
    ensures forall f :: f in Fields(r) ==> f.repr.None? && FieldValue(f) == Ok(f.value)
  {
    var fs := Fields(r);
    forall i | 0 <= i < |fs| ensures fs[i].repr.None? {
      match r
      case GadgetAttributes(_, _, _, _, _, _, _, _) =>
      case GadgetStrings(_, _, _, _) =>
      case ConfigStrings(_, _) =>
      case ConfigAttributes(_) =>
      case HidFunctionAttributes(_, _, _, _) =>
    }
  }

  /** A transform is applied only to a non-None value whose `repr` names a
      known transform; an integer then becomes "0x" and exactly 4, 3 or 2
      lower-case hex digits (for `hex16`, `hex12`, `hex8`) that read back as
      the integer, when it fits that width.  Otherwise the value passes
      through unchanged, whatever the `repr` says. */
  lemma TransformRule(f: Field)
    ensures !Transforms(f) ==> FieldValue(f) == Ok(f.value)
    ensures Transforms(f) && !f.value.IntValue? ==> FieldValue(f) == Err(FormatError)
    ensures Transforms(f) && f.value.IntValue? && f.value.i >= 0 ==>
      var w := HexWidth(f.repr.value).value;
      && w == (if f.repr.value == "hex16" then 4 else if f.repr.value == "hex12" then 3 else 2)
      && FieldValue(f).Ok? && FieldValue(f).value.StrValue?
      && var h := FieldValue(f).value.s;
      && h[..2] == "0x" && AllDigitsIn(h[2..], 16) && ParseDigits(h[2..], 16) == f.value.i
      && (|h| == 2 + w <==> f.value.i < Pow(16, w))
  {
    if Transforms(f) && f.value.IntValue? && f.value.i >= 0 {
      HexFormatShape(f.value.i, HexWidth(f.repr.value).value);
    }
  }

  /** Fields whose transform does not apply serialise to their own values. */
  lemma VerbatimFields(fields: seq<Field>)
    requires forall f :: f in fields ==> FieldValue(f) == Ok(f.value)
    ensures Serialize(fields).Ok?
    ensures var e := Serialize(fields).value;
      var kept := Kept(fields);
      |e| == |kept| && forall k :: 0 <= k < |e| ==> e[k] == (kept[k].name, kept[k].value)
  {
    KeptExactly(fields);
    var kept := Kept(fields);
    assert forall k :: 0 <= k < |kept| ==> kept[k] in fields;
    SerializeIsKeptFields(fields);
  }

  /** The records of the source declare no `repr` metadata, so they always
      serialise, and every kept field keeps its value verbatim: `None` stays
      `None` and an integer stays an integer (written in decimal). */
  lemma BuiltinRecordsVerbatim(r: Record)
    requires !r.Custom?
    ensures Serialized(r).Ok?
    ensures var e := Serialized(r).value;
      var kept := Kept(Fields(r));
      |e| == |kept| && forall k :: 0 <= k < |e| ==> e[k] == (kept[k].name, kept[k].value)
  {
    NoReprMetadata(r);
    VerbatimFields(Fields(r));
  }

  /** The language tag of a string record never becomes a file, and the
      serialised names are distinct. */
  lemma LangNeverSerialized(r: Record)
    requires r.HasLang()
    ensures Serialized(r).Ok?
    ensures forall k :: 0 <= k < |Serialized(r).value| ==> Serialized(r).value[k].0 != "lang"
  {
    BuiltinRecordsVerbatim(r);
    KeptExactly(Fields(r));
    var kept := Kept(Fields(r));
    forall k | 0 <= k < |kept| ensures kept[k].name != "lang" {
      assert kept[k] in Fields(r);
    }
  }

  /** The serialised map has distinct keys, as a Python dict does. */
  lemma SerializedKeysDistinct(r: Record)
    requires Serialized(r).Ok?
    ensures var e := Serialized(r).value;
      forall i, j :: 0 <= i < j < |e| ==> e[i].0 != e[j].0
  {
    SerializeIsKeptFields(Fields(r));
    KeptExactly(Fields(r));
  }

  /** What `store_attrs` writes for a value reads back as that value: bytes
      verbatim; otherwise the value's text followed by exactly one newline,
      where an integer is in decimal and `None` is the word "None". */
  lemma RenderReadsBack(v: Value)
    ensures v.BytesValue? ==> Render(v) == RawContent(v.b)
    ensures !v.BytesValue? ==>
      var t := Render(v).text;
      |t| >= 1 && t[|t| - 1] == '\n' &&
      match v
      case NoneValue => t[..|t| - 1] == "None"
      case StrValue(s) => t[..|t| - 1] == s
      case IntValue(i) => ParseDecimal(t[..|t| - 1]) == (true, i)
  {
    if v.IntValue? {
      DecimalRoundTrip(v.i);
      var t := Render(v).text;
      assert t[..|t| - 1] == DecimalText(v.i);
    } else if !v.BytesValue? {
      var t := Render(v).text;
      assert t[..|t| - 1] == AsText(v);
    }
  }
}
