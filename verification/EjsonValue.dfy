// Values and object fields of typeferry-go/ejson, and the tag shapes of its wire format.
module EjsonValue {
  import opened Results
  import opened Text
  import opened Fields
  import B = Base64

  datatype Float = NaN | PosInf | NegInf | Finite(r: real)

  datatype Value =
    | Null
    | Bool(b: bool)
    | Int(n: int64)
    | Flt(f: Float)
    | Str(text: string)
    | Arr(items: seq<Value>)
    | Obj(fields: seq<Field<Value>>)
    | Date(millis: int64)
    | Binary(bytes: seq<B.byte>)
    | Regex(source: string, flags: string)
    | Custom(name: string, inner: Value)

  /* ---------- Tag shapes ---------- */

  datatype Tag = DateTag | RegexpTag | InfNaNTag | BinaryTag | EscapeTag | TypeTag

  predicate HasKeys(keys: seq<string>, names: seq<string>) {
    |keys| == |names| && forall name :: name in names ==> name in keys
  }

  // tagShape and the switch of decodeObject: which tag, if any, an object's keys spell.
  function TagOf(keys: seq<string>): (tag: Option<Tag>)
    ensures tag == Some(EscapeTag) ==> |keys| == 1
  {
    if HasKeys(keys, ["$date"]) then Some(DateTag)
    else if HasKeys(keys, ["$regexp", "$flags"]) then Some(RegexpTag)
    else if HasKeys(keys, ["$InfNaN"]) then Some(InfNaNTag)
    else if HasKeys(keys, ["$binary"]) then Some(BinaryTag)
    else if HasKeys(keys, ["$escape"]) then Some(EscapeTag)
    else if HasKeys(keys, ["$type", "$value"]) then Some(TypeTag)
    else None
  }

  lemma OneKey(a: string, b: string)
    ensures HasKeys([a], [b]) <==> a == b
  {
    assert [a][0] in [a] && [b][0] in [b];
  }

  lemma SingleTags()
    ensures TagOf(["$date"]) == Some(DateTag)
    ensures TagOf(["$InfNaN"]) == Some(InfNaNTag)
    ensures TagOf(["$binary"]) == Some(BinaryTag)
    ensures TagOf(["$escape"]) == Some(EscapeTag)
  {
    OneKey("$date", "$date");
    OneKey("$InfNaN", "$date"); OneKey("$InfNaN", "$InfNaN");
    OneKey("$binary", "$date"); OneKey("$binary", "$InfNaN"); OneKey("$binary", "$binary");
    OneKey("$escape", "$date"); OneKey("$escape", "$InfNaN"); OneKey("$escape", "$binary");
    OneKey("$escape", "$escape");
  }

  lemma PairTags()
    ensures TagOf(["$regexp", "$flags"]) == Some(RegexpTag)
    ensures TagOf(["$flags", "$regexp"]) == Some(RegexpTag)
    ensures TagOf(["$type", "$value"]) == Some(TypeTag)
    ensures TagOf(["$value", "$type"]) == Some(TypeTag)
  {
    var f := ["$flags", "$regexp"];
    assert f[0] in f && f[1] in f;
    assert "$regexp" !in ["$type", "$value"];
    TagOfPermuted(["$type", "$value"], ["$value", "$type"]);
  }

  lemma TagOfPermuted(a: seq<string>, b: seq<string>)
    requires |a| == |b| && forall k :: k in a <==> k in b
    ensures TagOf(a) == TagOf(b)
  {
  }
}
