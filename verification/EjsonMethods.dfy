// readValue, decodeValue, sanitizeFlags, hasKeys and writeValue of typeferry-go/ejson/codec.go
// as written, over a token decoder and an output buffer, proved against the codec's functions.
module EjsonMethods {
  import opened Results
  import opened Text
  import opened Fields
  import opened EjsonValue
  import opened EjsonCodec
  import RT = EjsonRoundTrip
  import B = Base64

  /* ---------- sanitizeFlags and hasKeys ---------- */

  method SanitizeRegexFlags(source: string) returns (result: string)
    ensures result == SanitizeFlags(source)
  {
    hide KeepLast;
    var runes := if |source| > MAX_FLAGS then source[..MAX_FLAGS] else source;
    result := "";
    assert runes[0..] == runes;
    for index := 0 to |runes|
      invariant result + KeepLast(runes[index..]) == KeepLast(runes)
    {
      var flag := runes[index];
      KeepLastStep(runes, index);
      if flag !in VALID_FLAGS {
        continue;
      }
      if flag in runes[index + 1..] {
        continue;
      }
      result := result + [flag];
    }
    assert runes[|runes|..] == "";
    KeepLastEnds();
  }

  lemma KeepLastStep(runes: string, i: nat)
    requires i < |runes|
    ensures KeepLast(runes[i..])
         == if runes[i] !in VALID_FLAGS || runes[i] in runes[i + 1..] then KeepLast(runes[i + 1..])
            else [runes[i]] + KeepLast(runes[i + 1..])
  {
    assert runes[i..][1..] == runes[i + 1..];
  }

  lemma KeepLastEnds()
    ensures KeepLast("") == ""
  {
  }

  method HasKeyNames<T>(fields: seq<Field<T>>, names: seq<string>) returns (all: bool)
    ensures all == HasKeys(Keys(fields), names)
  {
    if |fields| != |names| {
      return false;
    }
    for n := 0 to |names|
      invariant forall m :: 0 <= m < n ==> names[m] in Keys(fields)
    {
      var found := false;
      for i := 0 to |fields|
        invariant !found && names[n] !in Keys(fields)[..i]
      {
        if fields[i].key == names[n] {
          found := true;
          assert Keys(fields)[i] == names[n];
          break;
        }
      }
      if !found {
        assert Keys(fields)[..|fields|] == Keys(fields);
        return false;
      }
    }
    return true;
  }

  /* ---------- Reading ---------- */

  class Decoder {
    var rest: seq<Token>

    constructor (tokens: seq<Token>)
      ensures rest == tokens
    {
      rest := tokens;
    }

    // json.Decoder.More: another element before the enclosing bracket closes.
    predicate More()
      reads this
    {
      rest != [] && rest[0] != CloseArray && rest[0] != CloseObject
    }

    method Token() returns (t: Option<Token>)
      modifies this
      ensures old(rest) == [] ==> t == None && rest == []
      ensures old(rest) != [] ==> t == Some(old(rest)[0]) && rest == old(rest)[1..]
    {
      if rest == [] {
        return None;
      }
      t, rest := Some(rest[0]), rest[1..];
    }
  }

  function WithItems(items: seq<Json>, r: Outcome<Reading<seq<Json>>>): Outcome<Reading<seq<Json>>> {
    if r.Ok? then Ok(Reading(items + r.value.value, r.value.rest)) else r
  }

  lemma WithItemsSteps(items: seq<Json>, item: Json, r: Outcome<Reading<seq<Json>>>)
    ensures WithItems([], r) == r
    ensures WithItems(items + [item], r) == WithItems(items, WithItems([item], r))
  {
    if r.Ok? {
      assert [] + r.value.value == r.value.value;
      assert items + [item] + r.value.value == items + ([item] + r.value.value);
    }
  }

  // A new field goes last; a repeated key keeps its place and takes the new value.
  method PutField(fields: seq<Field<Json>>, key: string, value: Json) returns (r: seq<Field<Json>>)
    ensures r == Put(fields, key, value)
  {
    var position := -1;
    for index := 0 to |fields|
      invariant position == -1
      invariant forall i :: 0 <= i < index ==> fields[i].key != key
    {
      if fields[index].key == key {
        position := index;
        break;
      }
    }
    if position < 0 {
      assert key !in Keys(fields);
      PutKeys(fields, key, value);
      r := fields + [Field(key, value)];
    } else {
      PutThere(fields, key, value, position);
      r := fields[position := Field(key, value)];
    }
  }

  lemma {:induction false} PutThere<T(!new)>(fields: seq<Field<T>>, key: string, value: T, i: nat)
    requires i < |fields| && fields[i].key == key && forall j :: 0 <= j < i ==> fields[j].key != key
    ensures Put(fields, key, value) == fields[i := Field(key, value)]
  {
    if i > 0 {
      PutThere(fields[1..], key, value, i - 1);
      assert fields[i := Field(key, value)] == [fields[0]] + fields[1..][i - 1 := Field(key, value)];
    }
  }

  method ReadValue(c: Codec, decoder: Decoder) returns (r: Outcome<Json>)
    modifies decoder
    ensures r == var read := Read(c, old(decoder.rest)); if read.Ok? then Ok(read.value.value) else Err(read.error)
    ensures r.Ok? ==> decoder.rest == Read(c, old(decoder.rest)).value.rest
    decreases |decoder.rest|, 0
  {
    var token := decoder.Token();
    if token == None {
      return Err(Syntax);
    }
    match token.value
    case NullToken => return Ok(JNull);
    case BoolToken(b) => return Ok(JBool(b));
    case StringToken(s) => return Ok(JStr(s));
    case NumberToken(text) =>
      r := ReadNumber(c, text);
    case OpenArray =>
      r := ReadArray(c, decoder);
    case OpenObject =>
      r := ReadObject(c, decoder);
    case CloseArray => return Err(Syntax);
    case CloseObject => return Err(Syntax);
  }

  method ReadArray(c: Codec, decoder: Decoder) returns (r: Outcome<Json>)
    modifies decoder
    ensures var read := ReadItems(c, old(decoder.rest));
            r == if read.Ok? then Ok(JArr(read.value.value)) else Err(read.error)
    ensures r.Ok? ==> decoder.rest == ReadItems(c, old(decoder.rest)).value.rest
    decreases |decoder.rest|, 1
  {
    hide Read, WithItems;
    ghost var start := decoder.rest;
    var items: seq<Json> := [];
    WithItemsSteps([], JNull, ReadItems(c, start));
    while decoder.More()
      invariant |decoder.rest| <= |start|
      invariant ReadItems(c, start) == WithItems(items, ReadItems(c, decoder.rest))
      decreases |decoder.rest|
    {
      ghost var before := decoder.rest;
      var value := ReadValue(c, decoder);
      if value.Err? {
        ReadItemsFails(c, items, before);
        return value;
      }
      ReadItemsStep(c, before);
      WithItemsSteps(items, value.value, ReadItems(c, decoder.rest));
      items := items + [value.value];
    }
    ReadItemsEnds(c, items, decoder.rest);
    var close := decoder.Token();
    if close != Some(CloseArray) {
      return Err(Syntax);
    }
    return Ok(JArr(items));
  }

  lemma ReadItemsStep(c: Codec, ts: seq<Token>)
    requires ts != [] && ts[0] != CloseArray && ts[0] != CloseObject && Read(c, ts).Ok?
    ensures ReadItems(c, ts) == WithItems([Read(c, ts).value.value], ReadItems(c, Read(c, ts).value.rest))
  {
    hide Read;
  }

  lemma ReadItemsFails(c: Codec, items: seq<Json>, ts: seq<Token>)
    requires ts != [] && ts[0] != CloseArray && ts[0] != CloseObject && Read(c, ts).Err?
    ensures WithItems(items, ReadItems(c, ts)) == Err(Read(c, ts).error)
  {
    hide Read;
  }

  lemma ReadItemsEnds(c: Codec, items: seq<Json>, ts: seq<Token>)
    requires ts == [] || ts[0] == CloseArray || ts[0] == CloseObject
    ensures WithItems(items, ReadItems(c, ts))
            == if ts != [] && ts[0] == CloseArray then Ok(Reading(items, ts[1..])) else Err(Syntax)
  {
    hide Read;
    assert items + [] == items;
  }

  method ReadObject(c: Codec, decoder: Decoder) returns (r: Outcome<Json>)
    modifies decoder
    ensures var read := ReadFields(c, old(decoder.rest), []);
            r == if read.Ok? then Ok(JObj(read.value.value)) else Err(read.error)
    ensures r.Ok? ==> decoder.rest == ReadFields(c, old(decoder.rest), []).value.rest
    decreases |decoder.rest|, 1
  {
    hide Read, Put;
    ghost var start := decoder.rest;
    var fields: seq<Field<Json>> := [];
    while decoder.More()
      invariant |decoder.rest| <= |start|
      invariant ReadFields(c, start, []) == ReadFields(c, decoder.rest, fields)
      decreases |decoder.rest|
    {
      var key := decoder.Token();
      if !key.value.StringToken? {
        return Err(Syntax);
      }
      var value := ReadValue(c, decoder);
      if value.Err? {
        return value;
      }
      fields := PutField(fields, key.value.s, value.value);
    }
    var close := decoder.Token();
    if close != Some(CloseObject) {
      return Err(Syntax);
    }
    return Ok(JObj(fields));
  }

  /* ---------- Decoding ---------- */

  function With<T>(xs: seq<T>, r: Outcome<seq<T>>): Outcome<seq<T>> {
    if r.Ok? then Ok(xs + r.value) else r
  }

  lemma WithNone<T>(r: Outcome<seq<T>>)
    ensures With([], r) == r
  {
    if r.Ok? {
      assert [] + r.value == r.value;
    }
  }

  lemma WithSteps<T>(xs: seq<T>, x: T, r: Outcome<seq<T>>)
    ensures With(xs + [x], r) == With(xs, With([x], r))
  {
    if r.Ok? {
      assert xs + [x] + r.value == xs + ([x] + r.value);
    }
  }

  lemma DecodeFieldsStep(c: Codec, fields: seq<Field<Json>>, i: nat)
    requires i < |fields|
    ensures var v, rest := Decode(c, fields[i].value), DecodeFields(c, fields[i + 1..]);
            DecodeFields(c, fields[i..]) == if v.Ok? then With([Field(fields[i].key, v.value)], rest) else Err(v.error)
  {
    hide Decode;
    assert fields[i..][1..] == fields[i + 1..];
  }

  lemma DecodeItemsStep(c: Codec, items: seq<Json>, i: nat)
    requires i < |items|
    ensures var v := Decode(c, items[i]);
            DecodeItems(c, items[i..])
            == if v.Ok? then With([v.value], DecodeItems(c, items[i + 1..])) else Err(v.error)
  {
    hide Decode;
    assert items[i..][1..] == items[i + 1..];
  }

  method DecodeEach(c: Codec, fields: seq<Field<Json>>) returns (r: Outcome<seq<Field<Value>>>)
    ensures r == DecodeFields(c, fields)
    decreases fields, 1
  {
    hide Decode;
    var decoded: seq<Field<Value>> := [];
    assert fields[0..] == fields && fields[|fields|..] == [];
    WithNone(DecodeFields(c, fields));
    for i := 0 to |fields|
      invariant With(decoded, DecodeFields(c, fields[i..])) == DecodeFields(c, fields)
    {
      DecodeFieldsStep(c, fields, i);
      var v := DecodeValue(c, fields[i].value);
      if v.Err? {
        return Err(v.error);
      }
      WithSteps(decoded, Field(fields[i].key, v.value), DecodeFields(c, fields[i + 1..]));
      decoded := decoded + [Field(fields[i].key, v.value)];
    }
    assert decoded + [] == decoded;
    return Ok(decoded);
  }

  method DecodeValue(c: Codec, j: Json) returns (r: Outcome<Value>)
    ensures r == Decode(c, j)
    decreases j, 0
  {
    match j
    case JArr(items) =>
      r := DecodeArray(c, items);
    case JObj(fields) =>
      r := DecodeKeyed(c, fields);
    case JNull => return Ok(Null);
    case JBool(b) => return Ok(Bool(b));
    case JInt(n) => return Ok(Int(n));
    case JFloat(x) => return Ok(Flt(Finite(x)));
    case JStr(s) => return Ok(Str(s));
  }

  method DecodeArray(c: Codec, items: seq<Json>) returns (r: Outcome<Value>)
    ensures r == Decode(c, JArr(items))
    decreases items, 1
  {
    var decoded: seq<Value> := [];
    assert items[0..] == items && items[|items|..] == [];
    WithNone(DecodeItems(c, items));
    for i := 0 to |items|
      invariant With(decoded, DecodeItems(c, items[i..])) == DecodeItems(c, items)
    {
      DecodeItemsStep(c, items, i);
      var v := DecodeValue(c, items[i]);
      if v.Err? {
        return v;
      }
      WithSteps(decoded, v.value, DecodeItems(c, items[i + 1..]));
      decoded := decoded + [v.value];
    }
    assert decoded + [] == decoded;
    return Ok(Arr(decoded));
  }

  method DecodeKeyed(c: Codec, fields: seq<Field<Json>>) returns (r: Outcome<Value>)
    ensures r == Decode(c, JObj(fields))
    decreases fields, 2
  {
    hide DecodeObject, DecodeFields;
    EscapeExactly(Keys(fields));
    var escape := HasKeyNames(fields, ["$escape"]);
    if escape {
      var inner := fields[0].value;
      if !inner.JObj? {
        return Err(BadTag("$escape"));
      }
      var plain := DecodeEach(c, inner.fields);
      return if plain.Ok? then Ok(Obj(plain.value)) else Err(plain.error);
    }
    var decoded := DecodeEach(c, fields);
    if decoded.Err? {
      return Err(decoded.error);
    }
    r := DecodeTag(c, decoded.value);
  }

  lemma EscapeExactly(keys: seq<string>)
    ensures TagOf(keys) == Some(EscapeTag) <==> HasKeys(keys, ["$escape"])
  {
    if HasKeys(keys, ["$escape"]) {
      assert ["$escape"][0] in ["$escape"];
      assert keys == ["$escape"];
      SingleTags();
    }
  }

  lemma OneOrTwoKeys(keys: seq<string>)
    ensures !(HasKeys(keys, ["$escape"]) && HasKeys(keys, ["$type", "$value"]))
  {
  }

  // tagShape
  method TagShape(fields: seq<Field<Value>>) returns (shape: bool)
    ensures shape == TagOf(Keys(fields)).Some?
  {
    hide HasKeys, Keys;
    shape := HasKeyNames(fields, ["$date"]);
    if !shape {
      shape := HasKeyNames(fields, ["$regexp", "$flags"]);
    }
    if !shape {
      shape := HasKeyNames(fields, ["$InfNaN"]);
    }
    if !shape {
      shape := HasKeyNames(fields, ["$binary"]);
    }
    if !shape {
      shape := HasKeyNames(fields, ["$escape"]);
    }
    if !shape {
      shape := HasKeyNames(fields, ["$type", "$value"]);
    }
  }

  // decodeObject: the tag an object spells, or the object.
  method DecodeTag(c: Codec, fields: seq<Field<Value>>) returns (r: Outcome<Value>)
    ensures r == DecodeObject(c, fields)
  {
    hide HasKeys, Keys, Lookup, DecodeBinary, InfNaN, SanitizeFlags;
    var shape := TagShape(fields);
    if !shape {
      return Ok(Obj(fields));
    }
    var date := HasKeyNames(fields, ["$date"]);
    if date {
      var millis := Lookup(fields, "$date");
      return if millis.Some? && millis.value.Int? then Ok(Date(millis.value.n)) else Err(BadTag("$date"));
    }
    var regexp := HasKeyNames(fields, ["$regexp", "$flags"]);
    if regexp {
      var source, flags := Lookup(fields, "$regexp"), Lookup(fields, "$flags");
      if source == None || !source.value.Str? || flags == None || !flags.value.Str? {
        return Err(BadTag("$regexp"));
      }
      var clean := SanitizeRegexFlags(flags.value.text);
      return Ok(Regex(source.value.text, clean));
    }
    var infinite := HasKeyNames(fields, ["$InfNaN"]);
    if infinite {
      var sign := Lookup(fields, "$InfNaN");
      return if sign.Some? then InfNaN(sign.value) else Err(BadTag("$InfNaN"));
    }
    var binary := HasKeyNames(fields, ["$binary"]);
    if binary {
      var encoded := Lookup(fields, "$binary");
      return if encoded.Some? && encoded.value.Str? then DecodeBinary(encoded.value.text) else Err(BadTag("$binary"));
    }
    OneOrTwoKeys(Keys(fields));
    var custom := HasKeyNames(fields, ["$type", "$value"]);
    if custom {
      var name, value := Lookup(fields, "$type"), Lookup(fields, "$value");
      if name == None || !name.value.Str? || value == None {
        return Err(BadTag("$type"));
      }
      return if name.value.text in c.factories then c.factories[name.value.text](value.value)
             else Err(UnknownType(name.value.text));
    }
    return Ok(Obj(fields));
  }

  method ParseTokens(c: Codec, tokens: seq<Token>) returns (r: Outcome<Value>)
    ensures r == Parse(c, tokens)
  {
    hide Read, Decode;
    var decoder := new Decoder(tokens);
    var value := ReadValue(c, decoder);
    if value.Err? {
      return Err(value.error);
    }
    var after := decoder.Token();
    if after.Some? {
      return Err(TrailingData);
    }
    r := DecodeValue(c, value.value);
  }

  /* ---------- Writing ---------- */

  class Buffer {
    var tokens: seq<Token>

    constructor ()
      ensures tokens == []
    {
      tokens := [];
    }

    method Write(t: Token)
      modifies this
      ensures tokens == old(tokens) + [t]
    {
      tokens := tokens + [t];
    }
  }

  function Max(a: nat, b: nat): nat { if a < b then b else a }

  // Writing a tag writes an object that is not part of the value, but it is less high.
  function Height(v: Value): nat {
    match v
    case Arr(items) => 1 + ItemsHeight(items)
    case Obj(fields) => 1 + FieldsHeight(fields)
    case Custom(_, inner) => 2 + Height(inner)
    case Flt(_) => 2
    case Date(_) => 2
    case Binary(_) => 2
    case Regex(_, _) => 2
    case _ => 0
  }

  function ItemsHeight(items: seq<Value>): nat {
    if items == [] then 0 else Max(Height(items[0]), ItemsHeight(items[1..]))
  }

  function FieldsHeight(fields: seq<Field<Value>>): nat {
    if fields == [] then 0 else Max(Height(fields[0].value), FieldsHeight(fields[1..]))
  }

  lemma {:induction false} ItemHeight(items: seq<Value>, i: nat)
    requires i < |items|
    ensures Height(items[i]) <= ItemsHeight(items)
  {
    if i > 0 {
      ItemHeight(items[1..], i - 1);
    }
  }

  lemma {:induction false} FieldHeight(fields: seq<Field<Value>>, f: Field<Value>)
    requires f in fields
    ensures Height(f.value) <= FieldsHeight(fields)
  {
    if f != fields[0] {
      FieldHeight(fields[1..], f);
    }
  }

  // What writeValue prints: inside `$escape`, and for a tag, an object is written as it is.
  function Written(v: Value, canonical: bool, escaped: bool): Json {
    if escaped && v.Obj? then JObj(Arrange(LowerFields(v.fields, canonical), canonical)) else Lower(v, canonical)
  }

  // One level of printing, of lowering, and of the height of what a tag writes.
  lemma PrintOf(c: Codec, j: Json)
    ensures j == JNull ==> Print(c, j) == [NullToken]
    ensures j.JBool? ==> Print(c, j) == [BoolToken(j.b)]
    ensures j.JInt? ==> Print(c, j) == [NumberToken(FormatInt(j.n))]
    ensures j.JFloat? ==> Print(c, j) == [NumberToken(c.formatFloat(j.r))]
    ensures j.JStr? ==> Print(c, j) == [StringToken(j.s)]
    ensures j.JArr? ==> Print(c, j) == [OpenArray] + PrintItems(c, j.items) + [CloseArray]
    ensures j.JObj? ==> Print(c, j) == [OpenObject] + PrintFields(c, j.fields) + [CloseObject]
    ensures j.JObj? && |j.fields| == 1 ==>
              Print(c, j) == [OpenObject, StringToken(j.fields[0].key)] + Print(c, j.fields[0].value) + [CloseObject]
  {
    if j.JObj? && |j.fields| == 1 {
      PrintFieldsStep(c, j.fields, 0);
      assert j.fields[0..] == j.fields && j.fields[1..] == [];
      PrintNothing(c);
    }
  }

  // The object writeTag hands over for a value, if it writes one.
  function TagFields(v: Value): seq<Field<Value>> {
    match v
    case Flt(NaN) => [Field("$InfNaN", Int(0))]
    case Flt(PosInf) => [Field("$InfNaN", Int(1))]
    case Flt(NegInf) => [Field("$InfNaN", Int(-1))]
    case Date(millis) => [Field("$date", Int(millis))]
    case Binary(bytes) => [Field("$binary", Str(B.Encode(bytes)))]
    case Regex(source, flags) => [Field("$regexp", Str(source)), Field("$flags", Str(flags))]
    case Custom(name, inner) => [Field("$type", Str(name)), Field("$value", inner)]
    case _ => []
  }

  lemma LowerOf(v: Value, canonical: bool)
    ensures TagFields(v) != [] ==> Lower(v, canonical) == Written(Obj(TagFields(v)), canonical, true)
    ensures v == Null ==> Lower(v, canonical) == JNull
    ensures v.Bool? ==> Lower(v, canonical) == JBool(v.b)
    ensures v.Int? ==> Lower(v, canonical) == JInt(v.n)
    ensures v.Flt? && v.f.Finite? ==> Lower(v, canonical) == JFloat(v.f.r)
    ensures v.Str? ==> Lower(v, canonical) == JStr(v.text)
    ensures v.Arr? ==> Lower(v, canonical) == JArr(LowerItems(v.items, canonical))
    ensures v.Obj? && TagOf(Keys(v.fields)) == None ==> Lower(v, canonical) == Written(v, canonical, true)
    ensures v.Obj? && TagOf(Keys(v.fields)).Some?
            ==> Lower(v, canonical) == JObj([Field("$escape", Written(v, canonical, true))])
  {
    hide TagOf;
    var tag := TagFields(v);
    if |tag| == 1 {
      var low := LowerFields(tag, canonical);
      assert low[1..] == [] && Sort<Json>([]) == [];
      assert Sort(low) == low;
      assert low == [Field(tag[0].key, Lower(tag[0].value, canonical))];
    } else if |tag| == 2 {
      assert LowerFields(tag, canonical)
          == [Field(tag[0].key, Lower(tag[0].value, canonical)), Field(tag[1].key, Lower(tag[1].value, canonical))];
    }
    if v.Arr? {
      assert Lower(v, canonical).items == LowerItems(v.items, canonical);
    }
  }

  lemma HeightOf(v: Value)
    ensures TagFields(v) != [] ==> Height(Obj(TagFields(v))) < Height(v)
  {
    var tag := TagFields(v);
    if |tag| == 1 {
      assert tag[1..] == [];
      assert FieldsHeight(tag) == Height(tag[0].value);
    } else if |tag| == 2 {
      assert tag[1..] == [tag[1]] && tag[1..][1..] == [];
      assert FieldsHeight(tag[1..][1..]) == 0;
      assert FieldsHeight(tag[1..]) == Height(tag[1].value);
      assert FieldsHeight(tag) == Max(Height(tag[0].value), Height(tag[1].value));
      assert Height(tag[0].value) == 0;
    }
  }

  lemma ItemLower(items: seq<Value>, i: nat)
    requires i < |items|
    ensures Height(items[i]) < Height(Arr(items))
  {
    ItemHeight(items, i);
  }

  lemma FieldLower(fields: seq<Field<Value>>, f: Field<Value>)
    requires f in fields
    ensures Height(f.value) < Height(Obj(fields))
  {
    FieldHeight(fields, f);
  }

  method WriteValue(c: Codec, output: Buffer, v: Value, canonical: bool, escaped: bool)
    modifies output
    ensures output.tokens == old(output.tokens) + Print(c, Written(v, canonical, escaped))
    decreases Height(v), if escaped then 1 else 3
  {
    hide Print, Lower, Height, TagOf, Arrange, LowerFields, LowerItems, PrintItems, PrintFields, Keys, FormatInt,
         B.Encode;
    HeightOf(v);
    LowerOf(v, canonical);
    PrintOf(c, Written(v, canonical, escaped));
    match v
    case Null => output.Write(NullToken);
    case Bool(b) => output.Write(BoolToken(b));
    case Int(n) => output.Write(NumberToken(FormatInt(n)));
    case Flt(NaN) => WriteTag(c, output, canonical, [Field("$InfNaN", Int(0))]);
    case Flt(PosInf) => WriteTag(c, output, canonical, [Field("$InfNaN", Int(1))]);
    case Flt(NegInf) => WriteTag(c, output, canonical, [Field("$InfNaN", Int(-1))]);
    case Flt(Finite(r)) => output.Write(NumberToken(c.formatFloat(r)));
    case Str(s) => output.Write(StringToken(s));
    case Arr(items) => WriteItems(c, output, items, canonical);
    case Obj(fields) =>
      var shape := TagShape(fields);
      if shape && !escaped {
        WriteEscaped(c, output, fields, canonical);
      } else {
        WriteFields(c, output, fields, canonical);
      }
    case Date(millis) => WriteTag(c, output, canonical, [Field("$date", Int(millis))]);
    case Binary(bytes) => WriteTag(c, output, canonical, [Field("$binary", Str(B.Encode(bytes)))]);
    case Regex(source, flags) =>
      WriteTag(c, output, canonical, [Field("$regexp", Str(source)), Field("$flags", Str(flags))]);
    case Custom(name, inner) => WriteTag(c, output, canonical, [Field("$type", Str(name)), Field("$value", inner)]);
  }

  method WriteEscaped(c: Codec, output: Buffer, fields: seq<Field<Value>>, canonical: bool)
    modifies output
    ensures output.tokens == old(output.tokens)
            + Print(c, JObj([Field("$escape", Written(Obj(fields), canonical, true))]))
    decreases Height(Obj(fields)), 2
  {
    hide Print, Lower, Height, Written;
    PrintOf(c, JObj([Field("$escape", Written(Obj(fields), canonical, true))]));
    output.Write(OpenObject);
    output.Write(StringToken("$escape"));
    WriteValue(c, output, Obj(fields), canonical, true);
    output.Write(CloseObject);
  }

  method WriteTag(c: Codec, output: Buffer, canonical: bool, fields: seq<Field<Value>>)
    modifies output
    ensures output.tokens == old(output.tokens) + Print(c, Written(Obj(fields), canonical, true))
    decreases Height(Obj(fields)), 2
  {
    WriteValue(c, output, Obj(fields), canonical, true);
  }

  method WriteItems(c: Codec, output: Buffer, items: seq<Value>, canonical: bool)
    modifies output
    ensures output.tokens == old(output.tokens) + [OpenArray] + PrintItems(c, LowerItems(items, canonical))
            + [CloseArray]
    decreases Height(Arr(items)), 0
  {
    hide Print, PrintItems, Height, Lower;
    ghost var lowered := LowerItems(items, canonical);
    ghost var before := output.tokens;
    output.Write(OpenArray);
    assert lowered[0..] == lowered && lowered[|lowered|..] == [];
    for i := 0 to |items|
      invariant output.tokens + PrintItems(c, lowered[i..]) == before + [OpenArray] + PrintItems(c, lowered)
    {
      ItemLower(items, i);
      PrintItemsStep(c, lowered, i);
      WriteValue(c, output, items[i], canonical, false);
    }
    PrintNothing(c);
    assert output.tokens + [] == output.tokens;
    output.Write(CloseArray);
  }

  method WriteFields(c: Codec, output: Buffer, given: seq<Field<Value>>, canonical: bool)
    modifies output
    ensures output.tokens
         == old(output.tokens) + [OpenObject] + PrintFields(c, Arrange(LowerFields(given, canonical), canonical))
            + [CloseObject]
    decreases Height(Obj(given)), 0
  {
    hide Print, PrintFields, Height, Lower, Sort;
    var fields := Arrange(given, canonical);
    SortMembers(given);
    RT.ArrangedLower(given, canonical);
    ghost var lowered := LowerFields(fields, canonical);
    ghost var before := output.tokens;
    output.Write(OpenObject);
    assert lowered[0..] == lowered && lowered[|lowered|..] == [];
    for i := 0 to |fields|
      invariant output.tokens + PrintFields(c, lowered[i..]) == before + [OpenObject] + PrintFields(c, lowered)
    {
      assert fields[i] in given;
      FieldLower(given, fields[i]);
      PrintFieldsStep(c, lowered, i);
      output.Write(StringToken(fields[i].key));
      WriteValue(c, output, fields[i].value, canonical, false);
    }
    PrintNothing(c);
    assert output.tokens + [] == output.tokens;
    output.Write(CloseObject);
  }

  function LowerItems(items: seq<Value>, canonical: bool): (r: seq<Json>)
    ensures |r| == |items|
  {
    seq(|items|, i requires 0 <= i < |items| => Lower(items[i], canonical))
  }

  lemma PrintNothing(c: Codec)
    ensures PrintItems(c, []) == [] && PrintFields(c, []) == []
  {
  }

  lemma PrintItemsStep(c: Codec, items: seq<Json>, i: nat)
    requires i < |items|
    ensures PrintItems(c, items[i..]) == Print(c, items[i]) + PrintItems(c, items[i + 1..])
  {
    hide Print;
    assert items[i..][1..] == items[i + 1..];
  }

  lemma PrintFieldsStep(c: Codec, fields: seq<Field<Json>>, i: nat)
    requires i < |fields|
    ensures PrintFields(c, fields[i..])
            == [StringToken(fields[i].key)] + Print(c, fields[i].value) + PrintFields(c, fields[i + 1..])
  {
    hide Print;
    assert fields[i..][1..] == fields[i + 1..];
  }

  method StringifyValue(c: Codec, v: Value, canonical: bool) returns (tokens: seq<Token>)
    ensures tokens == Stringify(c, v, canonical)
  {
    var output := new Buffer();
    WriteValue(c, output, v, canonical, false);
    tokens := output.tokens;
  }
}
