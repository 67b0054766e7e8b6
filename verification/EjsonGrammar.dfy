// Which texts the parser accepts, printed by this codec or not, and what it makes of them.
module EjsonGrammar {
  import opened Results
  import opened Text
  import opened Fields
  import opened EjsonValue
  import opened EjsonCodec
  import opened EjsonReading

  // A JSON document as it is spelled: numbers by their literal, repeated keys as they stand.
  datatype Raw =
    | RNull
    | RBool(b: bool)
    | RNum(text: string)
    | RStr(s: string)
    | RArr(items: seq<Raw>)
    | RObj(fields: seq<Field<Raw>>)

  /* ---------- Its text ---------- */

  function ItemsText(items: seq<Raw>): seq<Token> {
    if items == [] then [] else RawText(items[0]) + ItemsText(items[1..])
  }

  function FieldsText(fields: seq<Field<Raw>>): seq<Token> {
    if fields == [] then []
    else [StringToken(fields[0].key)] + RawText(fields[0].value) + FieldsText(fields[1..])
  }

  function RawText(raw: Raw): (ts: seq<Token>)
    ensures ts != [] && ts[0] != CloseArray && ts[0] != CloseObject
  {
    match raw
    case RNull => [NullToken]
    case RBool(b) => [BoolToken(b)]
    case RNum(text) => [NumberToken(text)]
    case RStr(s) => [StringToken(s)]
    case RArr(items) => [OpenArray] + ItemsText(items) + [CloseArray]
    case RObj(fields) => [OpenObject] + FieldsText(fields) + [CloseObject]
  }

  /* ---------- Its meaning before tags ---------- */

  function Meanings(c: Codec, items: seq<Raw>): Outcome<seq<Json>>
    decreases items
  {
    if items == [] then Ok([])
    else
      match Meaning(c, items[0])
      case Err(e) => Err(e)
      case Ok(j) =>
        match Meanings(c, items[1..])
        case Err(e) => Err(e)
        case Ok(js) => Ok([j] + js)
  }

  function FieldMeanings(c: Codec, fields: seq<Field<Raw>>, acc: seq<Field<Json>>): Outcome<seq<Field<Json>>>
    decreases fields
  {
    if fields == [] then Ok(acc)
    else
      match Meaning(c, fields[0].value)
      case Err(e) => Err(e)
      case Ok(j) => FieldMeanings(c, fields[1..], Put(acc, fields[0].key, j))
  }

  function Meaning(c: Codec, raw: Raw): Outcome<Json>
    decreases raw
  {
    match raw
    case RNull => Ok(JNull)
    case RBool(b) => Ok(JBool(b))
    case RNum(text) => ReadNumber(c, text)
    case RStr(s) => Ok(JStr(s))
    case RArr(items) =>
      (match Meanings(c, items)
       case Ok(js) => Ok(JArr(js))
       case Err(e) => Err(e))
    case RObj(fields) =>
      (match FieldMeanings(c, fields, [])
       case Ok(fs) => Ok(JObj(fs))
       case Err(e) => Err(e))
  }

  /* ---------- Reading a text ---------- */

  lemma {:induction false} ReadRaw(c: Codec, raw: Raw, rest: seq<Token>)
    ensures Read(c, RawText(raw) + rest) == Then(Meaning(c, raw), rest)
    decreases raw
  {
    hide ReadNumber, Put;
    var ts := RawText(raw) + rest;
    match raw
    case RArr(items) =>
      ReadRawItems(c, items, rest);
      assert ts[1..] == ItemsText(items) + ([CloseArray] + rest);
    case RObj(fields) =>
      ReadRawFields(c, fields, [], rest);
      assert ts[1..] == FieldsText(fields) + ([CloseObject] + rest);
    case _ =>
      assert ts[1..] == rest;
  }

  lemma {:induction false} ReadRawItems(c: Codec, items: seq<Raw>, rest: seq<Token>)
    ensures ReadItems(c, ItemsText(items) + ([CloseArray] + rest)) == Then(Meanings(c, items), rest)
    decreases items
  {
    hide Read, RawText, Meaning;
    var ts := ItemsText(items) + ([CloseArray] + rest);
    if items == [] {
      assert ts == [CloseArray] + rest;
    } else {
      var tail := ItemsText(items[1..]) + ([CloseArray] + rest);
      assert ts == RawText(items[0]) + tail;
      ReadRaw(c, items[0], tail);
      ReadRawItems(c, items[1..], rest);
    }
  }

  lemma {:induction false} ReadRawFields(c: Codec, fields: seq<Field<Raw>>, acc: seq<Field<Json>>, rest: seq<Token>)
    ensures ReadFields(c, FieldsText(fields) + ([CloseObject] + rest), acc)
            == Then(FieldMeanings(c, fields, acc), rest)
    decreases fields
  {
    hide Read, RawText, Meaning, Put;
    var ts := FieldsText(fields) + ([CloseObject] + rest);
    if fields == [] {
      assert ts == [CloseObject] + rest;
    } else {
      var tail := FieldsText(fields[1..]) + ([CloseObject] + rest);
      assert ts == [StringToken(fields[0].key)] + (RawText(fields[0].value) + tail);
      assert ts[1..] == RawText(fields[0].value) + tail;
      ReadRaw(c, fields[0].value, tail);
      if Meaning(c, fields[0].value).Ok? {
        ReadRawFields(c, fields[1..], Put(acc, fields[0].key, Meaning(c, fields[0].value).value), rest);
      }
    }
  }

  /* ---------- Whatever is read is the text of a document ---------- */

  lemma {:induction false} ReadIsRaw(c: Codec, ts: seq<Token>) returns (raw: Raw)
    requires Read(c, ts).Ok?
    ensures ts == RawText(raw) + Read(c, ts).value.rest && Meaning(c, raw) == Ok(Read(c, ts).value.value)
    decreases |ts|, 0
  {
    hide ReadNumber, Put;
    var rest := ts[1..];
    assert ts == [ts[0]] + rest;
    match ts[0]
    case NullToken => raw := RNull;
    case BoolToken(b) => raw := RBool(b);
    case StringToken(s) => raw := RStr(s);
    case NumberToken(text) => raw := RNum(text);
    case OpenArray =>
      var items := ItemsAreRaw(c, rest);
      raw := RArr(items);
    case OpenObject =>
      var fields := FieldsAreRaw(c, rest, []);
      raw := RObj(fields);
  }

  lemma {:induction false} ItemsAreRaw(c: Codec, ts: seq<Token>) returns (items: seq<Raw>)
    requires ReadItems(c, ts).Ok?
    ensures ts == ItemsText(items) + [CloseArray] + ReadItems(c, ts).value.rest
    ensures Meanings(c, items) == Ok(ReadItems(c, ts).value.value)
    decreases |ts|, 1
  {
    hide Read, RawText, Meaning;
    if ts[0] == CloseArray {
      items := [];
      assert ts == [CloseArray] + ts[1..];
    } else {
      var first := ReadIsRaw(c, ts);
      var rest := Read(c, ts).value.rest;
      var more := ItemsAreRaw(c, rest);
      items := [first] + more;
      assert items[1..] == more;
    }
  }

  lemma {:induction false} FieldsAreRaw(c: Codec, ts: seq<Token>, acc: seq<Field<Json>>)
    returns (fields: seq<Field<Raw>>)
    requires ReadFields(c, ts, acc).Ok?
    ensures ts == FieldsText(fields) + [CloseObject] + ReadFields(c, ts, acc).value.rest
    ensures FieldMeanings(c, fields, acc) == Ok(ReadFields(c, ts, acc).value.value)
    decreases |ts|, 1
  {
    hide Read, RawText, Meaning, Put;
    if ts[0] == CloseObject {
      fields := [];
      assert ts == [CloseObject] + ts[1..];
    } else {
      assert ts == [ts[0]] + ts[1..];
      var first := ReadIsRaw(c, ts[1..]);
      var read := Read(c, ts[1..]).value;
      var more := FieldsAreRaw(c, read.rest, Put(acc, ts[0].s, read.value));
      fields := [Field(ts[0].s, first)] + more;
      assert fields[1..] == more;
    }
  }

  ghost predicate Spells(c: Codec, raw: Raw, ts: seq<Token>, v: Value) {
    ts == RawText(raw) && Meaning(c, raw).Ok? && Decode(c, Meaning(c, raw).value) == Ok(v)
  }

  // The parser accepts exactly the texts of documents whose numbers can be read and whose tags
  // can be decoded, and returns what the document means.
  lemma ParseExactly(c: Codec, ts: seq<Token>, v: Value)
    ensures Parse(c, ts) == Ok(v) <==> exists raw :: Spells(c, raw, ts, v)
  {
    hide Read, RawText, Meaning, Decode;
    if Parse(c, ts) == Ok(v) {
      var raw := ReadIsRaw(c, ts);
      assert Spells(c, raw, ts, v);
    }
    if raw :| Spells(c, raw, ts, v) {
      ReadRaw(c, raw, []);
      assert RawText(raw) + [] == RawText(raw);
    }
  }

  // Anything after a complete document is trailing data.
  lemma TrailingDataFails(c: Codec, raw: Raw, more: seq<Token>)
    requires Meaning(c, raw).Ok?
    ensures more != [] ==> Parse(c, RawText(raw) + more) == Err(TrailingData)
  {
    hide Read, RawText, Meaning, Decode;
    ReadRaw(c, raw, more);
  }

  // A number without a point or an exponent is an integer where it fits; any other is a float, as
  // the library reads it.
  lemma NumbersRead(c: Codec, text: string)
    ensures ('.' !in text && 'e' !in text && 'E' !in text) && ParseInt64(text).Some? ==>
              ReadNumber(c, text) == Ok(JInt(ParseInt64(text).value))
    ensures '.' in text || 'e' in text || 'E' in text || ParseInt64(text).None? ==>
              ReadNumber(c, text)
              == if c.parseFloat(text).Some? then Ok(JFloat(c.parseFloat(text).value)) else Err(BadNumber(text))
  {
    hide ParseInt64;
    if x :| x in text && x in ".eE" {
      var i :| 0 <= i < |text| && text[i] == x;
    }
    assert '.' in ".eE" && 'e' in ".eE" && 'E' in ".eE";
  }

  /* ---------- Repeated keys ---------- */

  // The last of the fields with this key.
  function Last(fields: seq<Field<Raw>>, key: string): Option<Raw> {
    if fields == [] then None
    else
      var f := fields[|fields| - 1];
      if f.key == key then Some(f.value) else Last(fields[..|fields| - 1], key)
  }

  lemma {:induction false} FieldMeaningsSnoc(c: Codec, fields: seq<Field<Raw>>, f: Field<Raw>, acc: seq<Field<Json>>)
    ensures FieldMeanings(c, fields + [f], acc)
         == match FieldMeanings(c, fields, acc)
            case Err(e) => Err(e)
            case Ok(fs) =>
              match Meaning(c, f.value)
              case Err(e) => Err(e)
              case Ok(j) => Ok(Put(fs, f.key, j))
    decreases fields
  {
    hide Meaning, Put;
    if fields == [] {
      assert fields + [f] == [f] && [f][1..] == [];
    } else {
      assert (fields + [f])[0] == fields[0] && (fields + [f])[1..] == fields[1..] + [f];
      if Meaning(c, fields[0].value).Ok? {
        FieldMeaningsSnoc(c, fields[1..], f, Put(acc, fields[0].key, Meaning(c, fields[0].value).value));
      }
    }
  }

  // Of a repeated key the first position and the last value count.
  lemma {:induction false} RepeatedKeys(c: Codec, fields: seq<Field<Raw>>, fs: seq<Field<Json>>, key: string)
    requires FieldMeanings(c, fields, []) == Ok(fs)
    ensures Distinct(Keys(fs)) && Keys(fs) == Firsts(Keys(fields))
    ensures Last(fields, key) == None ==> Lookup(fs, key) == None
    ensures Last(fields, key).Some? ==> Meaning(c, Last(fields, key).value).Ok?
                                        && Lookup(fs, key) == Some(Meaning(c, Last(fields, key).value).value)
    decreases |fields|
  {
    hide Meaning, Put;
    if fields != [] {
      var front, f := fields[..|fields| - 1], fields[|fields| - 1];
      assert fields == front + [f];
      FieldMeaningsSnoc(c, front, f, []);
      var before := FieldMeanings(c, front, []).value;
      RepeatedKeys(c, front, before, key);
      var j := Meaning(c, f.value).value;
      PutLooks(before, f.key, j, key);
      PutKeys(before, f.key, j);
      assert Keys(fields)[..|fields| - 1] == Keys(front);
    }
  }

  // The different keys in the order in which they first occur.
  function Firsts(keys: seq<string>): seq<string> {
    if keys == [] then []
    else
      var front, last := Firsts(keys[..|keys| - 1]), keys[|keys| - 1];
      if last in front then front else front + [last]
  }
}
