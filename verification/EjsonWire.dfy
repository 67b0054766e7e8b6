// The wire format itself: the text of every kind of value, and what every tag is read as.
module EjsonWire {
  import opened Results
  import opened Text
  import opened Fields
  import opened EjsonValue
  import opened EjsonCodec
  import opened EjsonRoundTrip
  import opened EjsonTheorems
  import B = Base64

  /* ---------- Tag shapes ---------- */

  ghost predicate Names(keys: seq<string>, tag: Tag) {
    match tag
    case DateTag => keys == ["$date"]
    case InfNaNTag => keys == ["$InfNaN"]
    case BinaryTag => keys == ["$binary"]
    case EscapeTag => keys == ["$escape"]
    case RegexpTag => keys == ["$regexp", "$flags"] || keys == ["$flags", "$regexp"]
    case TypeTag => keys == ["$type", "$value"] || keys == ["$value", "$type"]
  }

  lemma TagOfExactly(keys: seq<string>, tag: Tag)
    ensures TagOf(keys) == Some(tag) <==> Names(keys, tag)
  {
    SingleTags();
    PairTags();
    if |keys| == 1 {
      assert keys == [keys[0]];
      OneKey(keys[0], "$date");
      OneKey(keys[0], "$InfNaN");
      OneKey(keys[0], "$binary");
      OneKey(keys[0], "$escape");
    } else if |keys| == 2 {
      assert keys == [keys[0], keys[1]];
      TwoKeys(keys, "$regexp", "$flags");
      TwoKeys(keys, "$type", "$value");
    }
  }

  lemma TwoKeys(keys: seq<string>, a: string, b: string)
    requires |keys| == 2 && a != b
    ensures HasKeys(keys, [a, b]) <==> keys == [a, b] || keys == [b, a]
  {
    var names := [a, b];
    assert names[0] in names && names[1] in names;
    assert forall name :: name in names <==> name == a || name == b;
    assert a in keys <==> keys[0] == a || keys[1] == a;
    assert b in keys <==> keys[0] == b || keys[1] == b;
  }

  /* ---------- The text of each kind of value ---------- */

  function Texts(c: Codec, items: seq<Value>, canonical: bool): seq<Token> {
    if items == [] then [] else Stringify(c, items[0], canonical) + Texts(c, items[1..], canonical)
  }

  function FieldTexts(c: Codec, fields: seq<Field<Value>>, canonical: bool): seq<Token> {
    if fields == [] then []
    else [StringToken(fields[0].key)] + Stringify(c, fields[0].value, canonical)
         + FieldTexts(c, fields[1..], canonical)
  }

  function Wrap(fields: seq<Token>): seq<Token> { [OpenObject] + fields + [CloseObject] }

  lemma ScalarText(c: Codec, canonical: bool, b: bool, n: int64, r: real, s: string)
    ensures Stringify(c, Null, canonical) == [NullToken]
    ensures Stringify(c, Bool(b), canonical) == [BoolToken(b)]
    ensures Stringify(c, Int(n), canonical) == [NumberToken(FormatInt(n))]
    ensures Stringify(c, Flt(Finite(r)), canonical) == [NumberToken(c.formatFloat(r))]
    ensures Stringify(c, Str(s), canonical) == [StringToken(s)]
  {
    hide FormatInt;
  }

  lemma TagText(c: Codec, canonical: bool, millis: int64, bytes: seq<B.byte>)
    ensures Stringify(c, Flt(NaN), canonical) == Wrap([StringToken("$InfNaN"), NumberToken("0")])
    ensures Stringify(c, Flt(PosInf), canonical) == Wrap([StringToken("$InfNaN"), NumberToken("1")])
    ensures Stringify(c, Flt(NegInf), canonical) == Wrap([StringToken("$InfNaN"), NumberToken("-1")])
    ensures Stringify(c, Date(millis), canonical) == Wrap([StringToken("$date"), NumberToken(FormatInt(millis))])
    ensures Stringify(c, Binary(bytes), canonical) == Wrap([StringToken("$binary"), StringToken(B.Encode(bytes))])
  {
    hide FormatInt, B.Encode, Wrap, Print;
    SmallNumbers();
    IntField(c, "$InfNaN", 0);
    IntField(c, "$InfNaN", 1);
    IntField(c, "$InfNaN", -1);
    IntField(c, "$date", millis);
    StrField(c, "$binary", B.Encode(bytes));
  }

  lemma IntField(c: Codec, key: string, n: int64)
    ensures Print(c, JObj([Field(key, JInt(n))])) == Wrap([StringToken(key), NumberToken(FormatInt(n))])
  {
    hide FormatInt, Wrap;
    OneField(c, key, JInt(n));
    assert [StringToken(key)] + Print(c, JInt(n)) == [StringToken(key), NumberToken(FormatInt(n))];
  }

  lemma StrField(c: Codec, key: string, s: string)
    ensures Print(c, JObj([Field(key, JStr(s))])) == Wrap([StringToken(key), StringToken(s)])
  {
    hide Wrap;
    OneField(c, key, JStr(s));
    assert [StringToken(key)] + Print(c, JStr(s)) == [StringToken(key), StringToken(s)];
  }

  lemma SmallNumbers()
    ensures FormatInt(0) == "0" && FormatInt(1) == "1" && FormatInt(-1) == "-1"
  {
  }

  lemma OneField(c: Codec, key: string, j: Json)
    ensures Print(c, JObj([Field(key, j)])) == Wrap([StringToken(key)] + Print(c, j))
  {
    hide Print;
    var fields := [Field(key, j)];
    assert fields[1..] == [];
    assert PrintFields(c, fields) == [StringToken(key)] + Print(c, j) + PrintFields(c, []);
    PrintObject(c, fields);
  }

  lemma TwoFields(c: Codec, a: string, j: Json, b: string, k: Json)
    ensures Print(c, JObj([Field(a, j), Field(b, k)]))
            == Wrap([StringToken(a)] + Print(c, j) + [StringToken(b)] + Print(c, k))
  {
    hide Print;
    var fields := [Field(a, j), Field(b, k)];
    assert fields[1..] == [Field(b, k)] && fields[1..][1..] == [];
    assert PrintFields(c, fields[1..]) == [StringToken(b)] + Print(c, k) + PrintFields(c, []);
    assert PrintFields(c, fields) == [StringToken(a)] + Print(c, j) + PrintFields(c, fields[1..]);
    PrintObject(c, fields);
  }

  lemma PrintObject(c: Codec, fields: seq<Field<Json>>)
    ensures Print(c, JObj(fields)) == Wrap(PrintFields(c, fields))
  {
  }

  // The two tags with two fields: in canonical text their keys are sorted too.
  lemma PairText(c: Codec, canonical: bool, source: string, flags: string, name: string, inner: Value)
    ensures Stringify(c, Regex(source, flags), false)
            == Wrap([StringToken("$regexp"), StringToken(source), StringToken("$flags"), StringToken(flags)])
    ensures Stringify(c, Regex(source, flags), true)
            == Wrap([StringToken("$flags"), StringToken(flags), StringToken("$regexp"), StringToken(source)])
    ensures Stringify(c, Custom(name, inner), canonical)
            == Wrap([StringToken("$type"), StringToken(name), StringToken("$value")] + Stringify(c, inner, canonical))
  {
    hide Print, Wrap, Sort, Less;
    var r: Field<Json>, f: Field<Json> := Field("$regexp", JStr(source)), Field("$flags", JStr(flags));
    var t: Field<Json>, x: Field<Json> := Field("$type", JStr(name)), Field("$value", Lower(inner, canonical));
    TwoFields(c, "$regexp", JStr(source), "$flags", JStr(flags));
    TwoFields(c, "$flags", JStr(flags), "$regexp", JStr(source));
    TwoFields(c, "$type", JStr(name), "$value", Lower(inner, canonical));
    StringText(c, source);
    StringText(c, flags);
    StringText(c, name);
    FlagsFirst();
    TypeFirst();
    SortPair(r, f);
    SortPair(t, x);
    assert [StringToken("$regexp")] + [StringToken(source)] + [StringToken("$flags")] + [StringToken(flags)]
        == [StringToken("$regexp"), StringToken(source), StringToken("$flags"), StringToken(flags)];
    assert [StringToken("$flags")] + [StringToken(flags)] + [StringToken("$regexp")] + [StringToken(source)]
        == [StringToken("$flags"), StringToken(flags), StringToken("$regexp"), StringToken(source)];
    assert [StringToken("$type")] + [StringToken(name)] + [StringToken("$value")]
        == [StringToken("$type"), StringToken(name), StringToken("$value")];
  }

  lemma StringText(c: Codec, s: string)
    ensures Print(c, JStr(s)) == [StringToken(s)]
  {
  }

  lemma FlagsFirst()
    ensures Less("$flags", "$regexp") && !Less("$regexp", "$flags")
  {
    assert "$flags"[1..] == "flags" && "$regexp"[1..] == "regexp";
    assert Less("flags", "regexp") && !Less("regexp", "flags");
  }

  lemma TypeFirst()
    ensures Less("$type", "$value")
  {
    assert "$type"[1..] == "type" && "$value"[1..] == "value";
    assert Less("type", "value");
  }

  lemma SortPair(a: Field<Json>, b: Field<Json>)
    ensures Sort([a, b]) == if Less(a.key, b.key) then [a, b] else [b, a]
  {
    hide Less;
    assert [a, b][1..] == [b] && [b][1..] == [];
    assert Sort([b]) == [b];
    assert Insert(a, []) == [a];
    assert [b][1..] == [];
  }

  lemma {:induction false} ItemTexts(c: Codec, items: seq<Value>, canonical: bool)
    ensures PrintItems(c, seq(|items|, i requires 0 <= i < |items| => Lower(items[i], canonical)))
            == Texts(c, items, canonical)
  {
    hide Lower, Print;
    if items != [] {
      var low := seq(|items|, i requires 0 <= i < |items| => Lower(items[i], canonical));
      var rest := items[1..];
      assert low[1..] == seq(|rest|, i requires 0 <= i < |rest| => Lower(rest[i], canonical));
      ItemTexts(c, rest, canonical);
    }
  }

  lemma {:induction false} LoweredTexts(c: Codec, fields: seq<Field<Value>>, canonical: bool)
    ensures PrintFields(c, LowerFields(fields, canonical)) == FieldTexts(c, fields, canonical)
  {
    hide Lower, Print;
    if fields != [] {
      assert LowerFields(fields, canonical)[1..] == LowerFields(fields[1..], canonical);
      LoweredTexts(c, fields[1..], canonical);
    }
  }

  // An array is its items in order; an object its fields in order, or sorted by key in canonical
  // text, and wrapped in $escape exactly if its keys spell a tag.
  lemma CompoundText(c: Codec, items: seq<Value>, fields: seq<Field<Value>>, canonical: bool)
    ensures Stringify(c, Arr(items), canonical) == [OpenArray] + Texts(c, items, canonical) + [CloseArray]
    ensures var body := Wrap(FieldTexts(c, if canonical then Sort(fields) else fields, canonical));
            Stringify(c, Obj(fields), canonical)
            == if exists tag :: Names(Keys(fields), tag) then Wrap([StringToken("$escape")] + body) else body
  {
    ItemTexts(c, items, canonical);
    ArrangedLower(fields, canonical);
    LoweredTexts(c, Arrange(fields, canonical), canonical);
    var low := LowerFields(Arrange(fields, canonical), canonical);
    hide Print, PrintFields, PrintItems, Names, TagOf, Sort;
    PrintObject(c, low);
    OneField(c, "$escape", JObj(low));
    forall tag
      ensures TagOf(Keys(fields)) == Some(tag) <==> Names(Keys(fields), tag)
    {
      TagOfExactly(Keys(fields), tag);
    }
    PrintArray(c, seq(|items|, i requires 0 <= i < |items| => Lower(items[i], canonical)));
  }

  lemma PrintArray(c: Codec, items: seq<Json>)
    ensures Print(c, JArr(items)) == [OpenArray] + PrintItems(c, items) + [CloseArray]
  {
  }

  /* ---------- Canonical text has its keys in order ---------- */

  // In every object, at every depth, each key is less than the next ones.
  ghost predicate KeysRise(v: Value) {
    match v
    case Arr(items) => forall i :: 0 <= i < |items| ==> KeysRise(items[i])
    case Obj(fields) =>
      && (forall i, j :: 0 <= i < j < |fields| ==> ComesBefore(fields[i].key, fields[j].key))
      && (forall i :: 0 <= i < |fields| ==> KeysRise(fields[i].value))
    case Custom(_, inner) => KeysRise(inner)
    case _ => true
  }

  lemma {:induction false} SortedRises(v: Value)
    requires DistinctThroughout(v)
    ensures KeysRise(Sorted(v))
  {
    match v
    case Arr(items) =>
      forall i | 0 <= i < |items|
        ensures KeysRise(Sorted(items[i]))
      {
        SortedRises(items[i]);
      }
    case Obj(fields) =>
      var norm := NormFields(fields, true);
      forall i | 0 <= i < |fields|
        ensures KeysRise(norm[i].value)
      {
        SortedRises(fields[i].value);
      }
      SortedFields(fields);
      assert Keys(norm) == Keys(fields);
      SortRises(norm);
    case Custom(_, inner) => SortedRises(inner);
    case _ =>
  }

  lemma SortRises(fields: seq<Field<Value>>)
    requires Distinct(Keys(fields)) && forall i :: 0 <= i < |fields| ==> KeysRise(fields[i].value)
    ensures KeysRise(Obj(Sort(fields)))
  {
    hide KeysRise, Less, Sort, ComesBefore, Distinct;
    SortAscending(fields);
    SortMembers(fields);
    var sorted := Sort(fields);
    forall i, j | 0 <= i < j < |sorted|
      ensures ComesBefore(sorted[i].key, sorted[j].key)
    {
      LessExactly(sorted[i].key, sorted[j].key);
    }
    forall i | 0 <= i < |sorted|
      ensures KeysRise(sorted[i].value)
    {
      assert sorted[i] in sorted;
    }
    RisingObject(sorted);
  }

  lemma RisingObject(fields: seq<Field<Value>>)
    requires forall i, j :: 0 <= i < j < |fields| ==> ComesBefore(fields[i].key, fields[j].key)
    requires forall i :: 0 <= i < |fields| ==> KeysRise(fields[i].value)
    ensures KeysRise(Obj(fields))
  {
  }

  // What canonical text parses to has its keys in order, and is the value up to that order.
  lemma CanonicalKeysRise(c: Codec, v: Value)
    requires Rebuilding(c) && Faithful(c, v)
    ensures var parsed := Parse(c, Stringify(c, v, true));
            parsed.Ok? && KeysRise(parsed.value) && SameUpToOrder(v, parsed.value)
  {
    hide Faithful, Parse, Lower, Print, SameUpToOrder, Sorted, DistinctThroughout, KeysRise;
    FaithfulDistinct(c, v);
    ParseCanonical(c, v);
    SortedRises(v);
    SortedAgain(v);
    SortedDistinct(v);
    SortedExact(v, Sorted(v));
  }

  lemma {:induction false} SortedDistinct(v: Value)
    requires DistinctThroughout(v)
    ensures DistinctThroughout(Sorted(v))
  {
    match v
    case Arr(items) =>
      forall i | 0 <= i < |items|
        ensures DistinctThroughout(Sorted(items[i]))
      {
        SortedDistinct(items[i]);
      }
    case Obj(fields) =>
      var norm := NormFields(fields, true);
      forall i | 0 <= i < |fields|
        ensures DistinctThroughout(norm[i].value)
      {
        SortedDistinct(fields[i].value);
      }
      SortedFields(fields);
      assert Keys(norm) == Keys(fields);
      SortAscending(norm);
      AscendingDistinct(Sort(norm));
      SortMembers(norm);
      forall i | 0 <= i < |norm|
        ensures DistinctThroughout(Sort(norm)[i].value)
      {
        assert Sort(norm)[i] in norm;
      }
    case Custom(_, inner) => SortedDistinct(inner);
    case _ =>
  }

  // Sorting a second time changes nothing.
  lemma {:induction false} SortedAgain(v: Value)
    requires DistinctThroughout(v)
    ensures Sorted(Sorted(v)) == Sorted(v)
  {
    match v
    case Arr(items) =>
      var once := Sorted(v).items;
      forall i | 0 <= i < |items|
        ensures Sorted(once[i]) == once[i]
      {
        SortedAgain(items[i]);
      }
      assert Sorted(Sorted(v)).items == once;
    case Obj(fields) =>
      forall i | 0 <= i < |fields|
        ensures Sorted(Sorted(fields[i].value)) == Sorted(fields[i].value)
      {
        SortedAgain(fields[i].value);
      }
      SortedAgainObject(fields);
    case Custom(_, inner) => SortedAgain(inner);
    case _ =>
  }

  lemma SortedAgainObject(fields: seq<Field<Value>>)
    requires Distinct(Keys(fields))
    requires forall i :: 0 <= i < |fields| ==> Sorted(Sorted(fields[i].value)) == Sorted(fields[i].value)
    ensures Sorted(Sorted(Obj(fields))) == Sorted(Obj(fields))
  {
    hide Sort;
    var norm := NormFields(fields, true);
    assert Keys(norm) == Keys(fields);
    SortedFields(fields);
    SortedFields(Sort(norm));
    SortMembers(norm);
    forall i | 0 <= i < |norm|
      ensures NormFields(Sort(norm), true)[i] == Sort(norm)[i]
    {
      assert Sort(norm)[i] in norm;
      var j :| 0 <= j < |norm| && norm[j] == Sort(norm)[i];
    }
    assert NormFields(Sort(norm), true) == Sort(norm);
    SortTwice(norm);
  }

  /* ---------- What every tag is read as ---------- */

  // The sign $InfNaN carries: zero is NaN, one is positive infinity, any other number negative
  // infinity; it may be spelled as an integer or as a float.
  ghost predicate Zero(w: Value) { w == Int(0) || w == Flt(Finite(0.0)) }
  ghost predicate One(w: Value) { w == Int(1) || w == Flt(Finite(1.0)) }

  lemma SingleTagsRead(c: Codec, w: Value)
    ensures DecodeObject(c, [Field("$date", w)]) == if w.Int? then Ok(Date(w.n)) else Err(BadTag("$date"))
    ensures DecodeObject(c, [Field("$InfNaN", w)])
            == if Zero(w) then Ok(Flt(NaN)) else if One(w) then Ok(Flt(PosInf))
               else if w.Int? || w.Flt? then Ok(Flt(NegInf)) else Err(BadTag("$InfNaN"))
    ensures DecodeObject(c, [Field("$binary", w)])
            == if !w.Str? then Err(BadTag("$binary"))
               else if B.Decode(w.text).Some? then Ok(Binary(B.Decode(w.text).value)) else Err(BadBase64)
  {
    hide TagOf, B.Decode;
    SingleTags();
    assert Keys<Value>([Field("$date", w)]) == ["$date"];
    assert Keys<Value>([Field("$binary", w)]) == ["$binary"];
    assert Keys<Value>([Field("$InfNaN", w)]) == ["$InfNaN"];
  }

  lemma PairTagsRead(c: Codec, v: Value, w: Value)
    ensures var regex := if v.Str? && w.Str? then Ok(Regex(v.text, SanitizeFlags(w.text))) else Err(BadTag("$regexp"));
            && DecodeObject(c, [Field("$regexp", v), Field("$flags", w)]) == regex
            && DecodeObject(c, [Field("$flags", w), Field("$regexp", v)]) == regex
    ensures var custom := if !v.Str? then Err(BadTag("$type"))
                          else if v.text in c.factories then c.factories[v.text](w) else Err(UnknownType(v.text));
            && DecodeObject(c, [Field("$type", v), Field("$value", w)]) == custom
            && DecodeObject(c, [Field("$value", w), Field("$type", v)]) == custom
  {
    hide TagOf, SanitizeFlags;
    PairTags();
    PairLooks("$regexp", v, "$flags", w);
    PairLooks("$type", v, "$value", w);
  }

  lemma PairLooks(a: string, v: Value, b: string, w: Value)
    requires a != b
    ensures var p, q := [Field(a, v), Field(b, w)], [Field(b, w), Field(a, v)];
            && Keys<Value>(p) == [a, b] && Keys<Value>(q) == [b, a]
            && Lookup<Value>(p, a) == Some(v) && Lookup<Value>(p, b) == Some(w)
            && Lookup<Value>(q, a) == Some(v) && Lookup<Value>(q, b) == Some(w)
  {
    var p: seq<Field<Value>>, q: seq<Field<Value>> := [Field(a, v), Field(b, w)], [Field(b, w), Field(a, v)];
    assert p[1..] == [Field(b, w)] && q[1..] == [Field(a, v)];
    assert Lookup<Value>([Field(b, w)], b) == Some(w) && Lookup<Value>([Field(a, v)], a) == Some(v);
  }

  // Any other keys leave an object as it is.
  lemma UntaggedRead(c: Codec, fields: seq<Field<Value>>)
    requires forall tag :: Names(Keys(fields), tag) ==> tag.EscapeTag?
    ensures DecodeObject(c, fields) == Ok(Obj(fields))
  {
    hide Names, TagOf;
    if TagOf(Keys(fields)).Some? {
      TagOfExactly(Keys(fields), TagOf(Keys(fields)).value);
    }
  }

  // An escaped object is taken as it is, its fields decoded; anything else under $escape is an
  // error. Every other object is decoded field by field and then read as a tag.
  lemma ObjectsRead(c: Codec, fields: seq<Field<Json>>)
    ensures Names(Keys(fields), EscapeTag) ==>
              var inner := fields[0].value;
              var plain := if inner.JObj? then DecodeFields(c, inner.fields) else Err(BadTag("$escape"));
              Decode(c, JObj(fields)) == if plain.Ok? then Ok(Obj(plain.value)) else Err(plain.error)
    ensures !Names(Keys(fields), EscapeTag) ==>
              var plain := DecodeFields(c, fields);
              Decode(c, JObj(fields)) == if plain.Ok? then DecodeObject(c, plain.value) else Err(plain.error)
  {
    hide TagOf, DecodeObject, DecodeFields;
    TagOfExactly(Keys(fields), EscapeTag);
  }
}
