// Parse undoes Stringify, and exactly when.
module EjsonRoundTrip {
  import opened Results
  import opened Text
  import opened Fields
  import opened EjsonValue
  import opened EjsonCodec
  import opened EjsonReading
  import B = Base64

  // Every registered factory rebuilds the custom value it is named after.
  ghost predicate Rebuilding(c: Codec) {
    forall name, v: Value :: name in c.factories ==> c.factories[name](v) == Ok(Custom(name, v))
  }

  // A finite float survives when its spelling is not read as an integer and the
  // library reads it back.
  predicate ReadsAsFloat(c: Codec, r: real) {
    var text := c.formatFloat(r);
    (HasAny(text, ".eE") || ParseInt64(text).None?) && c.parseFloat(text) == Some(r)
  }

  predicate Faithful(c: Codec, v: Value)
    decreases v
  {
    match v
    case Flt(Finite(r)) => ReadsAsFloat(c, r)
    case Arr(items) => forall i :: 0 <= i < |items| ==> Faithful(c, items[i])
    case Obj(fields) => Distinct(Keys(fields)) && forall i :: 0 <= i < |fields| ==> Faithful(c, fields[i].value)
    case Regex(_, flags) => CleanFlags(flags)
    case Custom(name, inner) => name in c.factories && Faithful(c, inner)
    case _ => true
  }

  /* ---------- Flags ---------- */

  lemma {:induction false} KeepLastMembers(runes: string)
    ensures forall x :: x in KeepLast(runes) ==> x in runes && x in VALID_FLAGS
  {
    if runes != "" {
      KeepLastMembers(runes[1..]);
      assert runes == [runes[0]] + runes[1..];
    }
  }

  lemma {:induction false} KeepLastClean(runes: string)
    ensures CleanFlags(KeepLast(runes))
  {
    if runes != "" {
      KeepLastClean(runes[1..]);
      KeepLastMembers(runes[1..]);
      var rest := KeepLast(runes[1..]);
      if runes[0] in VALID_FLAGS && runes[0] !in runes[1..] {
        assert forall i :: 0 <= i < |rest| ==> rest[i] in rest && rest[i] != runes[0];
      }
    }
  }

  lemma {:induction false} KeepLastFixed(flags: string)
    requires CleanFlags(flags)
    ensures KeepLast(flags) == flags
  {
    if flags != "" {
      var rest := flags[1..];
      assert CleanFlags(rest) by {
        assert forall i :: 0 <= i < |rest| ==> rest[i] == flags[i + 1];
      }
      KeepLastFixed(rest);
      assert flags[0] !in rest;
      assert flags == [flags[0]] + rest;
    }
  }

  lemma {:induction false} DistinctBound(s: string, chars: set<char>)
    requires forall i :: 0 <= i < |s| ==> s[i] in chars
    requires forall i, j :: 0 <= i < j < |s| ==> s[i] != s[j]
    ensures |s| <= |chars|
  {
    if s != "" {
      assert forall i :: 0 <= i < |s[1..]| ==> s[1..][i] == s[i + 1];
      DistinctBound(s[1..], chars - {s[0]});
    }
  }

  // The flags that sanitizing leaves alone are the distinct valid ones.
  lemma SanitizeExact(flags: string)
    ensures SanitizeFlags(flags) == flags <==> CleanFlags(flags)
    ensures CleanFlags(SanitizeFlags(flags))
  {
    hide KeepLast;
    KeepLastClean(if |flags| > MAX_FLAGS then flags[..MAX_FLAGS] else flags);
    if CleanFlags(flags) {
      KeepLastFixed(flags);
      var valid := {'g', 'i', 'm', 'u', 'y'};
      assert forall x :: x in VALID_FLAGS <==> x in valid;
      DistinctBound(flags, valid);
    }
  }

  // Where a character occurs for the last time.
  ghost predicate LastAt(s: string, x: char, k: nat) {
    k < |s| && s[k] == x && x !in s[k + 1..]
  }

  // The characters stand in the order of their last occurrences in `s`.
  ghost predicate LastsRise(s: string, kept: string) {
    forall i, j, k: nat, l: nat ::
      0 <= i < j < |kept| && LastAt(s, kept[i], k) && LastAt(s, kept[j], l) ==> k < l
  }

  lemma LastLater(s: string, x: char, k: nat)
    requires s != "" && LastAt(s, x, k) && x in s[1..]
    ensures k > 0 && LastAt(s[1..], x, k - 1)
  {
    assert k > 0 ==> s[k + 1..] == s[1..][k..];
  }

  lemma {:induction false} KeepLastExactly(runes: string)
    ensures forall x :: x in KeepLast(runes) <==> x in runes && x in VALID_FLAGS
    ensures LastsRise(runes, KeepLast(runes))
  {
    if runes != "" {
      var rest, kept := runes[1..], KeepLast(runes);
      KeepLastExactly(rest);
      assert runes == [runes[0]] + rest;
      var shift := if |kept| == |KeepLast(rest)| then 0 else 1;
      forall i, j, k: nat, l: nat | 0 <= i < j < |kept| && LastAt(runes, kept[i], k) && LastAt(runes, kept[j], l)
        ensures k < l
      {
        assert kept[j] == KeepLast(rest)[j - shift] && kept[j] in rest;
        LastLater(runes, kept[j], l);
        if i >= shift {
          assert kept[i] == KeepLast(rest)[i - shift] && kept[i] in rest;
          LastLater(runes, kept[i], k);
          assert LastAt(rest, KeepLast(rest)[i - shift], k - 1) && LastAt(rest, KeepLast(rest)[j - shift], l - 1);
        } else {
          assert runes[k] == runes[0] && runes[0] !in rest;
        }
      }
    }
  }

  // Of the first fifty characters each valid flag is kept once, in the order of their last
  // occurrences.
  lemma SanitizeKeeps(flags: string)
    ensures var seen := if |flags| > 50 then flags[..50] else flags;
            var kept := SanitizeFlags(flags);
            && (forall x :: x in kept <==> x in seen && x in "gimuy")
            && (forall i, j :: 0 <= i < j < |kept| ==> kept[i] != kept[j])
            && LastsRise(seen, kept)
  {
    hide KeepLast;
    var seen := if |flags| > 50 then flags[..50] else flags;
    KeepLastExactly(seen);
    KeepLastClean(seen);
  }

  /* ---------- Tags survive ---------- */

  function Tagged(key: string, j: Json): Json {
    JObj([Field(key, j)])
  }

  lemma ResolveTagged(c: Codec, key: string, j: Json)
    ensures Resolve(c, j).Ok? ==> Resolve(c, Tagged(key, j)) == Ok(Tagged(key, Resolve(c, j).value))
    ensures Resolve(c, j).Err? ==> Resolve(c, Tagged(key, j)).Err?
  {
    var fields := [Field(key, j)];
    assert fields[1..] == [];
    if Resolve(c, j).Ok? {
      assert ResolveFields(c, fields, []) == ResolveFields(c, [], Put([], key, Resolve(c, j).value));
    }
  }

  lemma DecodeTagged(c: Codec, key: string, j: Json)
    requires TagOf([key]) != Some(EscapeTag)
    ensures Decode(c, j).Ok? ==> Decode(c, Tagged(key, j)) == DecodeObject(c, [Field(key, Decode(c, j).value)])
  {
    hide TagOf, DecodeObject;
    var fields := [Field(key, j)];
    assert Keys(fields) == [key];
    assert fields[1..] == [];
    assert DecodeFields(c, []) == Ok([]);
    if Decode(c, j).Ok? {
      assert [Field(key, Decode(c, j).value)] + [] == [Field(key, Decode(c, j).value)];
    }
  }

  lemma DecodeEscaped(c: Codec, fields: seq<Field<Json>>)
    ensures DecodeFields(c, fields).Ok?
            ==> Decode(c, Tagged("$escape", JObj(fields))) == Ok(Obj(DecodeFields(c, fields).value))
    ensures DecodeFields(c, fields).Err? ==> Decode(c, Tagged("$escape", JObj(fields))).Err?
  {
    hide TagOf, DecodeFields;
    var outer := [Field("$escape", JObj(fields))];
    assert Keys(outer) == ["$escape"];
    SingleTags();
  }

  lemma PairFields(a: Field<Json>, b: Field<Json>, canonical: bool)
    ensures Arrange([a, b], canonical) == [a, b] || Arrange([a, b], canonical) == [b, a]
  {
    assert [a, b][1..] == [b] && [b][1..] == [];
    assert Sort([b]) == [b];
    assert Sort([a, b]) == Insert(a, [b]);
    assert Insert(a, []) == [a];
  }

  lemma ResolvePair(c: Codec, a: Field<Json>, b: Field<Json>, k: Json)
    requires a.key != b.key && Resolve(c, a.value) == Ok(a.value)
    ensures Resolve(c, b.value) == Ok(k)
       ==> Resolve(c, JObj([a, b])) == Ok(JObj([a, Field(b.key, k)]))
           && Resolve(c, JObj([b, a])) == Ok(JObj([Field(b.key, k), a]))
    ensures Resolve(c, b.value).Err? ==> Resolve(c, JObj([a, b])).Err?
  {
    hide Resolve, TagOf;
    var ab, ba := [a, b], [b, a];
    assert Keys([] + ab) == [a.key, b.key] && Keys([] + ba) == [b.key, a.key];
    var r, s := [a, Field(b.key, k)], [Field(b.key, k), a];
    ResolveFieldsAt(c, ab, [], r);
    ResolveFieldsAt(c, ba, [], s);
    assert [] + r == r && [] + s == s;
    ResolveUnfold(c, ab);
    ResolveUnfold(c, ba);
  }

  lemma ResolveUnfold(c: Codec, fields: seq<Field<Json>>)
    ensures Resolve(c, JObj(fields))
            == match ResolveFields(c, fields, []) case Ok(fs) => Ok(JObj(fs)) case Err(e) => Err(e)
  {
  }

  lemma DecodePair(c: Codec, a: Field<Json>, b: Field<Json>, v: Value, w: Value)
    requires TagOf([a.key, b.key]) != Some(EscapeTag)
    requires Decode(c, a.value) == Ok(v) && Decode(c, b.value) == Ok(w)
    ensures Decode(c, JObj([a, b])) == DecodeObject(c, [Field(a.key, v), Field(b.key, w)])
  {
    hide TagOf, DecodeObject;
    var fields := [a, b];
    assert Keys(fields) == [a.key, b.key];
    DecodeFieldsAt(c, fields, [Field(a.key, v), Field(b.key, w)]);
  }

  lemma DecodeRegexpPair(c: Codec, source: string, flags: string)
    ensures DecodeObject(c, [Field("$regexp", Str(source)), Field("$flags", Str(flags))])
            == Ok(Regex(source, SanitizeFlags(flags)))
    ensures DecodeObject(c, [Field("$flags", Str(flags)), Field("$regexp", Str(source))])
            == Ok(Regex(source, SanitizeFlags(flags)))
  {
    hide TagOf, SanitizeFlags;
    PairTags();
    var r: Field<Value>, f: Field<Value> := Field("$regexp", Str(source)), Field("$flags", Str(flags));
    assert Keys([r, f]) == ["$regexp", "$flags"] && Keys([f, r]) == ["$flags", "$regexp"];
    assert [r, f][1..] == [f] && [f, r][1..] == [r];
    assert Lookup<Value>([f], "$flags") == Some(Str(flags)) && Lookup<Value>([r], "$regexp") == Some(Str(source));
    assert Lookup<Value>([r, f], "$flags") == Some(Str(flags)) && Lookup<Value>([r, f], "$regexp") == Some(Str(source));
    assert Lookup<Value>([f, r], "$flags") == Some(Str(flags)) && Lookup<Value>([f, r], "$regexp") == Some(Str(source));
  }

  lemma DecodeTypePair(c: Codec, name: string, v: Value)
    ensures var decoded := if name in c.factories then c.factories[name](v) else Err(UnknownType(name));
            && DecodeObject(c, [Field("$type", Str(name)), Field("$value", v)]) == decoded
            && DecodeObject(c, [Field("$value", v), Field("$type", Str(name))]) == decoded
  {
    hide TagOf;
    PairTags();
    var t: Field<Value>, x: Field<Value> := Field("$type", Str(name)), Field("$value", v);
    assert Keys([t, x]) == ["$type", "$value"] && Keys([x, t]) == ["$value", "$type"];
    assert [t, x][1..] == [x] && [x, t][1..] == [t];
    assert Lookup<Value>([x], "$value") == Some(v) && Lookup<Value>([t], "$type") == Some(Str(name));
    assert Lookup<Value>([t, x], "$value") == Some(v) && Lookup<Value>([t, x], "$type") == Some(Str(name));
    assert Lookup<Value>([x, t], "$value") == Some(v) && Lookup<Value>([x, t], "$type") == Some(Str(name));
  }

  // The scalar tags: each lowered form reads and decodes to what it came from.
  lemma ScalarTags(c: Codec, millis: int64, bytes: seq<B.byte>)
    ensures DecodeObject(c, [Field("$date", Int(millis))]) == Ok(Date(millis))
    ensures DecodeObject(c, [Field("$binary", Str(B.Encode(bytes)))]) == Ok(Binary(bytes))
    ensures DecodeObject(c, [Field("$InfNaN", Int(0))]) == Ok(Flt(NaN))
    ensures DecodeObject(c, [Field("$InfNaN", Int(1))]) == Ok(Flt(PosInf))
    ensures DecodeObject(c, [Field("$InfNaN", Int(-1))]) == Ok(Flt(NegInf))
  {
    hide TagOf, B.Encode, B.Decode;
    SingleTags();
    B.DecodeInvertsEncode(bytes);
    assert Keys<Value>([Field("$date", Int(millis))]) == ["$date"];
    assert Keys<Value>([Field("$binary", Str(B.Encode(bytes)))]) == ["$binary"];
    assert Keys<Value>([Field("$InfNaN", Int(0))]) == ["$InfNaN"];
    assert Keys<Value>([Field("$InfNaN", Int(1))]) == ["$InfNaN"];
    assert Keys<Value>([Field("$InfNaN", Int(-1))]) == ["$InfNaN"];
  }

  /* ---------- Canonical order ---------- */

  // The value with the fields of every object sorted by key.
  function Sorted(v: Value): Value {
    match v
    case Arr(items) => Arr(seq(|items|, i requires 0 <= i < |items| => Sorted(items[i])))
    case Obj(fields) =>
      Obj(Sort(seq(|fields|, i requires 0 <= i < |fields| => Field(fields[i].key, Sorted(fields[i].value)))))
    case Custom(name, inner) => Custom(name, Sorted(inner))
    case _ => v
  }

  function Norm(v: Value, canonical: bool): Value {
    if canonical then Sorted(v) else v
  }

  function NormFields(fields: seq<Field<Value>>, canonical: bool): (r: seq<Field<Value>>)
    ensures |r| == |fields|
  {
    seq(|fields|, i requires 0 <= i < |fields| => Field(fields[i].key, Norm(fields[i].value, canonical)))
  }

  lemma ArrangedLower(fields: seq<Field<Value>>, canonical: bool)
    ensures Arrange(LowerFields(fields, canonical), canonical) == LowerFields(Arrange(fields, canonical), canonical)
  {
    var h := (v: Value) => Lower(v, canonical);
    assert LowerFields(fields, canonical) == MapFields(fields, h);
    SortMap(fields, h);
    assert LowerFields(Sort(fields), canonical) == MapFields(Sort(fields), h);
  }

  lemma ArrangedNorm(fields: seq<Field<Value>>, canonical: bool)
    ensures Norm(Obj(fields), canonical) == Obj(NormFields(Arrange(fields, canonical), canonical))
  {
    if canonical {
      var h := (v: Value) => Sorted(v);
      SortMap(fields, h);
      assert seq(|fields|, i requires 0 <= i < |fields| => Field(fields[i].key, Sorted(fields[i].value)))
             == MapFields(fields, h);
      assert NormFields(Sort(fields), true) == MapFields(Sort(fields), h);
    } else {
      assert NormFields(fields, false) == fields;
    }
  }

  lemma ArrangedMembers(fields: seq<Field<Value>>, canonical: bool)
    ensures |Arrange(fields, canonical)| == |fields|
    ensures forall f :: f in Arrange(fields, canonical) <==> f in fields
    ensures Distinct(Keys(fields)) ==> Distinct(Keys(Arrange(fields, canonical)))
    ensures TagOf(Keys(Arrange(fields, canonical))) == TagOf(Keys(fields))
  {
    hide TagOf;
    if canonical {
      SortMembers(fields);
      if Distinct(Keys(fields)) {
        SortAscending(fields);
        AscendingDistinct(Sort(fields));
      }
      SameKeys(fields, Sort(fields));
      TagOfPermuted(Keys(Sort(fields)), Keys(fields));
    }
  }

  lemma SameKeys(a: seq<Field<Value>>, b: seq<Field<Value>>)
    requires forall f :: f in a <==> f in b
    ensures forall k :: k in Keys(a) <==> k in Keys(b)
  {
    forall k
      ensures k in Keys(a) <==> k in Keys(b)
    {
      if k in Keys(a) {
        var i :| 0 <= i < |a| && a[i].key == k;
        assert a[i] in b;
        var j :| 0 <= j < |b| && b[j] == a[i];
        assert Keys(b)[j] == k;
      }
      if k in Keys(b) {
        var i :| 0 <= i < |b| && b[i].key == k;
        assert b[i] in a;
        var j :| 0 <= j < |a| && a[j] == b[i];
        assert Keys(a)[j] == k;
      }
    }
  }

  /* ---------- Faithful values come back ---------- */

  // A lowered value is read back unchanged and decodes to the value.
  ghost predicate Comes(c: Codec, j: Json, v: Value) {
    Resolve(c, j) == Ok(j) && Decode(c, j) == Ok(v)
  }

  lemma {:induction false} ComesBack(c: Codec, v: Value, canonical: bool)
    requires Rebuilding(c) && Faithful(c, v)
    ensures Comes(c, Lower(v, canonical), Norm(v, canonical))
    decreases v
  {
    hide TagOf, DecodeObject, ReadNumber, B.Encode, SanitizeFlags, Arrange;
    SingleTags();
    match v
    case Flt(f) =>
      if f.Finite? {
        FloatComes(c, f.r);
      } else {
        ScalarTags(c, 0, []);
        ScalarComes(c, "$InfNaN", if f.NaN? then 0 else if f.PosInf? then 1 else -1);
      }
    case Date(millis) =>
      ScalarTags(c, millis, []);
      ScalarComes(c, "$date", millis);
    case Binary(bytes) =>
      ScalarTags(c, 0, bytes);
      ResolveTagged(c, "$binary", JStr(B.Encode(bytes)));
      DecodeTagged(c, "$binary", JStr(B.Encode(bytes)));
    case Regex(source, flags) =>
      RegexComes(c, source, flags, canonical);
    case Custom(name, inner) =>
      ComesBack(c, inner, canonical);
      CustomComes(c, name, inner, canonical);
    case Arr(items) =>
      forall i | 0 <= i < |items|
        ensures Comes(c, Lower(items[i], canonical), Norm(items[i], canonical))
      {
        ComesBack(c, items[i], canonical);
      }
      ArrComes(c, items, canonical);
    case Obj(fields) =>
      forall i | 0 <= i < |fields|
        ensures Comes(c, Lower(fields[i].value, canonical), Norm(fields[i].value, canonical))
      {
        ComesBack(c, fields[i].value, canonical);
      }
      ObjComes(c, fields, canonical);
    case _ =>
  }

  lemma FloatComes(c: Codec, r: real)
    requires ReadsAsFloat(c, r)
    ensures Comes(c, JFloat(r), Flt(Finite(r)))
  {
    hide HasAny, ParseInt64;
  }

  lemma ScalarComes(c: Codec, key: string, n: int64)
    requires TagOf([key]) != Some(EscapeTag)
    ensures Resolve(c, Tagged(key, JInt(n))) == Ok(Tagged(key, JInt(n)))
    ensures Decode(c, Tagged(key, JInt(n))) == DecodeObject(c, [Field(key, Int(n))])
  {
    hide TagOf, DecodeObject;
    ResolveTagged(c, key, JInt(n));
    DecodeTagged(c, key, JInt(n));
  }

  lemma RegexComes(c: Codec, source: string, flags: string, canonical: bool)
    requires CleanFlags(flags)
    ensures Comes(c, Lower(Regex(source, flags), canonical), Regex(source, flags))
  {
    hide TagOf, DecodeObject, SanitizeFlags, Arrange;
    var r: Field<Json>, f: Field<Json> := Field("$regexp", JStr(source)), Field("$flags", JStr(flags));
    PairFields(r, f, canonical);
    ResolvePair(c, r, f, f.value);
    PairTags();
    DecodePair(c, r, f, Str(source), Str(flags));
    DecodePair(c, f, r, Str(flags), Str(source));
    DecodeRegexpPair(c, source, flags);
    SanitizeExact(flags);
  }

  lemma CustomComes(c: Codec, name: string, inner: Value, canonical: bool)
    requires Rebuilding(c) && name in c.factories
    requires Comes(c, Lower(inner, canonical), Norm(inner, canonical))
    ensures Comes(c, Lower(Custom(name, inner), canonical), Norm(Custom(name, inner), canonical))
  {
    hide TagOf, DecodeObject, Arrange;
    var t: Field<Json>, x: Field<Json> := Field("$type", JStr(name)), Field("$value", Lower(inner, canonical));
    PairFields(t, x, canonical);
    ResolvePair(c, t, x, x.value);
    PairTags();
    DecodePair(c, t, x, Str(name), Norm(inner, canonical));
    DecodePair(c, x, t, Norm(inner, canonical), Str(name));
    DecodeTypePair(c, name, Norm(inner, canonical));
    assert c.factories[name](Norm(inner, canonical)) == Ok(Custom(name, Norm(inner, canonical)));
  }

  lemma ArrComes(c: Codec, items: seq<Value>, canonical: bool)
    requires forall i :: 0 <= i < |items| ==> Comes(c, Lower(items[i], canonical), Norm(items[i], canonical))
    ensures Comes(c, Lower(Arr(items), canonical), Norm(Arr(items), canonical))
  {
    var js := Lower(Arr(items), canonical).items;
    var vs := Norm(Arr(items), canonical).items;
    assert forall i :: 0 <= i < |items| ==> js[i] == Lower(items[i], canonical) && vs[i] == Norm(items[i], canonical);
    ResolveItemsAt(c, js, js);
    DecodeItemsAt(c, js, vs);
  }

  lemma ObjComes(c: Codec, fields: seq<Field<Value>>, canonical: bool)
    requires Distinct(Keys(fields))
    requires forall i :: 0 <= i < |fields|
                         ==> Comes(c, Lower(fields[i].value, canonical), Norm(fields[i].value, canonical))
    ensures Comes(c, Lower(Obj(fields), canonical), Norm(Obj(fields), canonical))
  {
    hide TagOf, Arrange, Resolve, Decode;
    var s := Arrange(fields, canonical);
    var plain, back := LowerFields(s, canonical), NormFields(s, canonical);
    ArrangedLower(fields, canonical);
    ArrangedNorm(fields, canonical);
    ArrangedMembers(fields, canonical);
    assert Keys([] + plain) == Keys(s) && Keys(back) == Keys(s) && Keys(plain) == Keys(s);
    forall i | 0 <= i < |s|
      ensures Comes(c, plain[i].value, back[i].value)
    {
      assert s[i] in fields;
    }
    ResolveFieldsAt(c, plain, [], plain);
    assert [] + plain == plain;
    DecodeFieldsAt(c, plain, back);
    ResolveUnfold(c, plain);
    if TagOf(Keys(fields)).Some? {
      ResolveTagged(c, "$escape", JObj(plain));
      DecodeEscaped(c, plain);
    } else {
      DecodeUntagged(c, plain);
    }
  }

  lemma DecodeUntagged(c: Codec, fields: seq<Field<Json>>)
    requires TagOf(Keys(fields)).None?
    ensures DecodeFields(c, fields).Ok? ==> Decode(c, JObj(fields)) == Ok(Obj(DecodeFields(c, fields).value))
    ensures DecodeFields(c, fields).Err? ==> Decode(c, JObj(fields)).Err?
  {
    hide TagOf, DecodeFields;
    if DecodeFields(c, fields).Ok? {
      var fs := DecodeFields(c, fields).value;
      DecodeFieldsAt(c, fields, fs);
      assert Keys(fs) == Keys(fields);
    }
  }
}
