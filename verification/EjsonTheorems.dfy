// The laws of the EJSON codec: the exact round trip, canonical text and cache keys.
module EjsonTheorems {
  import opened Results
  import opened Text
  import opened Fields
  import opened EjsonValue
  import opened EjsonCodec
  import opened EjsonReading
  import opened EjsonRoundTrip

  /* ---------- Only faithful values come back ---------- */

  // Read trees have distinct keys in every object.
  predicate WellKeyed(j: Json) {
    match j
    case JArr(items) => forall i :: 0 <= i < |items| ==> WellKeyed(items[i])
    case JObj(fields) => Distinct(Keys(fields)) && forall i :: 0 <= i < |fields| ==> WellKeyed(fields[i].value)
    case _ => true
  }

  predicate WellKeyedFields(fields: seq<Field<Json>>) {
    Distinct(Keys(fields)) && forall i :: 0 <= i < |fields| ==> WellKeyed(fields[i].value)
  }

  lemma {:induction false} ResolveWellKeyed(c: Codec, j: Json)
    ensures Resolve(c, j).Ok? ==> WellKeyed(Resolve(c, j).value)
    decreases j
  {
    hide ReadNumber;
    match j
    case JFloat(r) => NumbersWellKeyed(c, c.formatFloat(r));
    case JArr(items) =>
      if ResolveItems(c, items).Ok? {
        var js := ResolveItems(c, items).value;
        ResolveItemsAt(c, items, js);
        forall i | 0 <= i < |js|
          ensures WellKeyed(js[i])
        {
          ResolveWellKeyed(c, items[i]);
        }
      }
    case JObj(fields) => ResolveFieldsWellKeyed(c, fields, []);
    case _ =>
  }

  lemma NumbersWellKeyed(c: Codec, text: string)
    ensures ReadNumber(c, text).Ok? ==> WellKeyed(ReadNumber(c, text).value)
  {
  }

  lemma {:induction false} ResolveFieldsWellKeyed(c: Codec, fields: seq<Field<Json>>, acc: seq<Field<Json>>)
    requires WellKeyedFields(acc)
    ensures ResolveFields(c, fields, acc).Ok? ==> WellKeyedFields(ResolveFields(c, fields, acc).value)
    decreases fields
  {
    hide Resolve;
    if fields != [] && Resolve(c, fields[0].value).Ok? {
      var j := Resolve(c, fields[0].value).value;
      ResolveWellKeyed(c, fields[0].value);
      PutWellKeyed(acc, fields[0].key, j);
      ResolveFieldsWellKeyed(c, fields[1..], Put(acc, fields[0].key, j));
    }
  }

  lemma {:induction false} PutValues(fields: seq<Field<Json>>, key: string, j: Json)
    ensures forall f :: f in Put(fields, key, j) ==> f in fields || f.value == j
  {
    if fields != [] && fields[0].key != key {
      PutValues(fields[1..], key, j);
    }
  }

  lemma PutWellKeyed(fields: seq<Field<Json>>, key: string, j: Json)
    requires WellKeyedFields(fields) && WellKeyed(j)
    ensures WellKeyedFields(Put(fields, key, j))
  {
    hide Put, WellKeyed;
    PutKeys(fields, key, j);
    PutValues(fields, key, j);
    var put := Put(fields, key, j);
    forall i | 0 <= i < |put|
      ensures WellKeyed(put[i].value)
    {
      assert put[i] in put;
    }
    assert Distinct(Keys(fields) + [key]) <== key !in Keys(fields);
  }

  // A decoded object never repeats a key.
  lemma DecodedDistinct(c: Codec, j: Json, fields: seq<Field<Value>>)
    requires Rebuilding(c) && WellKeyed(j) && Decode(c, j) == Ok(Obj(fields))
    ensures Distinct(Keys(fields))
  {
    hide TagOf, DecodeFields, SanitizeFlags, DecodeBinary;
    match j
    case JObj(fs) =>
      if TagOf(Keys(fs)) == Some(EscapeTag) {
        var inner := fs[0].value.fields;
        assert WellKeyed(fs[0].value);
        DecodeFieldsAt(c, inner, fields);
        assert Keys(fields) == Keys(inner);
      } else {
        var decoded := DecodeFields(c, fs).value;
        DecodeFieldsAt(c, fs, decoded);
        assert Keys(decoded) == Keys(fs);
        TagsAreNoObjects(c, decoded, fields);
      }
    case _ =>
  }

  lemma TagsAreNoObjects(c: Codec, decoded: seq<Field<Value>>, fields: seq<Field<Value>>)
    requires Rebuilding(c) && DecodeObject(c, decoded) == Ok(Obj(fields))
    ensures decoded == fields
  {
    hide TagOf, SanitizeFlags;
  }

  // What printing and parsing make of a value.
  function Echo(c: Codec, v: Value): Outcome<Value> {
    match Resolve(c, Lower(v, false))
    case Ok(j) => Decode(c, j)
    case Err(e) => Err(e)
  }

  lemma {:induction false} OnlyFaithful(c: Codec, v: Value)
    requires Rebuilding(c) && Echo(c, v) == Ok(v)
    ensures Faithful(c, v)
    decreases v
  {
    hide TagOf, DecodeObject, ReadNumber, SanitizeFlags;
    match v
    case Flt(f) =>
      if f.Finite? {
        FloatEcho(c, f.r);
      }
    case Regex(source, flags) =>
      RegexEcho(c, source, flags);
    case Custom(name, inner) =>
      CustomEcho(c, name, inner);
      OnlyFaithful(c, inner);
    case Arr(items) =>
      ArrEcho(c, items);
      forall i | 0 <= i < |items|
        ensures Faithful(c, items[i])
      {
        OnlyFaithful(c, items[i]);
      }
    case Obj(fields) =>
      ObjEcho(c, fields);
      forall i | 0 <= i < |fields|
        ensures Faithful(c, fields[i].value)
      {
        OnlyFaithful(c, fields[i].value);
      }
    case _ =>
  }

  lemma FloatEcho(c: Codec, r: real)
    requires Echo(c, Flt(Finite(r))) == Ok(Flt(Finite(r)))
    ensures ReadsAsFloat(c, r)
  {
    hide HasAny, ParseInt64;
  }

  lemma RegexEcho(c: Codec, source: string, flags: string)
    requires Echo(c, Regex(source, flags)) == Ok(Regex(source, flags))
    ensures CleanFlags(flags)
  {
    hide TagOf, DecodeObject, SanitizeFlags;
    var r: Field<Json>, f: Field<Json> := Field("$regexp", JStr(source)), Field("$flags", JStr(flags));
    ResolvePair(c, r, f, f.value);
    PairTags();
    DecodePair(c, r, f, Str(source), Str(flags));
    DecodeRegexpPair(c, source, flags);
    SanitizeExact(flags);
  }

  lemma CustomEcho(c: Codec, name: string, inner: Value)
    requires Rebuilding(c) && Echo(c, Custom(name, inner)) == Ok(Custom(name, inner))
    ensures name in c.factories && Echo(c, inner) == Ok(inner)
  {
    hide TagOf, DecodeObject, Resolve, Lower;
    var low := Lower(inner, false);
    LowerCustom(name, inner);
    var t: Field<Json>, x: Field<Json> := Field("$type", JStr(name)), Field("$value", low);
    ResolveString(c, name);
    ResolvePair(c, t, x, if Resolve(c, low).Ok? then Resolve(c, low).value else JNull);
    var k := Resolve(c, low).value;
    PairTags();
    var kx := Field("$value", k);
    assert Keys([t, kx]) == ["$type", "$value"];
    var decoded := DecodeFields(c, [t, kx]);
    assert decoded.Ok?;
    DecodeFieldsAt(c, [t, kx], decoded.value);
    var w := Decode(c, k).value;
    DecodePair(c, t, kx, Str(name), w);
    DecodeTypePair(c, name, w);
  }

  lemma LowerCustom(name: string, inner: Value)
    ensures Lower(Custom(name, inner), false)
            == JObj([Field("$type", JStr(name)), Field("$value", Lower(inner, false))])
  {
  }

  lemma ResolveString(c: Codec, s: string)
    ensures Resolve(c, JStr(s)) == Ok(JStr(s))
  {
  }

  lemma ArrEcho(c: Codec, items: seq<Value>)
    requires Echo(c, Arr(items)) == Ok(Arr(items))
    ensures forall i :: 0 <= i < |items| ==> Echo(c, items[i]) == Ok(items[i])
  {
    var low := Lower(Arr(items), false).items;
    var js := ResolveItems(c, low).value;
    ResolveItemsAt(c, low, js);
    DecodeItemsAt(c, js, items);
    assert forall i :: 0 <= i < |items| ==> low[i] == Lower(items[i], false);
  }

  lemma ObjEcho(c: Codec, fields: seq<Field<Value>>)
    requires Rebuilding(c) && Echo(c, Obj(fields)) == Ok(Obj(fields))
    ensures Distinct(Keys(fields))
    ensures forall i :: 0 <= i < |fields| ==> Echo(c, fields[i].value) == Ok(fields[i].value)
  {
    hide TagOf, DecodeObject, Resolve, Decode;
    var low := LowerFields(fields, false);
    var whole := Lower(Obj(fields), false);
    var j := Resolve(c, whole).value;
    ResolveWellKeyed(c, whole);
    DecodedDistinct(c, j, fields);
    assert Keys([] + low) == Keys(fields) && Keys(low) == Keys(fields);
    ResolveUnfold(c, low);
    if TagOf(Keys(fields)).Some? {
      ResolveTagged(c, "$escape", JObj(low));
    }
    var js := ResolveFields(c, low, []).value;
    assert [] + js == js;
    ResolveFieldsAt(c, low, [], js);
    assert Keys(js) == Keys(fields);
    if TagOf(Keys(fields)).Some? {
      DecodeEscaped(c, js);
    } else {
      DecodeUntagged(c, js);
    }
    DecodeFieldsAt(c, js, fields);
  }

  /* ---------- The theorems ---------- */

  // Parsing the text of a value gives the value back exactly when the value is faithful.
  lemma ParseUndoesStringify(c: Codec, v: Value)
    requires Rebuilding(c)
    ensures Parse(c, Stringify(c, v, false)) == Ok(v) <==> Faithful(c, v)
  {
    hide Resolve, Decode, Lower, Print, Parse, Faithful;
    ParsePrint(c, Lower(v, false));
    if Faithful(c, v) {
      ComesBack(c, v, false);
    } else if Echo(c, v) == Ok(v) {
      OnlyFaithful(c, v);
    }
  }

  // A float whose spelling looks like an integer comes back as an integer.
  lemma IntegralFloatComesBackAsInt(c: Codec)
    requires c.formatFloat(1.0) == "1"
    ensures Parse(c, Stringify(c, Flt(Finite(1.0)), false)) == Ok(Int(1))
  {
    ParsePrint(c, JFloat(1.0));
    FormatIntPlain(1);
    ParseFormatInt(1);
    assert FormatInt(1) == "1";
  }

  lemma ParseCanonical(c: Codec, v: Value)
    requires Rebuilding(c) && Faithful(c, v)
    ensures Parse(c, Stringify(c, v, true)) == Ok(Sorted(v))
  {
    hide Resolve, Decode, Lower, Print, Parse, Faithful;
    ParsePrint(c, Lower(v, true));
    ComesBack(c, v, true);
  }

  // Equal up to the order of object fields, at every depth.
  ghost predicate SameUpToOrder(v: Value, w: Value)
    decreases v
  {
    match (v, w)
    case (Arr(a), Arr(b)) => |a| == |b| && forall i :: 0 <= i < |a| ==> SameUpToOrder(a[i], b[i])
    case (Obj(f), Obj(g)) =>
      && (forall k :: k in Keys(f) <==> k in Keys(g))
      && (forall i, j :: 0 <= i < |f| && 0 <= j < |g| && f[i].key == g[j].key ==> SameUpToOrder(f[i].value, g[j].value))
    case (Custom(n, a), Custom(m, b)) => n == m && SameUpToOrder(a, b)
    case _ => v == w
  }

  predicate DistinctThroughout(v: Value) {
    match v
    case Arr(items) => forall i :: 0 <= i < |items| ==> DistinctThroughout(items[i])
    case Obj(fields) => Distinct(Keys(fields)) && forall i :: 0 <= i < |fields| ==> DistinctThroughout(fields[i].value)
    case Custom(_, inner) => DistinctThroughout(inner)
    case _ => true
  }

  lemma {:induction false} FaithfulDistinct(c: Codec, v: Value)
    requires Faithful(c, v)
    ensures DistinctThroughout(v)
  {
    match v
    case Arr(items) =>
      forall i | 0 <= i < |items|
        ensures DistinctThroughout(items[i])
      {
        FaithfulDistinct(c, items[i]);
      }
    case Obj(fields) =>
      forall i | 0 <= i < |fields|
        ensures DistinctThroughout(fields[i].value)
      {
        FaithfulDistinct(c, fields[i].value);
      }
    case Custom(_, inner) => FaithfulDistinct(c, inner);
    case _ =>
  }

  lemma {:induction false} SortedExact(v: Value, w: Value)
    requires DistinctThroughout(v) && DistinctThroughout(w)
    ensures SameUpToOrder(v, w) <==> Sorted(v) == Sorted(w)
    decreases v
  {
    hide Sort;
    match (v, w)
    case (Arr(a), Arr(b)) =>
      var sa, sb := Sorted(v).items, Sorted(w).items;
      assert forall i :: 0 <= i < |a| ==> sa[i] == Sorted(a[i]);
      assert forall i :: 0 <= i < |b| ==> sb[i] == Sorted(b[i]);
      if |a| == |b| {
        forall i | 0 <= i < |a|
          ensures SameUpToOrder(a[i], b[i]) <==> sa[i] == sb[i]
        {
          SortedExact(a[i], b[i]);
        }
      }
    case (Obj(f), Obj(g)) =>
      forall i, j | 0 <= i < |f| && 0 <= j < |g|
        ensures SameUpToOrder(f[i].value, g[j].value) <==> Sorted(f[i].value) == Sorted(g[j].value)
      {
        SortedExact(f[i].value, g[j].value);
      }
      SortedObjects(f, g);
    case (Custom(_, a), Custom(_, b)) => SortedExact(a, b);
    case _ =>
  }

  // Two objects sort alike exactly when they hold the same fields.
  lemma SortedAlike(f: seq<Field<Value>>, g: seq<Field<Value>>)
    requires Distinct(Keys(f)) && Distinct(Keys(g))
    ensures Sort(f) == Sort(g) <==> forall x :: x in f <==> x in g
  {
    hide Sort;
    SortMembers(f);
    SortMembers(g);
    SortAscending(f);
    SortAscending(g);
    if forall x :: x in f <==> x in g {
      AscendingUnique(Sort(f), Sort(g));
    }
    if Sort(f) == Sort(g) {
      assert forall x :: x in f <==> x in Sort(f);
    }
  }

  lemma SortedObjects(f: seq<Field<Value>>, g: seq<Field<Value>>)
    requires Distinct(Keys(f)) && Distinct(Keys(g))
    requires forall i, j :: 0 <= i < |f| && 0 <= j < |g| ==>
               (SameUpToOrder(f[i].value, g[j].value) <==> Sorted(f[i].value) == Sorted(g[j].value))
    ensures SameUpToOrder(Obj(f), Obj(g)) <==> Sorted(Obj(f)) == Sorted(Obj(g))
  {
    hide Sort, Sorted;
    var nf, ng := NormFields(f, true), NormFields(g, true);
    assert Keys(nf) == Keys(f) && Keys(ng) == Keys(g);
    SortedFields(f);
    SortedFields(g);
    SortedAlike(nf, ng);
    if SameUpToOrder(Obj(f), Obj(g)) {
      MembersAgree(nf, ng);
    }
    if forall x :: x in nf <==> x in ng {
      AgreeMembers(nf, ng);
      forall i, j | 0 <= i < |f| && 0 <= j < |g| && f[i].key == g[j].key
        ensures SameUpToOrder(f[i].value, g[j].value)
      {
        assert nf[i].value == ng[j].value;
      }
    }
  }

  // Same keys and equal values under each key: the same fields.
  lemma MembersAgree(f: seq<Field<Value>>, g: seq<Field<Value>>)
    requires forall k :: k in Keys(f) <==> k in Keys(g)
    requires forall i, j :: 0 <= i < |f| && 0 <= j < |g| && f[i].key == g[j].key ==> f[i].value == g[j].value
    ensures forall x :: x in f <==> x in g
  {
    forall x
      ensures x in f ==> x in g
    {
      if x in f {
        var i :| 0 <= i < |f| && f[i] == x;
        assert Keys(f)[i] in Keys(g);
        var j :| 0 <= j < |g| && Keys(g)[j] == x.key;
        assert g[j] == x;
      }
    }
    forall x
      ensures x in g ==> x in f
    {
      if x in g {
        var j :| 0 <= j < |g| && g[j] == x;
        assert Keys(g)[j] in Keys(f);
        var i :| 0 <= i < |f| && Keys(f)[i] == x.key;
        assert f[i] == x;
      }
    }
  }

  lemma AgreeMembers(f: seq<Field<Value>>, g: seq<Field<Value>>)
    requires Distinct(Keys(f)) && Distinct(Keys(g)) && forall x :: x in f <==> x in g
    ensures forall k :: k in Keys(f) <==> k in Keys(g)
    ensures forall i, j :: 0 <= i < |f| && 0 <= j < |g| && f[i].key == g[j].key ==> f[i].value == g[j].value
  {
    SameKeys(f, g);
    forall i, j | 0 <= i < |f| && 0 <= j < |g| && f[i].key == g[j].key
      ensures f[i].value == g[j].value
    {
      assert f[i] in g;
      var k :| 0 <= k < |g| && g[k] == f[i];
      assert Keys(g)[k] == Keys(g)[j];
    }
  }

  lemma SortedFields(f: seq<Field<Value>>)
    ensures Sorted(Obj(f)) == Obj(Sort(NormFields(f, true)))
  {
    assert seq(|f|, i requires 0 <= i < |f| => Field(f[i].key, Sorted(f[i].value))) == NormFields(f, true);
  }

  lemma {:induction false} SortTwice<T(!new)>(fields: seq<Field<T>>)
    requires Distinct(Keys(fields))
    ensures Sort(Sort(fields)) == Sort(fields)
  {
    SortAscending(fields);
    AscendingDistinct(Sort(fields));
    SortAscending(Sort(fields));
    SortMembers(fields);
    SortMembers(Sort(fields));
    AscendingUnique(Sort(Sort(fields)), Sort(fields));
  }

  // Sorting first changes nothing in the canonical text.
  lemma {:induction false} LowerSorted(v: Value)
    requires DistinctThroughout(v)
    ensures Lower(Sorted(v), true) == Lower(v, true)
  {
    hide TagOf;
    match v
    case Arr(items) =>
      forall i | 0 <= i < |items|
        ensures Lower(Sorted(items[i]), true) == Lower(items[i], true)
      {
        LowerSorted(items[i]);
      }
      assert Lower(Sorted(v), true).items == Lower(v, true).items;
    case Obj(fields) =>
      forall i | 0 <= i < |fields|
        ensures Lower(Sorted(fields[i].value), true) == Lower(fields[i].value, true)
      {
        LowerSorted(fields[i].value);
      }
      LowerSortedObject(fields);
    case Custom(_, inner) => LowerSorted(inner);
    case _ =>
  }

  lemma LowerSortedObject(fields: seq<Field<Value>>)
    requires Distinct(Keys(fields))
    requires forall i :: 0 <= i < |fields| ==> Lower(Sorted(fields[i].value), true) == Lower(fields[i].value, true)
    ensures Lower(Sorted(Obj(fields)), true) == Lower(Obj(fields), true)
  {
    hide TagOf, Sort;
    var n := NormFields(fields, true);
    assert Keys(n) == Keys(fields);
    SortedFields(fields);
    ArrangedMembers(n, true);
    ArrangedLower(n, true);
    SortTwice(n);
    ArrangedLower(Sort(n), true);
    assert LowerFields(n, true) == LowerFields(fields, true);
  }

  // Canonical text is a complete invariant of a value up to field order.
  lemma CanonicalComplete(c: Codec, v: Value, w: Value)
    requires Rebuilding(c) && Faithful(c, v) && Faithful(c, w)
    ensures Stringify(c, v, true) == Stringify(c, w, true) <==> SameUpToOrder(v, w)
  {
    hide Faithful, Parse, Lower, Print, SameUpToOrder, Sorted, DistinctThroughout;
    FaithfulDistinct(c, v);
    FaithfulDistinct(c, w);
    SortedExact(v, w);
    ParseCanonical(c, v);
    ParseCanonical(c, w);
    LowerSorted(v);
    LowerSorted(w);
  }

  // The method cache's key determines the parameters.
  lemma KeysAreInjective(c: Codec, v: Value, w: Value)
    requires Rebuilding(c) && Faithful(c, v) && Faithful(c, w)
    requires Stringify(c, v, false) == Stringify(c, w, false)
    ensures v == w
  {
    hide Faithful, Parse, Stringify;
    ParseUndoesStringify(c, v);
    ParseUndoesStringify(c, w);
  }
}
