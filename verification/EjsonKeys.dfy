// When two values have the same text, which is when they share a method cache key.
module EjsonKeys {
  import opened Results
  import opened Text
  import opened Fields
  import opened EjsonValue
  import opened EjsonCodec
  import B = Base64

  /* ---------- Trees with the same text ---------- */

  predicate JNumber(j: Json) { j.JInt? || j.JFloat? }

  function JSpelling(c: Codec, j: Json): string
    requires JNumber(j)
  {
    if j.JInt? then FormatInt(j.n) else c.formatFloat(j.r)
  }

  // Equal, but for numbers that are spelled alike.
  predicate JAlike(c: Codec, j: Json, k: Json)
    decreases j
  {
    if JNumber(j) && JNumber(k) then JSpelling(c, j) == JSpelling(c, k)
    else
      match (j, k)
      case (JArr(a), JArr(b)) => |a| == |b| && forall i :: 0 <= i < |a| ==> JAlike(c, a[i], b[i])
      case (JObj(f), JObj(g)) =>
        |f| == |g| && forall i :: 0 <= i < |f| ==> f[i].key == g[i].key && JAlike(c, f[i].value, g[i].value)
      case _ => j == k
  }

  lemma Regroup<T>(a: seq<T>, b: seq<T>, rest: seq<T>)
    ensures a + b + rest == a + (b + rest)
  {
  }

  lemma DropFirst<T>(x: T, a: seq<T>, y: T, b: seq<T>)
    requires [x] + a == [y] + b
    ensures x == y && a == b
  {
    assert ([x] + a)[0] == ([y] + b)[0];
    assert a == ([x] + a)[1..] && b == ([y] + b)[1..];
  }

  // No printed tree is a proper beginning of another.
  lemma {:induction false} PrintUnique(c: Codec, j: Json, k: Json, rest: seq<Token>, rest': seq<Token>)
    requires Print(c, j) + rest == Print(c, k) + rest'
    ensures JAlike(c, j, k) && rest == rest'
    decreases j, 0
  {
    hide FormatInt;
    var s, s' := Print(c, j) + rest, Print(c, k) + rest';
    assert s[0] == Print(c, j)[0] && s'[0] == Print(c, k)[0];
    match j
    case JArr(a) =>
      assert k.JArr?;
      Regroup([OpenArray] + PrintItems(c, a), [CloseArray], rest);
      Regroup([OpenArray] + PrintItems(c, k.items), [CloseArray], rest');
      Regroup([OpenArray], PrintItems(c, a), [CloseArray] + rest);
      Regroup([OpenArray], PrintItems(c, k.items), [CloseArray] + rest');
      DropFirst(OpenArray, PrintItems(c, a) + ([CloseArray] + rest),
                OpenArray, PrintItems(c, k.items) + ([CloseArray] + rest'));
      ItemsUnique(c, a, k.items, rest, rest');
    case JObj(f) =>
      assert k.JObj?;
      Regroup([OpenObject] + PrintFields(c, f), [CloseObject], rest);
      Regroup([OpenObject] + PrintFields(c, k.fields), [CloseObject], rest');
      Regroup([OpenObject], PrintFields(c, f), [CloseObject] + rest);
      Regroup([OpenObject], PrintFields(c, k.fields), [CloseObject] + rest');
      DropFirst(OpenObject, PrintFields(c, f) + ([CloseObject] + rest),
                OpenObject, PrintFields(c, k.fields) + ([CloseObject] + rest'));
      FieldsUnique(c, f, k.fields, rest, rest');
    case _ =>
      assert |Print(c, j)| == 1 && |Print(c, k)| == 1;
      DropFirst(Print(c, j)[0], rest, Print(c, k)[0], rest');
  }

  lemma {:induction false} ItemsUnique(c: Codec, a: seq<Json>, b: seq<Json>, rest: seq<Token>, rest': seq<Token>)
    requires PrintItems(c, a) + ([CloseArray] + rest) == PrintItems(c, b) + ([CloseArray] + rest')
    ensures |a| == |b| && (forall i :: 0 <= i < |a| ==> JAlike(c, a[i], b[i])) && rest == rest'
    decreases a, 1
  {
    hide Print, JAlike;
    ItemsHead(c, a, rest);
    ItemsHead(c, b, rest');
    if a == [] || b == [] {
      assert a == [] && b == [];
      DropFirst(CloseArray, rest, CloseArray, rest');
    } else {
      PrintUnique(c, a[0], b[0],
                  PrintItems(c, a[1..]) + ([CloseArray] + rest), PrintItems(c, b[1..]) + ([CloseArray] + rest'));
      ItemsUnique(c, a[1..], b[1..], rest, rest');
    }
  }

  // What a list of items looks like from the front.
  lemma ItemsHead(c: Codec, a: seq<Json>, rest: seq<Token>)
    ensures a == [] ==> PrintItems(c, a) + ([CloseArray] + rest) == [CloseArray] + rest
    ensures a != [] ==>
              && PrintItems(c, a) + ([CloseArray] + rest)
                 == Print(c, a[0]) + (PrintItems(c, a[1..]) + ([CloseArray] + rest))
              && (PrintItems(c, a) + ([CloseArray] + rest))[0] != CloseArray
  {
    hide Print;
    if a != [] {
      Regroup(Print(c, a[0]), PrintItems(c, a[1..]), [CloseArray] + rest);
    }
  }

  lemma {:induction false} FieldsUnique(c: Codec, f: seq<Field<Json>>, g: seq<Field<Json>>, rest: seq<Token>,
                                        rest': seq<Token>)
    requires PrintFields(c, f) + ([CloseObject] + rest) == PrintFields(c, g) + ([CloseObject] + rest')
    ensures |f| == |g| && (forall i :: 0 <= i < |f| ==> f[i].key == g[i].key && JAlike(c, f[i].value, g[i].value))
            && rest == rest'
    decreases f, 1
  {
    hide Print, JAlike;
    FieldsHead(c, f, rest);
    FieldsHead(c, g, rest');
    if f == [] || g == [] {
      assert f == [] && g == [];
      DropFirst(CloseObject, rest, CloseObject, rest');
    } else {
      var after := PrintFields(c, f[1..]) + ([CloseObject] + rest);
      var after' := PrintFields(c, g[1..]) + ([CloseObject] + rest');
      DropFirst(StringToken(f[0].key), Print(c, f[0].value) + after,
                StringToken(g[0].key), Print(c, g[0].value) + after');
      PrintUnique(c, f[0].value, g[0].value, after, after');
      FieldsUnique(c, f[1..], g[1..], rest, rest');
    }
  }

  lemma FieldsHead(c: Codec, f: seq<Field<Json>>, rest: seq<Token>)
    ensures f == [] ==> PrintFields(c, f) + ([CloseObject] + rest) == [CloseObject] + rest
    ensures f != [] ==>
              && PrintFields(c, f) + ([CloseObject] + rest)
                 == [StringToken(f[0].key)] + (Print(c, f[0].value) + (PrintFields(c, f[1..]) + ([CloseObject] + rest)))
              && (PrintFields(c, f) + ([CloseObject] + rest))[0] != CloseObject
  {
    hide Print;
    if f != [] {
      Regroup([StringToken(f[0].key)] + Print(c, f[0].value), PrintFields(c, f[1..]), [CloseObject] + rest);
      Regroup([StringToken(f[0].key)], Print(c, f[0].value), PrintFields(c, f[1..]) + ([CloseObject] + rest));
    }
  }

  lemma {:induction false} AlikePrint(c: Codec, j: Json, k: Json)
    requires JAlike(c, j, k)
    ensures Print(c, j) == Print(c, k)
    decreases j, 0
  {
    hide FormatInt;
    match j
    case JArr(a) => ItemsAlikePrint(c, a, k.items);
    case JObj(f) => FieldsAlikePrint(c, f, k.fields);
    case _ =>
  }

  lemma {:induction false} ItemsAlikePrint(c: Codec, a: seq<Json>, b: seq<Json>)
    requires |a| == |b| && forall i :: 0 <= i < |a| ==> JAlike(c, a[i], b[i])
    ensures PrintItems(c, a) == PrintItems(c, b)
    decreases a, 1
  {
    hide Print, JAlike;
    if a != [] {
      AlikePrint(c, a[0], b[0]);
      ItemsAlikePrint(c, a[1..], b[1..]);
    }
  }

  lemma {:induction false} FieldsAlikePrint(c: Codec, f: seq<Field<Json>>, g: seq<Field<Json>>)
    requires |f| == |g| && forall i :: 0 <= i < |f| ==> f[i].key == g[i].key && JAlike(c, f[i].value, g[i].value)
    ensures PrintFields(c, f) == PrintFields(c, g)
    decreases f, 1
  {
    hide Print, JAlike;
    if f != [] {
      AlikePrint(c, f[0].value, g[0].value);
      FieldsAlikePrint(c, f[1..], g[1..]);
    }
  }

  /* ---------- Values with the same text ---------- */

  predicate Number(v: Value) { v.Int? || (v.Flt? && v.f.Finite?) }

  function Spelling(c: Codec, v: Value): string
    requires Number(v)
  {
    if v.Int? then FormatInt(v.n) else c.formatFloat(v.f.r)
  }

  // Equal at every depth, but for numbers that are spelled alike.
  predicate Alike(c: Codec, v: Value, w: Value)
    decreases v
  {
    if Number(v) && Number(w) then Spelling(c, v) == Spelling(c, w)
    else
      match (v, w)
      case (Arr(a), Arr(b)) => |a| == |b| && forall i :: 0 <= i < |a| ==> Alike(c, a[i], b[i])
      case (Obj(f), Obj(g)) =>
        |f| == |g| && forall i :: 0 <= i < |f| ==> f[i].key == g[i].key && Alike(c, f[i].value, g[i].value)
      case (Custom(n, a), Custom(m, b)) => n == m && Alike(c, a, b)
      case _ => v == w
  }

  // Which tag, if any, an object in the text spells.
  function Kind(j: Json): Option<Tag> { if j.JObj? then TagOf(Keys(j.fields)) else None }

  lemma AlikeKind(c: Codec, j: Json, k: Json)
    requires JAlike(c, j, k)
    ensures j.JObj? == k.JObj? && Kind(j) == Kind(k)
  {
    hide TagOf;
    if j.JObj? && k.JObj? {
      assert Keys(j.fields) == Keys(k.fields);
    }
  }

  lemma LowerKind(v: Value)
    ensures Kind(Lower(v, false))
         == match v
            case Flt(Finite(_)) => None
            case Flt(_) => Some(InfNaNTag)
            case Date(_) => Some(DateTag)
            case Binary(_) => Some(BinaryTag)
            case Regex(_, _) => Some(RegexpTag)
            case Custom(_, _) => Some(TypeTag)
            case Obj(fields) => if TagOf(Keys(fields)).Some? then Some(EscapeTag) else None
            case _ => None
    ensures Lower(v, false).JObj?
            <==> v.Obj? || v.Date? || v.Binary? || v.Regex? || v.Custom? || (v.Flt? && !v.f.Finite?)
  {
    SingleTags();
    PairTags();
    hide TagOf;
    var j := Lower(v, false);
    match v
    case Flt(_) => assert j.JObj? ==> Keys(j.fields) == ["$InfNaN"];
    case Date(_) => assert Keys(j.fields) == ["$date"];
    case Binary(_) => assert Keys(j.fields) == ["$binary"];
    case Regex(_, _) => assert Keys(j.fields) == ["$regexp", "$flags"];
    case Custom(_, _) => assert Keys(j.fields) == ["$type", "$value"];
    case Obj(fields) =>
      assert Keys(LowerFields(fields, false)) == Keys(fields);
      assert TagOf(Keys(fields)).Some? ==> Keys(j.fields) == ["$escape"];
    case _ =>
  }

  lemma SingleAlike(c: Codec, key: string, j: Json, k: Json)
    ensures JAlike(c, JObj([Field(key, j)]), JObj([Field(key, k)])) <==> JAlike(c, j, k)
  {
    var f, g := [Field(key, j)], [Field(key, k)];
    assert f[0].value == j && g[0].value == k;
  }

  lemma PairAlike(c: Codec, a: string, b: string, j: Json, j': Json, k: Json, k': Json)
    ensures JAlike(c, JObj([Field(a, j), Field(b, k)]), JObj([Field(a, j'), Field(b, k')]))
            <==> JAlike(c, j, j') && JAlike(c, k, k')
  {
    var f, g := [Field(a, j), Field(b, k)], [Field(a, j'), Field(b, k')];
    assert f[0].value == j && g[0].value == j' && f[1].value == k && g[1].value == k';
  }

  lemma IntegersAlike(c: Codec, n: int64, m: int64)
    ensures JAlike(c, JInt(n), JInt(m)) <==> n == m
  {
    ParseFormatInt(n);
    ParseFormatInt(m);
  }

  ghost predicate Decided(c: Codec, v: Value, w: Value) {
    JAlike(c, Lower(v, false), Lower(w, false)) <==> Alike(c, v, w)
  }

  lemma ArraysAlike(c: Codec, a: seq<Value>, b: seq<Value>)
    requires forall i :: 0 <= i < |a| && i < |b| ==> Decided(c, a[i], b[i])
    ensures Decided(c, Arr(a), Arr(b))
  {
    var j, k := Lower(Arr(a), false).items, Lower(Arr(b), false).items;
    assert forall i :: 0 <= i < |a| ==> j[i] == Lower(a[i], false);
    assert forall i :: 0 <= i < |b| ==> k[i] == Lower(b[i], false);
    hide Lower;
    if |a| == |b| {
      forall i | 0 <= i < |a|
        ensures JAlike(c, j[i], k[i]) <==> Alike(c, a[i], b[i])
      {
        assert Decided(c, a[i], b[i]);
      }
    }
  }

  lemma PlainAlike(c: Codec, f: seq<Field<Value>>, g: seq<Field<Value>>)
    requires forall i :: 0 <= i < |f| && i < |g| ==> Decided(c, f[i].value, g[i].value)
    ensures JAlike(c, JObj(LowerFields(f, false)), JObj(LowerFields(g, false))) <==> Alike(c, Obj(f), Obj(g))
  {
    hide Lower;
    var j, k := LowerFields(f, false), LowerFields(g, false);
    if |f| == |g| {
      forall i | 0 <= i < |f|
        ensures j[i].key == f[i].key && k[i].key == g[i].key
        ensures JAlike(c, j[i].value, k[i].value) <==> Alike(c, f[i].value, g[i].value)
      {
        assert Decided(c, f[i].value, g[i].value);
      }
    }
  }

  lemma ObjectsAlike(c: Codec, f: seq<Field<Value>>, g: seq<Field<Value>>)
    requires forall i :: 0 <= i < |f| && i < |g| ==> Decided(c, f[i].value, g[i].value)
    ensures Decided(c, Obj(f), Obj(g))
  {
    hide TagOf;
    PlainAlike(c, f, g);
    LowerKind(Obj(f));
    LowerKind(Obj(g));
    SingleAlike(c, "$escape", JObj(LowerFields(f, false)), JObj(LowerFields(g, false)));
    if JAlike(c, Lower(Obj(f), false), Lower(Obj(g), false)) {
      AlikeKind(c, Lower(Obj(f), false), Lower(Obj(g), false));
    }
    if Alike(c, Obj(f), Obj(g)) {
      assert Keys(f) == Keys(g);
    }
    hide JAlike, Alike, LowerFields;
  }

  // Two values written as the same tag around a scalar.
  predicate SameTag(v: Value, w: Value) {
    || (v.Flt? && w.Flt? && !v.f.Finite? && !w.f.Finite?)
    || (v.Date? && w.Date?) || (v.Binary? && w.Binary?) || (v.Regex? && w.Regex?)
  }

  lemma TaggedAlike(c: Codec, v: Value, w: Value)
    requires SameTag(v, w)
    ensures Decided(c, v, w)
  {
    hide B.Encode, B.Decode, FormatInt, ParseInt64;
    match (v, w)
    case (Flt(_), Flt(_)) =>
      var j, k := Lower(v, false).fields[0].value, Lower(w, false).fields[0].value;
      IntegersAlike(c, j.n, k.n);
      SingleAlike(c, "$InfNaN", j, k);
      hide JAlike;
    case (Date(n), Date(m)) =>
      IntegersAlike(c, n, m);
      SingleAlike(c, "$date", JInt(n), JInt(m));
      hide JAlike;
    case (Binary(a), Binary(b)) =>
      B.DecodeInvertsEncode(a);
      B.DecodeInvertsEncode(b);
      SingleAlike(c, "$binary", JStr(B.Encode(a)), JStr(B.Encode(b)));
      assert JAlike(c, JStr(B.Encode(a)), JStr(B.Encode(b))) <==> a == b;
      hide JAlike;
    case (Regex(x, f), Regex(y, g)) =>
      PairAlike(c, "$regexp", "$flags", JStr(x), JStr(y), JStr(f), JStr(g));
      assert JAlike(c, JStr(x), JStr(y)) <==> x == y;
      assert JAlike(c, JStr(f), JStr(g)) <==> f == g;
      hide JAlike;
  }

  lemma CustomsAlike(c: Codec, n: string, a: Value, m: string, b: Value)
    requires Decided(c, a, b)
    ensures Decided(c, Custom(n, a), Custom(m, b))
  {
    PairAlike(c, "$type", "$value", JStr(n), JStr(m), Lower(a, false), Lower(b, false));
    assert JAlike(c, JStr(n), JStr(m)) <==> n == m;
    assert Lower(Custom(n, a), false) == JObj([Field("$type", JStr(n)), Field("$value", Lower(a, false))]);
    assert Lower(Custom(m, b), false) == JObj([Field("$type", JStr(m)), Field("$value", Lower(b, false))]);
    hide JAlike, Lower;
  }

  lemma {:induction false} LowerAlike(c: Codec, v: Value, w: Value)
    ensures Decided(c, v, w)
    decreases v
  {
    if v.Arr? && w.Arr? {
      forall i | 0 <= i < |v.items| && i < |w.items|
        ensures Decided(c, v.items[i], w.items[i])
      {
        LowerAlike(c, v.items[i], w.items[i]);
      }
      ArraysAlike(c, v.items, w.items);
    } else if v.Obj? && w.Obj? {
      forall i | 0 <= i < |v.fields| && i < |w.fields|
        ensures Decided(c, v.fields[i].value, w.fields[i].value)
      {
        LowerAlike(c, v.fields[i].value, w.fields[i].value);
      }
      ObjectsAlike(c, v.fields, w.fields);
    } else if v.Custom? && w.Custom? {
      LowerAlike(c, v.inner, w.inner);
      CustomsAlike(c, v.name, v.inner, w.name, w.inner);
    } else if SameTag(v, w) {
      TaggedAlike(c, v, w);
    } else {
      MixedAlike(c, v, w);
    }
  }

  // Numbers, strings, booleans and null, and values of different kinds.
  lemma MixedAlike(c: Codec, v: Value, w: Value)
    requires !(v.Arr? && w.Arr?) && !(v.Obj? && w.Obj?) && !(v.Custom? && w.Custom?) && !SameTag(v, w)
    ensures Decided(c, v, w)
  {
    LowerKind(v);
    LowerKind(w);
    if JAlike(c, Lower(v, false), Lower(w, false)) {
      AlikeKind(c, Lower(v, false), Lower(w, false));
    }
    hide TagOf, B.Encode, FormatInt, Kind;
  }

  // Two values have the same text, and so the same cache key, if and only if they are equal but
  // for numbers that are spelled alike.
  lemma KeysCollideExactly(c: Codec, v: Value, w: Value)
    ensures Stringify(c, v, false) == Stringify(c, w, false) <==> Alike(c, v, w)
  {
    hide Print, Lower, JAlike, Alike;
    var j, k := Lower(v, false), Lower(w, false);
    LowerAlike(c, v, w);
    if Print(c, j) == Print(c, k) {
      PrintUnique(c, j, k, [], []);
    }
    if JAlike(c, j, k) {
      AlikePrint(c, j, k);
    }
  }
}
