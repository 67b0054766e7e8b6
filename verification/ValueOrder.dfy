// Equality and order of document values (typeferry-ts/src/minimongo/value-semantics.ts).
module ValueOrder {
  import opened Results
  import opened Text
  import opened Fields
  import E = EjsonValue
  import B = Base64

  datatype Value =
    | Undefined
    | Null
    | Num(n: E.Float)
    | Str(s: string)
    | Obj(fields: seq<Field<Value>>)
    | Arr(items: seq<Value>)
    | Bin(bytes: seq<B.byte>)
    | Bool(b: bool)
    | Date(millis: int)

  // Objects hold each key once, at every depth.
  ghost predicate Tidy(v: Value) {
    match v
    case Arr(items) => forall i :: 0 <= i < |items| ==> Tidy(items[i])
    case Obj(fields) => Distinct(Keys(fields)) && forall i :: 0 <= i < |fields| ==> Tidy(fields[i].value)
    case _ => true
  }

  ghost predicate NaNFree(v: Value) {
    match v
    case Num(n) => n != E.NaN
    case Arr(items) => forall i :: 0 <= i < |items| ==> NaNFree(items[i])
    case Obj(fields) => forall i :: 0 <= i < |fields| ==> NaNFree(fields[i].value)
    case _ => true
  }

  /* ---------- The operations ---------- */

  // equalValues.  Number.isNaN makes NaN equal to itself.
  predicate Equal(l: Value, r: Value, keyOrderSensitive: bool)
    decreases l
  {
    match (l, r)
    case (Arr(a), Arr(b)) => |a| == |b| && forall i :: 0 <= i < |a| ==> Equal(a[i], b[i], keyOrderSensitive)
    case (Obj(f), Obj(g)) =>
      && |f| == |g|
      && (keyOrderSensitive ==> Keys(f) == Keys(g))
      && (forall i :: 0 <= i < |f| ==>
            var found := Lookup(g, f[i].key);
            found.Some? && Equal(f[i].value, found.value, keyOrderSensitive))
    case _ => l == r
  }

  // TYPE_ORDER
  function Rank(v: Value): int {
    match v
    case Undefined => -1
    case Null => 0
    case Num(_) => 1
    case Str(_) => 2
    case Obj(_) => 3
    case Arr(_) => 4
    case Bin(_) => 5
    case Bool(_) => 7
    case Date(_) => 8
  }

  // `<` on numbers: false as soon as one side is NaN.
  predicate Below(a: E.Float, b: E.Float) {
    match (a, b)
    case (NaN, _) => false
    case (_, NaN) => false
    case (PosInf, _) => false
    case (_, NegInf) => false
    case (NegInf, _) => true
    case (_, PosInf) => true
    case (Finite(x), Finite(y)) => x < y
  }

  function Sign(below: bool): int { if below then -1 else 1 }

  // compareValues without a collator.
  function Compare(l: Value, r: Value): (c: int)
    ensures c == -1 || c == 0 || c == 1
    decreases l
  {
    if Equal(l, r, true) then 0
    else if Rank(l) != Rank(r) then Sign(Rank(l) < Rank(r))
    else
      match (l, r)
      case (Num(a), Num(b)) => Sign(Below(a, b))
      case (Str(a), Str(b)) => Sign(Less(a, b))
      case (Bool(a), Bool(b)) => Sign(!a)
      case (Date(a), Date(b)) => Sign(a < b)
      case (Arr(a), Arr(b)) => CompareItems(a, b)
      case (Bin(a), Bin(b)) => CompareBytes(a, b)
      case (Obj(f), Obj(g)) => CompareFields(f, g)
      case _ => 1
  }

  function CompareItems(a: seq<Value>, b: seq<Value>): (c: int)
    ensures c == -1 || c == 1
    decreases a
  {
    if a == [] || b == [] then Sign(|a| < |b|)
    else
      var c := Compare(a[0], b[0]);
      if c != 0 then c else CompareItems(a[1..], b[1..])
  }

  function CompareBytes(a: seq<B.byte>, b: seq<B.byte>): (c: int)
    ensures c == -1 || c == 1
  {
    if a == [] || b == [] then Sign(|a| < |b|)
    else if a[0] != b[0] then Sign(a[0] < b[0])
    else CompareBytes(a[1..], b[1..])
  }

  function CompareFields(f: seq<Field<Value>>, g: seq<Field<Value>>): (c: int)
    ensures c == -1 || c == 1
    decreases f
  {
    if f == [] || g == [] then Sign(|f| < |g|)
    else if f[0].key != g[0].key then Sign(Less(f[0].key, g[0].key))
    else
      var c := Compare(f[0].value, g[0].value);
      if c != 0 then c else CompareFields(f[1..], g[1..])
  }

  /* ---------- compareValues as written: index loops with an early return ---------- */

  method CompareValues(l: Value, r: Value) returns (c: int)
    ensures c == Compare(l, r)
    decreases l
  {
    if Equal(l, r, true) {
      return 0;
    }
    if Rank(l) != Rank(r) {
      return if Rank(l) - Rank(r) < 0 then -1 else 1;
    }
    match (l, r)
    case (Num(a), Num(b)) => return if Below(a, b) then -1 else 1;
    case (Str(a), Str(b)) => return if Less(a, b) then -1 else 1;
    case (Bool(a), Bool(_)) => return if a then 1 else -1;
    case (Date(a), Date(b)) => return if a < b then -1 else 1;
    case (Arr(a), Arr(b)) =>
      for index := 0 to if |a| < |b| then |a| else |b|
        invariant CompareItems(a, b) == CompareItems(a[index..], b[index..])
      {
        var result := CompareValues(a[index], b[index]);
        if result != 0 {
          return result;
        }
        assert a[index..][1..] == a[index + 1..] && b[index..][1..] == b[index + 1..];
      }
      return if |a| < |b| then -1 else 1;
    case (Bin(a), Bin(b)) =>
      for index := 0 to if |a| < |b| then |a| else |b|
        invariant CompareBytes(a, b) == CompareBytes(a[index..], b[index..])
      {
        var difference: int := a[index] as int - b[index] as int;
        if difference != 0 {
          return if difference < 0 then -1 else 1;
        }
        assert a[index..][1..] == a[index + 1..] && b[index..][1..] == b[index + 1..];
      }
      return if |a| < |b| then -1 else 1;
    case (Obj(f), Obj(g)) =>
      for index := 0 to if |f| < |g| then |f| else |g|
        invariant CompareFields(f, g) == CompareFields(f[index..], g[index..])
      {
        if f[index].key != g[index].key {
          return if Less(f[index].key, g[index].key) then -1 else 1;
        }
        var result := CompareValues(f[index].value, g[index].value);
        if result != 0 {
          return result;
        }
        assert f[index..][1..] == f[index + 1..] && g[index..][1..] == g[index + 1..];
      }
      return if |f| < |g| then -1 else 1;
    case _ => return 1;
  }

  /* ---------- Key-order-sensitive equality is identity ---------- */

  lemma {:induction false} StrictIsIdentity(l: Value, r: Value)
    requires Tidy(l) && Tidy(r)
    ensures Equal(l, r, true) <==> l == r
    decreases l
  {
    match (l, r)
    case (Arr(a), Arr(b)) =>
      if |a| == |b| {
        forall i | 0 <= i < |a|
          ensures Equal(a[i], b[i], true) <==> a[i] == b[i]
        {
          StrictIsIdentity(a[i], b[i]);
        }
      }
    case (Obj(f), Obj(g)) =>
      if Keys(f) == Keys(g) {
        forall i | 0 <= i < |f|
          ensures Lookup(g, f[i].key) == Some(g[i].value)
          ensures Equal(f[i].value, g[i].value, true) <==> f[i] == g[i]
        {
          assert Keys(f)[i] == Keys(g)[i];
          LookupAt(g, i);
          StrictIsIdentity(f[i].value, g[i].value);
        }
      }
    case _ =>
  }

  lemma ZeroIsEqual(l: Value, r: Value)
    requires Tidy(l) && Tidy(r)
    ensures Compare(l, r) == 0 <==> Equal(l, r, true)
    ensures Compare(l, r) == 0 <==> l == r
  {
    StrictIsIdentity(l, r);
  }

  /* ---------- Antisymmetry ---------- */

  lemma {:induction false} BytesAntisymmetric(a: seq<B.byte>, b: seq<B.byte>)
    requires a != b
    ensures CompareBytes(a, b) == -CompareBytes(b, a)
  {
    if a != [] && b != [] && a[0] == b[0] {
      assert a == [a[0]] + a[1..] && b == [b[0]] + b[1..];
      BytesAntisymmetric(a[1..], b[1..]);
    }
  }

  lemma {:induction false} ItemsAntisymmetric(a: seq<Value>, b: seq<Value>)
    requires a != b
    requires forall i :: 0 <= i < |a| ==> Tidy(a[i]) && NaNFree(a[i])
    requires forall i :: 0 <= i < |b| ==> Tidy(b[i]) && NaNFree(b[i])
    ensures CompareItems(a, b) == -CompareItems(b, a)
    decreases a
  {
    if a != [] && b != [] {
      Antisymmetric(a[0], b[0]);
      if a[0] == b[0] {
        assert a == [a[0]] + a[1..] && b == [b[0]] + b[1..];
        ItemsAntisymmetric(a[1..], b[1..]);
      }
      ZeroIsEqual(a[0], b[0]);
    }
  }

  lemma {:induction false} FieldsAntisymmetric(f: seq<Field<Value>>, g: seq<Field<Value>>)
    requires f != g
    requires forall i :: 0 <= i < |f| ==> Tidy(f[i].value) && NaNFree(f[i].value)
    requires forall i :: 0 <= i < |g| ==> Tidy(g[i].value) && NaNFree(g[i].value)
    ensures CompareFields(f, g) == -CompareFields(g, f)
    decreases f
  {
    if f != [] && g != [] {
      LessTrichotomy(f[0].key, g[0].key);
      Antisymmetric(f[0].value, g[0].value);
      if f[0] == g[0] {
        assert f == [f[0]] + f[1..] && g == [g[0]] + g[1..];
        FieldsAntisymmetric(f[1..], g[1..]);
      }
      ZeroIsEqual(f[0].value, g[0].value);
    }
  }

  lemma {:induction false} Antisymmetric(l: Value, r: Value)
    requires Tidy(l) && Tidy(r) && NaNFree(l) && NaNFree(r)
    ensures Compare(l, r) == -Compare(r, l)
    decreases l
  {
    StrictIsIdentity(l, r);
    StrictIsIdentity(r, l);
    if l != r {
      match (l, r)
      case (Str(a), Str(b)) => LessTrichotomy(a, b);
      case (Bin(a), Bin(b)) => BytesAntisymmetric(a, b);
      case (Arr(a), Arr(b)) => ItemsAntisymmetric(a, b);
      case (Obj(f), Obj(g)) => FieldsAntisymmetric(f, g);
      case _ =>
    }
  }

  /* ---------- Transitivity ---------- */

  lemma {:induction false} BytesTransitive(a: seq<B.byte>, b: seq<B.byte>, c: seq<B.byte>)
    requires a != b && b != c && CompareBytes(a, b) < 0 && CompareBytes(b, c) < 0
    ensures a != c && CompareBytes(a, c) < 0
  {
    if a != [] && b != [] && c != [] && a[0] == b[0] == c[0] {
      assert a == [a[0]] + a[1..] && b == [b[0]] + b[1..] && c == [c[0]] + c[1..];
      BytesTransitive(a[1..], b[1..], c[1..]);
    }
  }

  lemma {:induction false} ItemsTransitive(a: seq<Value>, b: seq<Value>, c: seq<Value>)
    requires a != b && b != c && CompareItems(a, b) < 0 && CompareItems(b, c) < 0
    requires forall i :: 0 <= i < |a| ==> Tidy(a[i]) && NaNFree(a[i])
    requires forall i :: 0 <= i < |b| ==> Tidy(b[i]) && NaNFree(b[i])
    requires forall i :: 0 <= i < |c| ==> Tidy(c[i]) && NaNFree(c[i])
    ensures a != c && CompareItems(a, c) < 0
    decreases a
  {
    if a != [] && b != [] && c != [] {
      ZeroIsEqual(a[0], b[0]);
      ZeroIsEqual(b[0], c[0]);
      ZeroIsEqual(a[0], c[0]);
      if a[0] == b[0] == c[0] {
        assert a == [a[0]] + a[1..] && b == [b[0]] + b[1..] && c == [c[0]] + c[1..];
        ItemsTransitive(a[1..], b[1..], c[1..]);
      } else if a[0] != b[0] && b[0] != c[0] {
        Transitive(a[0], b[0], c[0]);
      }
    }
  }

  lemma {:induction false} FieldsTransitive(f: seq<Field<Value>>, g: seq<Field<Value>>, h: seq<Field<Value>>)
    requires f != g && g != h && CompareFields(f, g) < 0 && CompareFields(g, h) < 0
    requires forall i :: 0 <= i < |f| ==> Tidy(f[i].value) && NaNFree(f[i].value)
    requires forall i :: 0 <= i < |g| ==> Tidy(g[i].value) && NaNFree(g[i].value)
    requires forall i :: 0 <= i < |h| ==> Tidy(h[i].value) && NaNFree(h[i].value)
    ensures f != h && CompareFields(f, h) < 0
    decreases f
  {
    if f != [] && g != [] && h != [] {
      if f[0].key == g[0].key == h[0].key {
        ZeroIsEqual(f[0].value, g[0].value);
        ZeroIsEqual(g[0].value, h[0].value);
        ZeroIsEqual(f[0].value, h[0].value);
        if f[0] == g[0] == h[0] {
          assert f == [f[0]] + f[1..] && g == [g[0]] + g[1..] && h == [h[0]] + h[1..];
          FieldsTransitive(f[1..], g[1..], h[1..]);
        } else if f[0] != g[0] && g[0] != h[0] {
          Transitive(f[0].value, g[0].value, h[0].value);
        }
      } else if f[0].key != g[0].key && g[0].key != h[0].key {
        LessTransitive(f[0].key, g[0].key, h[0].key);
        LessTrichotomy(f[0].key, h[0].key);
      }
    }
  }

  lemma {:induction false} Transitive(a: Value, b: Value, c: Value)
    requires Tidy(a) && Tidy(b) && Tidy(c) && NaNFree(a) && NaNFree(b) && NaNFree(c)
    requires Compare(a, b) < 0 && Compare(b, c) < 0
    ensures Compare(a, c) < 0
    decreases a
  {
    StrictIsIdentity(a, b);
    StrictIsIdentity(b, c);
    StrictIsIdentity(a, c);
    match (a, b, c)
    case (Str(x), Str(y), Str(z)) =>
      LessTransitive(x, y, z);
      LessTrichotomy(x, z);
    case (Bin(x), Bin(y), Bin(z)) => BytesTransitive(x, y, z);
    case (Arr(x), Arr(y), Arr(z)) => ItemsTransitive(x, y, z);
    case (Obj(f), Obj(g), Obj(h)) => FieldsTransitive(f, g, h);
    case _ =>
  }

  // The weak form a sort relies on.
  lemma AtMostTransitive(a: Value, b: Value, c: Value)
    requires Tidy(a) && Tidy(b) && Tidy(c) && NaNFree(a) && NaNFree(b) && NaNFree(c)
    requires Compare(a, b) <= 0 && Compare(b, c) <= 0
    ensures Compare(a, c) <= 0
    ensures Compare(a, c) == 0 ==> a == b == c
  {
    ZeroIsEqual(a, b);
    ZeroIsEqual(b, c);
    ZeroIsEqual(a, c);
    if a != b && b != c {
      Transitive(a, b, c);
    }
  }

  /* ---------- Arrays and objects compare at their first difference ---------- */

  ghost predicate ItemsTurn(a: seq<Value>, b: seq<Value>, i: nat) {
    && i <= |a| && i < |b| && (forall j :: 0 <= j < i ==> a[j] == b[j])
    && (i == |a| || Compare(a[i], b[i]) < 0)
  }

  lemma {:induction false} ItemsAtFirstDifference(a: seq<Value>, b: seq<Value>)
    requires Tidy(Arr(a)) && Tidy(Arr(b)) && a != b
    ensures CompareItems(a, b) < 0 <==> exists i: nat :: ItemsTurn(a, b, i)
  {
    hide Compare, Equal;
    if a == [] {
      assert ItemsTurn(a, b, 0);
    } else if b != [] {
      ZeroIsEqual(a[0], b[0]);
      if a[0] != b[0] {
        assert Compare(a[0], b[0]) < 0 ==> ItemsTurn(a, b, 0);
        forall i: nat | ItemsTurn(a, b, i)
          ensures i == 0
        {
        }
      } else {
        assert a == [a[0]] + a[1..] && b == [b[0]] + b[1..];
        ItemsAtFirstDifference(a[1..], b[1..]);
        forall i: nat | ItemsTurn(a, b, i)
          ensures i > 0 && ItemsTurn(a[1..], b[1..], i - 1)
        {
        }
        forall i: nat | ItemsTurn(a[1..], b[1..], i)
          ensures ItemsTurn(a, b, i + 1)
        {
          assert forall j :: 0 < j < i + 1 ==> a[j] == a[1..][j - 1] && b[j] == b[1..][j - 1];
        }
      }
    }
  }

  ghost predicate FieldsTurn(f: seq<Field<Value>>, g: seq<Field<Value>>, i: nat) {
    && i <= |f| && i < |g| && (forall j :: 0 <= j < i ==> f[j] == g[j])
    && (i == |f| || Less(f[i].key, g[i].key) || (f[i].key == g[i].key && Compare(f[i].value, g[i].value) < 0))
  }

  lemma {:induction false} FieldsAtFirstDifference(f: seq<Field<Value>>, g: seq<Field<Value>>)
    requires forall i :: 0 <= i < |f| ==> Tidy(f[i].value)
    requires forall i :: 0 <= i < |g| ==> Tidy(g[i].value)
    requires f != g
    ensures CompareFields(f, g) < 0 <==> exists i: nat :: FieldsTurn(f, g, i)
  {
    hide Compare, Equal, Less;
    if f == [] {
      assert FieldsTurn(f, g, 0);
    } else if g != [] {
      ZeroIsEqual(f[0].value, g[0].value);
      LessTrichotomy(f[0].key, g[0].key);
      if f[0] != g[0] {
        assert CompareFields(f, g) < 0 ==> FieldsTurn(f, g, 0);
        forall i: nat | FieldsTurn(f, g, i)
          ensures i == 0
        {
        }
      } else {
        assert f == [f[0]] + f[1..] && g == [g[0]] + g[1..];
        FieldsAtFirstDifference(f[1..], g[1..]);
        forall i: nat | FieldsTurn(f, g, i)
          ensures i > 0 && FieldsTurn(f[1..], g[1..], i - 1)
        {
        }
        forall i: nat | FieldsTurn(f[1..], g[1..], i)
          ensures FieldsTurn(f, g, i + 1)
        {
          assert forall j :: 0 < j < i + 1 ==> f[j] == f[1..][j - 1] && g[j] == g[1..][j - 1];
        }
      }
    }
  }

  ghost predicate BytesTurn(a: seq<B.byte>, b: seq<B.byte>, i: nat) {
    && i <= |a| && i < |b| && (forall j :: 0 <= j < i ==> a[j] == b[j])
    && (i == |a| || a[i] < b[i])
  }

  lemma {:induction false} BytesAtFirstDifference(a: seq<B.byte>, b: seq<B.byte>)
    requires a != b
    ensures CompareBytes(a, b) < 0 <==> exists i: nat :: BytesTurn(a, b, i)
  {
    if a == [] {
      assert BytesTurn(a, b, 0);
    } else if b != [] {
      if a[0] != b[0] {
        assert a[0] < b[0] ==> BytesTurn(a, b, 0);
        forall i: nat | BytesTurn(a, b, i)
          ensures i == 0
        {
        }
      } else {
        assert a == [a[0]] + a[1..] && b == [b[0]] + b[1..];
        BytesAtFirstDifference(a[1..], b[1..]);
        forall i: nat | BytesTurn(a, b, i)
          ensures i > 0 && BytesTurn(a[1..], b[1..], i - 1)
        {
        }
        forall i: nat | BytesTurn(a[1..], b[1..], i)
          ensures BytesTurn(a, b, i + 1)
        {
          assert forall j :: 0 < j < i + 1 ==> a[j] == a[1..][j - 1] && b[j] == b[1..][j - 1];
        }
      }
    }
  }

  // undefined, null, numbers, strings, objects, arrays, bytes, booleans, dates: `l` is of an
  // earlier kind.
  ghost predicate EarlierKind(l: Value, r: Value) {
    || (l.Undefined? && !r.Undefined?)
    || (l.Null? && !r.Undefined? && !r.Null?)
    || (l.Num? && (r.Str? || r.Obj? || r.Arr? || r.Bin? || r.Bool? || r.Date?))
    || (l.Str? && (r.Obj? || r.Arr? || r.Bin? || r.Bool? || r.Date?))
    || (l.Obj? && (r.Arr? || r.Bin? || r.Bool? || r.Date?))
    || (l.Arr? && (r.Bin? || r.Bool? || r.Date?))
    || (l.Bin? && (r.Bool? || r.Date?))
    || (l.Bool? && r.Date?)
  }

  // Values of different kinds compare by kind, and equal values only are neither below nor above.
  lemma KindsExactly(l: Value, r: Value)
    requires Tidy(l) && Tidy(r)
    ensures EarlierKind(l, r) ==> Compare(l, r) == -1 && Compare(r, l) == 1
    ensures l != r ==> Compare(l, r) == -1 || Compare(l, r) == 1
  {
    StrictIsIdentity(l, r);
    StrictIsIdentity(r, l);
  }

  // Below another number: neither is NaN, and it is less.
  ghost predicate LessNumber(a: E.Float, b: E.Float) {
    && a != E.NaN && b != E.NaN && a != b
    && (a == E.NegInf || b == E.PosInf || (a.Finite? && b.Finite? && a.r < b.r))
  }

  // What compareValues < 0 means for two values of one kind.
  lemma BelowExactly(l: Value, r: Value)
    requires Tidy(l) && Tidy(r)
    ensures l.Num? && r.Num? ==> (Compare(l, r) < 0 <==> LessNumber(l.n, r.n))
    ensures l.Str? && r.Str? ==> (Compare(l, r) < 0 <==> ComesBefore(l.s, r.s))
    ensures l.Bool? && r.Bool? ==> (Compare(l, r) < 0 <==> !l.b && r.b)
    ensures l.Date? && r.Date? ==> (Compare(l, r) < 0 <==> l.millis < r.millis)
    ensures l.Bin? && r.Bin? ==> (Compare(l, r) < 0 <==> exists i: nat :: BytesTurn(l.bytes, r.bytes, i))
    ensures l.Arr? && r.Arr? ==> (Compare(l, r) < 0 <==> exists i: nat :: ItemsTurn(l.items, r.items, i))
    ensures l.Obj? && r.Obj? ==> (Compare(l, r) < 0 <==> exists i: nat :: FieldsTurn(l.fields, r.fields, i))
  {
    hide Equal, CompareItems, CompareFields, CompareBytes, Less;
    if l == r {
      ZeroIsEqual(l, r);
      NeverTurns(l);
    } else {
      StrictIsIdentity(l, r);
      match (l, r)
      case (Str(a), Str(b)) =>
        LessExactly(a, b);
      case (Bin(a), Bin(b)) => BytesAtFirstDifference(a, b);
      case (Arr(a), Arr(b)) => ItemsAtFirstDifference(a, b);
      case (Obj(f), Obj(g)) => FieldsAtFirstDifference(f, g);
      case _ =>
    }
  }

  lemma NeverTurns(v: Value)
    requires Tidy(v)
    ensures v.Str? ==> !ComesBefore(v.s, v.s)
    ensures v.Bin? ==> forall i: nat :: !BytesTurn(v.bytes, v.bytes, i)
    ensures v.Arr? ==> forall i: nat :: !ItemsTurn(v.items, v.items, i)
    ensures v.Obj? ==> forall i: nat :: !FieldsTurn(v.fields, v.fields, i)
  {
    hide Compare, Less;
    match v
    case Arr(a) =>
      forall i: nat | i < |a|
        ensures Compare(a[i], a[i]) == 0
      {
        ZeroIsEqual(a[i], a[i]);
      }
    case Obj(f) =>
      forall i: nat | i < |f|
        ensures Compare(f[i].value, f[i].value) == 0 && !Less(f[i].key, f[i].key)
      {
        ZeroIsEqual(f[i].value, f[i].value);
        LessTrichotomy(f[i].key, f[i].key);
      }
    case _ =>
  }

  /* ---------- NaN ---------- */

  function Zeroed(v: Value): Value {
    match v
    case Num(NaN) => Num(E.Finite(0.0))
    case Arr(items) => Arr(seq(|items|, i requires 0 <= i < |items| => Zeroed(items[i])))
    case Obj(fields) =>
      Obj(seq(|fields|, i requires 0 <= i < |fields| => Field(fields[i].key, Zeroed(fields[i].value))))
    case _ => v
  }

  lemma {:induction false} ZeroedIsSane(v: Value)
    requires Tidy(v)
    ensures Tidy(Zeroed(v)) && NaNFree(Zeroed(v))
    ensures NaNFree(v) <==> Zeroed(v) == v
  {
    match v
    case Arr(items) =>
      var zeroed := Zeroed(v).items;
      forall i | 0 <= i < |items|
        ensures Tidy(zeroed[i]) && NaNFree(zeroed[i]) && (NaNFree(items[i]) <==> zeroed[i] == items[i])
      {
        ZeroedIsSane(items[i]);
      }
    case Obj(fields) =>
      var zeroed := Zeroed(v).fields;
      assert Keys(zeroed) == Keys(fields);
      forall i | 0 <= i < |fields|
        ensures Tidy(zeroed[i].value) && NaNFree(zeroed[i].value)
                && (NaNFree(fields[i].value) <==> zeroed[i] == fields[i])
      {
        ZeroedIsSane(fields[i].value);
      }
    case _ =>
  }

  lemma {:induction false} ItemsClash(a: seq<Value>, b: seq<Value>)
    requires a != b && |a| == |b| && forall i :: 0 <= i < |a| ==> Tidy(a[i]) && b[i] == Zeroed(a[i])
    ensures CompareItems(a, b) == 1 == CompareItems(b, a)
    decreases a
  {
    ZeroedIsSane(a[0]);
    ZeroIsEqual(a[0], b[0]);
    ZeroIsEqual(b[0], a[0]);
    if a[0] == b[0] {
      assert a == [a[0]] + a[1..] && b == [b[0]] + b[1..];
      ItemsClash(a[1..], b[1..]);
    } else {
      ZeroedClashes(a[0]);
    }
  }

  lemma {:induction false} FieldsClash(f: seq<Field<Value>>, g: seq<Field<Value>>)
    requires f != g && |f| == |g|
    requires forall i :: 0 <= i < |f| ==> Tidy(f[i].value) && g[i] == Field(f[i].key, Zeroed(f[i].value))
    ensures CompareFields(f, g) == 1 == CompareFields(g, f)
    decreases f
  {
    ZeroedIsSane(f[0].value);
    ZeroIsEqual(f[0].value, g[0].value);
    ZeroIsEqual(g[0].value, f[0].value);
    if f[0] == g[0] {
      assert f == [f[0]] + f[1..] && g == [g[0]] + g[1..];
      FieldsClash(f[1..], g[1..]);
    } else {
      ZeroedClashes(f[0].value);
    }
  }

  // A value with a NaN in it is above and below the same value with zeros instead.
  lemma {:induction false} ZeroedClashes(v: Value)
    requires Tidy(v) && !NaNFree(v)
    ensures Compare(v, Zeroed(v)) == 1 == Compare(Zeroed(v), v)
    decreases v
  {
    ZeroedIsSane(v);
    hide Compare, Equal, CompareItems, CompareFields;
    match v
    case Num(_) => NumbersClash();
    case Arr(items) =>
      var zeroed := Zeroed(v).items;
      ItemsClash(items, zeroed);
      CompareUnfolds(v, Zeroed(v));
      CompareUnfolds(Zeroed(v), v);
    case Obj(fields) =>
      var zeroed := Zeroed(v).fields;
      FieldsClash(fields, zeroed);
      CompareUnfolds(v, Zeroed(v));
      CompareUnfolds(Zeroed(v), v);
    case _ =>
  }

  lemma NumbersClash()
    ensures Compare(Num(E.NaN), Num(E.Finite(0.0))) == 1 == Compare(Num(E.Finite(0.0)), Num(E.NaN))
  {
  }

  lemma CompareUnfolds(l: Value, r: Value)
    requires Tidy(l) && Tidy(r) && l != r
    ensures l.Arr? && r.Arr? ==> Compare(l, r) == CompareItems(l.items, r.items)
    ensures l.Obj? && r.Obj? ==> Compare(l, r) == CompareFields(l.fields, r.fields)
  {
    StrictIsIdentity(l, r);
    hide Equal, CompareItems, CompareFields;
  }

  // NaN is exactly what breaks antisymmetry.
  lemma OrderedExactlyWithoutNaN(v: Value)
    requires Tidy(v)
    ensures NaNFree(v) <==> forall w :: Tidy(w) && NaNFree(w) ==> Compare(v, w) == -Compare(w, v)
  {
    if NaNFree(v) {
      forall w | Tidy(w) && NaNFree(w)
        ensures Compare(v, w) == -Compare(w, v)
      {
        Antisymmetric(v, w);
      }
    } else {
      ZeroedIsSane(v);
      ZeroedClashes(v);
    }
  }

  /* ---------- Equality up to key order ---------- */

  function ArrangedFields(fields: seq<Field<Value>>): (r: seq<Field<Value>>)
    ensures |r| == |fields| && Keys(r) == Keys(fields)
  {
    seq(|fields|, i requires 0 <= i < |fields| => Field(fields[i].key, Arranged(fields[i].value)))
  }

  // The value with the fields of every object sorted by key.
  function Arranged(v: Value): Value {
    match v
    case Arr(items) => Arr(seq(|items|, i requires 0 <= i < |items| => Arranged(items[i])))
    case Obj(fields) => Obj(Sort(ArrangedFields(fields)))
    case _ => v
  }

  lemma {:induction false} LooseIsArranged(l: Value, r: Value)
    requires Tidy(l) && Tidy(r)
    ensures Equal(l, r, false) <==> Arranged(l) == Arranged(r)
    decreases l
  {
    match (l, r)
    case (Arr(a), Arr(b)) =>
      if |a| == |b| {
        forall i | 0 <= i < |a|
          ensures Equal(a[i], b[i], false) <==> Arranged(l).items[i] == Arranged(r).items[i]
        {
          LooseIsArranged(a[i], b[i]);
        }
        var x, y := Arranged(l).items, Arranged(r).items;
        assert x == y <==> forall i :: 0 <= i < |a| ==> x[i] == y[i];
      } else {
        assert |Arranged(l).items| != |Arranged(r).items|;
      }
    case (Obj(f), Obj(g)) =>
      forall i, j | 0 <= i < |f| && 0 <= j < |g|
        ensures Equal(f[i].value, g[j].value, false) <==> Arranged(f[i].value) == Arranged(g[j].value)
      {
        LooseIsArranged(f[i].value, g[j].value);
      }
      if Equal(l, r, false) {
        EqualArranges(f, g);
      }
      if Arranged(l) == Arranged(r) {
        ArrangedEqual(f, g);
      }
    case _ =>
  }

  ghost predicate Decided(f: seq<Field<Value>>, g: seq<Field<Value>>) {
    && Distinct(Keys(f)) && Distinct(Keys(g))
    && forall i, j :: 0 <= i < |f| && 0 <= j < |g| ==>
         (Equal(f[i].value, g[j].value, false) <==> Arranged(f[i].value) == Arranged(g[j].value))
  }

  lemma EqualArranges(f: seq<Field<Value>>, g: seq<Field<Value>>)
    requires Decided(f, g) && Equal(Obj(f), Obj(g), false)
    ensures Sort(ArrangedFields(f)) == Sort(ArrangedFields(g))
  {
    var a, b := ArrangedFields(f), ArrangedFields(g);
    forall x | x in a
      ensures x in b
    {
      var i :| 0 <= i < |a| && a[i] == x;
      var j := LookupFinds(g, f[i].key);
      assert b[j] == x;
    }
    hide Sort, Arranged, Equal;
    SameFields(a, b);
    SortMembers(a);
    SortMembers(b);
    SortAscending(a);
    SortAscending(b);
    AscendingUnique(Sort(a), Sort(b));
  }

  lemma ArrangedEqual(f: seq<Field<Value>>, g: seq<Field<Value>>)
    requires Decided(f, g) && Sort(ArrangedFields(f)) == Sort(ArrangedFields(g))
    ensures Equal(Obj(f), Obj(g), false)
  {
    var a, b := ArrangedFields(f), ArrangedFields(g);
    SortMembers(a);
    SortMembers(b);
    forall i | 0 <= i < |f|
      ensures Lookup(g, f[i].key).Some? && Equal(f[i].value, Lookup(g, f[i].key).value, false)
    {
      assert a[i] in b;
      var j :| 0 <= j < |b| && b[j] == a[i];
      LookupAt(g, j);
    }
  }

  // Loose equality is an equivalence, and strict equality refines it.
  lemma LooseIsAnEquivalence(u: Value, v: Value, w: Value)
    requires Tidy(u) && Tidy(v) && Tidy(w)
    ensures Equal(u, u, false)
    ensures Equal(u, v, false) <==> Equal(v, u, false)
    ensures Equal(u, v, false) && Equal(v, w, false) ==> Equal(u, w, false)
    ensures Equal(u, v, true) ==> Equal(u, v, false)
  {
    LooseIsArranged(u, u);
    LooseIsArranged(u, v);
    LooseIsArranged(v, u);
    LooseIsArranged(v, w);
    LooseIsArranged(u, w);
    StrictIsIdentity(u, v);
  }
}
