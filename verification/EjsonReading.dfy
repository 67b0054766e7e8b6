// Reading undoes printing: what the reader makes of any printed tree.
module EjsonReading {
  import opened Results
  import opened Text
  import opened Fields
  import opened EjsonValue
  import opened EjsonCodec

  // What a tree becomes when it is printed and read: floats are re-read from their
  // spelling and repeated keys collapse.
  function Resolve(c: Codec, j: Json): Outcome<Json>
    decreases j
  {
    match j
    case JFloat(r) => ReadNumber(c, c.formatFloat(r))
    case JArr(items) =>
      (match ResolveItems(c, items)
       case Ok(js) => Ok(JArr(js))
       case Err(e) => Err(e))
    case JObj(fields) =>
      (match ResolveFields(c, fields, [])
       case Ok(fs) => Ok(JObj(fs))
       case Err(e) => Err(e))
    case _ => Ok(j)
  }

  function ResolveItems(c: Codec, items: seq<Json>): Outcome<seq<Json>>
    decreases items
  {
    if items == [] then Ok([])
    else
      match Resolve(c, items[0])
      case Err(e) => Err(e)
      case Ok(j) =>
        match ResolveItems(c, items[1..])
        case Err(e) => Err(e)
        case Ok(js) => Ok([j] + js)
  }

  function ResolveFields(c: Codec, fields: seq<Field<Json>>, acc: seq<Field<Json>>): Outcome<seq<Field<Json>>>
    decreases fields
  {
    if fields == [] then Ok(acc)
    else
      match Resolve(c, fields[0].value)
      case Err(e) => Err(e)
      case Ok(j) => ResolveFields(c, fields[1..], Put(acc, fields[0].key, j))
  }

  function Then<T>(o: Outcome<T>, rest: seq<Token>): Outcome<Reading<T>> {
    match o
    case Ok(v) => Ok(Reading(v, rest))
    case Err(e) => Err(e)
  }

  lemma {:induction false} ReadPrint(c: Codec, j: Json, rest: seq<Token>)
    ensures Read(c, Print(c, j) + rest) == Then(Resolve(c, j), rest)
    decreases j
  {
    hide FormatInt, HasAny, ParseInt64, Put;
    var ts := Print(c, j) + rest;
    match j
    case JInt(n) =>
      FormatIntPlain(n);
      ParseFormatInt(n);
      assert ts[1..] == rest;
    case JArr(items) =>
      ReadItemsPrint(c, items, rest);
      assert ts[1..] == PrintItems(c, items) + ([CloseArray] + rest);
    case JObj(fields) =>
      ReadFieldsPrint(c, fields, [], rest);
      assert ts[1..] == PrintFields(c, fields) + ([CloseObject] + rest);
    case _ =>
      assert ts[1..] == rest;
  }

  lemma {:induction false} ReadItemsPrint(c: Codec, items: seq<Json>, rest: seq<Token>)
    ensures ReadItems(c, PrintItems(c, items) + ([CloseArray] + rest)) == Then(ResolveItems(c, items), rest)
    decreases items
  {
    hide Read, Print, Resolve;
    var ts := PrintItems(c, items) + ([CloseArray] + rest);
    if items == [] {
      assert ts == [CloseArray] + rest;
    } else {
      var tail := PrintItems(c, items[1..]) + ([CloseArray] + rest);
      assert ts == Print(c, items[0]) + tail;
      ReadPrint(c, items[0], tail);
      ReadItemsPrint(c, items[1..], rest);
    }
  }

  lemma {:induction false} ReadFieldsPrint(c: Codec, fields: seq<Field<Json>>, acc: seq<Field<Json>>, rest: seq<Token>)
    ensures ReadFields(c, PrintFields(c, fields) + ([CloseObject] + rest), acc)
            == Then(ResolveFields(c, fields, acc), rest)
    decreases fields
  {
    hide Read, Print, Resolve, Put;
    var ts := PrintFields(c, fields) + ([CloseObject] + rest);
    if fields == [] {
      assert ts == [CloseObject] + rest;
    } else {
      var tail := PrintFields(c, fields[1..]) + ([CloseObject] + rest);
      assert ts == [StringToken(fields[0].key)] + (Print(c, fields[0].value) + tail);
      assert ts[1..] == Print(c, fields[0].value) + tail;
      ReadPrint(c, fields[0].value, tail);
      if Resolve(c, fields[0].value).Ok? {
        ReadFieldsPrint(c, fields[1..], Put(acc, fields[0].key, Resolve(c, fields[0].value).value), rest);
      }
    }
  }

  lemma ParsePrint(c: Codec, j: Json)
    ensures Parse(c, Print(c, j)) == match Resolve(c, j) case Ok(k) => Decode(c, k) case Err(e) => Err(e)
  {
    hide Read, Print, Resolve, Decode;
    ReadPrint(c, j, []);
    assert Print(c, j) + [] == Print(c, j);
  }

  /* ---------- Element by element ---------- */

  lemma {:induction false} ResolveItemsAt(c: Codec, items: seq<Json>, js: seq<Json>)
    ensures ResolveItems(c, items) == Ok(js)
       <==> |js| == |items| && forall i :: 0 <= i < |items| ==> Resolve(c, items[i]) == Ok(js[i])
  {
    hide Resolve;
    if items != [] {
      if js == [] {
      } else {
        ResolveItemsAt(c, items[1..], js[1..]);
        assert js == [js[0]] + js[1..];
        assert forall i :: 1 <= i < |items| ==> items[i] == items[1..][i - 1];
        assert forall i :: 1 <= i < |js| ==> js[i] == js[1..][i - 1];
      }
    }
  }

  // One field of a list with distinct keys goes after the others.
  lemma ResolveNext(c: Codec, fields: seq<Field<Json>>, acc: seq<Field<Json>>)
    requires Distinct(Keys(acc + fields)) && fields != [] && Resolve(c, fields[0].value).Ok?
    ensures var f, rest := Field(fields[0].key, Resolve(c, fields[0].value).value), fields[1..];
            && ResolveFields(c, fields, acc) == ResolveFields(c, rest, acc + [f])
            && Distinct(Keys(acc + [f] + rest))
  {
    hide Resolve, Put;
    var f := Field(fields[0].key, Resolve(c, fields[0].value).value);
    assert f.key !in Keys(acc) by {
      assert forall i :: 0 <= i < |acc| ==> Keys(acc)[i] == Keys(acc + fields)[i] && Keys(acc + fields)[|acc|] == f.key;
    }
    PutKeys(acc, f.key, f.value);
    assert Keys((acc + [f]) + fields[1..]) == Keys(acc + fields);
  }

  lemma {:induction false} ResolveFieldsLength(c: Codec, fields: seq<Field<Json>>, acc: seq<Field<Json>>)
    requires Distinct(Keys(acc + fields)) && ResolveFields(c, fields, acc).Ok?
    ensures |ResolveFields(c, fields, acc).value| == |acc| + |fields| && acc <= ResolveFields(c, fields, acc).value
    decreases fields
  {
    hide Resolve, Put, Keys, Distinct;
    if fields != [] {
      ResolveNext(c, fields, acc);
      var f := Field(fields[0].key, Resolve(c, fields[0].value).value);
      ResolveFieldsLength(c, fields[1..], acc + [f]);
      assert acc <= acc + [f];
    }
  }

  // With distinct keys the reader keeps every field in place.
  lemma {:induction false} ResolveFieldsAt(c: Codec, fields: seq<Field<Json>>, acc: seq<Field<Json>>,
                                           fs: seq<Field<Json>>)
    requires Distinct(Keys(acc + fields))
    ensures ResolveFields(c, fields, acc) == Ok(acc + fs)
       <==> |fs| == |fields|
            && forall i :: 0 <= i < |fields|
                           ==> fs[i].key == fields[i].key && Resolve(c, fields[i].value) == Ok(fs[i].value)
    decreases fields
  {
    hide Resolve, Put, Keys, Distinct;
    if fields == [] {
      assert acc + [] == acc;
      assert fs != [] ==> |acc + fs| > |acc|;
    } else if Resolve(c, fields[0].value).Ok? {
      var f, rest := Field(fields[0].key, Resolve(c, fields[0].value).value), fields[1..];
      ResolveNext(c, fields, acc);
      if ResolveFields(c, fields, acc).Ok? {
        ResolveFieldsLength(c, rest, acc + [f]);
        assert ResolveFields(c, fields, acc).value[|acc|] == (acc + [f])[|acc|] == f;
      }
      if fs != [] {
        ResolveFieldsAt(c, rest, acc + [f], fs[1..]);
        assert fs == [fs[0]] + fs[1..] && (acc + fs)[|acc|] == fs[0];
        if fs[0] == f {
          assert (acc + [f]) + fs[1..] == acc + fs;
        }
        assert forall i :: 1 <= i < |fields| ==> fields[i] == rest[i - 1];
        assert forall i :: 1 <= i < |fs| ==> fs[i] == fs[1..][i - 1];
      } else if ResolveFields(c, fields, acc).Ok? {
        assert acc + [] == acc;
      }
    }
  }

  lemma {:induction false} DecodeItemsAt(c: Codec, items: seq<Json>, vs: seq<Value>)
    ensures DecodeItems(c, items) == Ok(vs)
       <==> |vs| == |items| && forall i :: 0 <= i < |items| ==> Decode(c, items[i]) == Ok(vs[i])
  {
    hide Decode;
    if items != [] && vs != [] {
      DecodeItemsAt(c, items[1..], vs[1..]);
      assert vs == [vs[0]] + vs[1..];
      assert forall i :: 1 <= i < |items| ==> items[i] == items[1..][i - 1];
      assert forall i :: 1 <= i < |vs| ==> vs[i] == vs[1..][i - 1];
    }
  }

  lemma {:induction false} DecodeFieldsAt(c: Codec, fields: seq<Field<Json>>, fs: seq<Field<Value>>)
    ensures DecodeFields(c, fields) == Ok(fs)
       <==> |fs| == |fields|
            && forall i :: 0 <= i < |fields|
                           ==> fs[i].key == fields[i].key && Decode(c, fields[i].value) == Ok(fs[i].value)
  {
    hide Decode;
    if fields != [] && fs != [] {
      DecodeFieldsAt(c, fields[1..], fs[1..]);
      assert fs == [fs[0]] + fs[1..];
      assert forall i :: 1 <= i < |fields| ==> fields[i] == fields[1..][i - 1];
      assert forall i :: 1 <= i < |fs| ==> fs[i] == fs[1..][i - 1];
    }
  }
}
