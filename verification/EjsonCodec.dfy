// The EJSON printer and parser of typeferry-go/ejson/codec.go.
//
// Text is the token sequence that Go's json.Decoder yields. Stringify lowers a value to a plain
// JSON tree and prints the tree; Parse reads a tree back and decodes its tags.
module EjsonCodec {
  import opened Results
  import opened Text
  import opened Fields
  import opened EjsonValue
  import B = Base64

  datatype Token =
    | NullToken
    | BoolToken(b: bool)
    | NumberToken(text: string)
    | StringToken(s: string)
    | OpenArray | CloseArray | OpenObject | CloseObject

  // A document between its text and its tags.
  datatype Json =
    | JNull
    | JBool(b: bool)
    | JInt(n: int64)
    | JFloat(r: real)
    | JStr(s: string)
    | JArr(items: seq<Json>)
    | JObj(fields: seq<Field<Json>>)

  // The registered factories, and the two float conversions of the Go library.
  datatype Codec = Codec(
    factories: map<string, Value -> Outcome<Value>>,
    formatFloat: real -> string,
    parseFloat: string -> Option<real>)

  /* ---------- Regular-expression flags ---------- */

  const VALID_FLAGS := "gimuy"
  const MAX_FLAGS := 50

  // Of each valid flag the last occurrence survives.
  function KeepLast(runes: string): string {
    if runes == "" then ""
    else if runes[0] !in VALID_FLAGS || runes[0] in runes[1..] then KeepLast(runes[1..])
    else [runes[0]] + KeepLast(runes[1..])
  }

  function SanitizeFlags(source: string): string {
    KeepLast(if |source| > MAX_FLAGS then source[..MAX_FLAGS] else source)
  }

  predicate CleanFlags(flags: string) {
    && (forall i :: 0 <= i < |flags| ==> flags[i] in VALID_FLAGS)
    && (forall i, j :: 0 <= i < j < |flags| ==> flags[i] != flags[j])
  }

  /* ---------- Lowering and printing (writeValue) ---------- */

  function Arrange<T>(fields: seq<Field<T>>, canonical: bool): seq<Field<T>> {
    if canonical then Sort(fields) else fields
  }

  function LowerFields(fields: seq<Field<Value>>, canonical: bool): (r: seq<Field<Json>>)
    ensures |r| == |fields|
  {
    seq(|fields|, i requires 0 <= i < |fields| => Field(fields[i].key, Lower(fields[i].value, canonical)))
  }

  function Lower(v: Value, canonical: bool): Json {
    match v
    case Null => JNull
    case Bool(b) => JBool(b)
    case Int(n) => JInt(n)
    case Flt(NaN) => JObj([Field("$InfNaN", JInt(0))])
    case Flt(PosInf) => JObj([Field("$InfNaN", JInt(1))])
    case Flt(NegInf) => JObj([Field("$InfNaN", JInt(-1))])
    case Flt(Finite(r)) => JFloat(r)
    case Str(s) => JStr(s)
    case Arr(items) => JArr(seq(|items|, i requires 0 <= i < |items| => Lower(items[i], canonical)))
    case Obj(fields) =>
      var plain := JObj(Arrange(LowerFields(fields, canonical), canonical));
      if TagOf(Keys(fields)).Some? then JObj([Field("$escape", plain)]) else plain
    case Date(millis) => JObj([Field("$date", JInt(millis))])
    case Binary(bytes) => JObj([Field("$binary", JStr(B.Encode(bytes)))])
    case Regex(source, flags) =>
      JObj(Arrange([Field("$regexp", JStr(source)), Field("$flags", JStr(flags))], canonical))
    case Custom(name, inner) =>
      JObj(Arrange([Field("$type", JStr(name)), Field("$value", Lower(inner, canonical))], canonical))
  }

  function PrintItems(c: Codec, items: seq<Json>): seq<Token> {
    if items == [] then [] else Print(c, items[0]) + PrintItems(c, items[1..])
  }

  function PrintFields(c: Codec, fields: seq<Field<Json>>): seq<Token> {
    if fields == [] then []
    else [StringToken(fields[0].key)] + Print(c, fields[0].value) + PrintFields(c, fields[1..])
  }

  function Print(c: Codec, j: Json): (ts: seq<Token>)
    ensures ts != [] && ts[0] != CloseArray && ts[0] != CloseObject
  {
    match j
    case JNull => [NullToken]
    case JBool(b) => [BoolToken(b)]
    case JInt(n) => [NumberToken(FormatInt(n))]
    case JFloat(r) => [NumberToken(c.formatFloat(r))]
    case JStr(s) => [StringToken(s)]
    case JArr(items) => [OpenArray] + PrintItems(c, items) + [CloseArray]
    case JObj(fields) => [OpenObject] + PrintFields(c, fields) + [CloseObject]
  }

  function Stringify(c: Codec, v: Value, canonical: bool): seq<Token> {
    Print(c, Lower(v, canonical))
  }

  /* ---------- Reading (readValue) ---------- */

  function ReadNumber(c: Codec, text: string): Outcome<Json> {
    if !HasAny(text, ".eE") && ParseInt64(text).Some? then Ok(JInt(ParseInt64(text).value))
    else
      match c.parseFloat(text)
      case Some(r) => Ok(JFloat(r))
      case None => Err(BadNumber(text))
  }

  datatype Reading<+T> = Reading(value: T, rest: seq<Token>)

  function Read(c: Codec, ts: seq<Token>): (r: Outcome<Reading<Json>>)
    ensures r.Ok? ==> |r.value.rest| < |ts|
    decreases |ts|, 0
  {
    if ts == [] then Err(Syntax)
    else
      var rest := ts[1..];
      match ts[0]
      case NullToken => Ok(Reading(JNull, rest))
      case BoolToken(b) => Ok(Reading(JBool(b), rest))
      case StringToken(s) => Ok(Reading(JStr(s), rest))
      case NumberToken(text) =>
        (match ReadNumber(c, text)
         case Ok(n) => Ok(Reading(n, rest))
         case Err(e) => Err(e))
      case OpenArray =>
        (match ReadItems(c, rest)
         case Ok(Reading(items, rest')) => Ok(Reading(JArr(items), rest'))
         case Err(e) => Err(e))
      case OpenObject =>
        (match ReadFields(c, rest, [])
         case Ok(Reading(fields, rest')) => Ok(Reading(JObj(fields), rest'))
         case Err(e) => Err(e))
      case CloseArray => Err(Syntax)
      case CloseObject => Err(Syntax)
  }

  function ReadItems(c: Codec, ts: seq<Token>): (r: Outcome<Reading<seq<Json>>>)
    ensures r.Ok? ==> |r.value.rest| < |ts|
    decreases |ts|, 1
  {
    if ts == [] || ts[0] == CloseObject then Err(Syntax)
    else if ts[0] == CloseArray then Ok(Reading([], ts[1..]))
    else
      match Read(c, ts)
      case Err(e) => Err(e)
      case Ok(Reading(item, rest)) =>
        match ReadItems(c, rest)
        case Err(e) => Err(e)
        case Ok(Reading(items, rest')) => Ok(Reading([item] + items, rest'))
  }

  function ReadFields(c: Codec, ts: seq<Token>, fields: seq<Field<Json>>): (r: Outcome<Reading<seq<Field<Json>>>>)
    ensures r.Ok? ==> |r.value.rest| < |ts|
    decreases |ts|, 1
  {
    if ts == [] then Err(Syntax)
    else if ts[0] == CloseObject then Ok(Reading(fields, ts[1..]))
    else if !ts[0].StringToken? then Err(Syntax)
    else
      match Read(c, ts[1..])
      case Err(e) => Err(e)
      case Ok(Reading(value, rest)) => ReadFields(c, rest, Put(fields, ts[0].s, value))
  }

  /* ---------- Tags (decodeValue, decodeObject) ---------- */

  function DecodeItems(c: Codec, items: seq<Json>): Outcome<seq<Value>> {
    if items == [] then Ok([])
    else
      match Decode(c, items[0])
      case Err(e) => Err(e)
      case Ok(v) =>
        match DecodeItems(c, items[1..])
        case Err(e) => Err(e)
        case Ok(vs) => Ok([v] + vs)
  }

  function DecodeFields(c: Codec, fields: seq<Field<Json>>): Outcome<seq<Field<Value>>> {
    if fields == [] then Ok([])
    else
      match Decode(c, fields[0].value)
      case Err(e) => Err(e)
      case Ok(v) =>
        match DecodeFields(c, fields[1..])
        case Err(e) => Err(e)
        case Ok(fs) => Ok([Field(fields[0].key, v)] + fs)
  }

  function Decode(c: Codec, j: Json): Outcome<Value> {
    match j
    case JNull => Ok(Null)
    case JBool(b) => Ok(Bool(b))
    case JInt(n) => Ok(Int(n))
    case JFloat(r) => Ok(Flt(Finite(r)))
    case JStr(s) => Ok(Str(s))
    case JArr(items) =>
      (match DecodeItems(c, items)
       case Ok(vs) => Ok(Arr(vs))
       case Err(e) => Err(e))
    case JObj(fields) =>
      if TagOf(Keys(fields)) == Some(EscapeTag) then
        if !fields[0].value.JObj? then Err(BadTag("$escape"))
        else
          match DecodeFields(c, fields[0].value.fields)
          case Ok(fs) => Ok(Obj(fs))
          case Err(e) => Err(e)
      else
        match DecodeFields(c, fields)
        case Ok(fs) => DecodeObject(c, fs)
        case Err(e) => Err(e)
  }

  function InfNaN(v: Value): Outcome<Value> {
    match v
    case Int(n) => Ok(Flt(if n == 0 then NaN else if n == 1 then PosInf else NegInf))
    case Flt(Finite(r)) => Ok(Flt(if r == 0.0 then NaN else if r == 1.0 then PosInf else NegInf))
    case Flt(_) => Ok(Flt(NegInf))
    case _ => Err(BadTag("$InfNaN"))
  }

  function DecodeBinary(encoded: string): Outcome<Value> {
    match B.Decode(encoded)
    case Some(bytes) => Ok(Binary(bytes))
    case None => Err(BadBase64)
  }

  function DecodeObject(c: Codec, fields: seq<Field<Value>>): Outcome<Value> {
    match TagOf(Keys(fields))
    case None => Ok(Obj(fields))
    case Some(EscapeTag) => Ok(Obj(fields))
    case Some(DateTag) =>
      (match Lookup<Value>(fields, "$date")
       case Some(Int(n)) => Ok(Date(n))
       case _ => Err(BadTag("$date")))
    case Some(RegexpTag) =>
      (match (Lookup<Value>(fields, "$regexp"), Lookup<Value>(fields, "$flags"))
       case (Some(Str(source)), Some(Str(flags))) => Ok(Regex(source, SanitizeFlags(flags)))
       case _ => Err(BadTag("$regexp")))
    case Some(InfNaNTag) =>
      (match Lookup<Value>(fields, "$InfNaN")
       case Some(v) => InfNaN(v)
       case None => Err(BadTag("$InfNaN")))
    case Some(BinaryTag) =>
      (match Lookup<Value>(fields, "$binary")
       case Some(Str(encoded)) => DecodeBinary(encoded)
       case _ => Err(BadTag("$binary")))
    case Some(TypeTag) =>
      match (Lookup<Value>(fields, "$type"), Lookup<Value>(fields, "$value"))
      case (Some(Str(name)), Some(v)) => if name in c.factories then c.factories[name](v) else Err(UnknownType(name))
      case _ => Err(BadTag("$type"))
  }

  function Parse(c: Codec, ts: seq<Token>): Outcome<Value> {
    match Read(c, ts)
    case Err(e) => Err(e)
    case Ok(Reading(j, rest)) => if rest == [] then Decode(c, j) else Err(TrailingData)
  }
}
