// The hand-written base64 codec of typeferry-ts/src/ejson/base64.ts.
// Shifts and masks are written as multiplication, division and remainder:
// the fields they combine never overlap.
module Base64 {
  import opened Results

  type byte = x: int | 0 <= x < 256
  type Sextet = x: int | 0 <= x < 64

  function Alphabet(): string { "ABCDEFGHIJKLMNOPQRSTUVWXYZabcdefghijklmnopqrstuvwxyz0123456789+/" }

  // The character of a six-bit value (table 1 of RFC 4648).
  function Symbol(x: Sextet): char {
    if x < 26 then ('A' as int + x) as char
    else if x < 52 then ('a' as int + x - 26) as char
    else if x < 62 then ('0' as int + x - 52) as char
    else if x == 62 then '+' else '/'
  }

  lemma AlphabetSymbol(x: Sextet)
    ensures |Alphabet()| == 64 && Alphabet()[x] == Symbol(x)
  {
    var upper, lower, digits := "ABCDEFGHIJKLMNOPQRSTUVWXYZ", "abcdefghijklmnopqrstuvwxyz", "0123456789";
    assert Alphabet() == upper + lower + digits + "+/" by { AlphabetParts(); }
    hide Alphabet;
    if x < 26 {
      assert upper[x] == Symbol(x);
    } else if x < 52 {
      assert lower[x - 26] == Symbol(x);
    } else if x < 62 {
      assert digits[x - 52] == Symbol(x);
    }
  }

  lemma AlphabetParts()
    ensures Alphabet() == "ABCDEFGHIJKLMNOPQRSTUVWXYZ" + "abcdefghijklmnopqrstuvwxyz" + "0123456789" + "+/"
  {
  }

  // BASE64_LOOKUP, with INVALID_CHAR as None.
  function Lookup(c: char): Option<Sextet> {
    if 'A' <= c <= 'Z' then Some(c as int - 'A' as int)
    else if 'a' <= c <= 'z' then Some(c as int - 'a' as int + 26)
    else if '0' <= c <= '9' then Some(c as int - '0' as int + 52)
    else if c == '+' || c == '-' then Some(62)
    else if c == '/' || c == '_' then Some(63)
    else None
  }

  /* ---------- Encoding ---------- */

  // Three bytes regrouped as four six-bit values (section 4 of RFC 4648).
  function S0(b0: byte): Sextet { b0 / 4 }
  function S1(b0: byte, b1: byte): Sextet { b0 % 4 * 16 + b1 / 16 }
  function S2(b1: byte, b2: byte): Sextet { b1 % 16 * 4 + b2 / 64 }
  function S3(b2: byte): Sextet { b2 % 64 }

  lemma ChunkSextets(b0: byte, b1: byte, b2: byte)
    ensures var chunk: int := b0 * 65536 + b1 * 256 + b2;
            && chunk / 262144 % 64 == S0(b0) && chunk / 4096 % 64 == S1(b0, b1)
            && chunk / 64 % 64 == S2(b1, b2) && chunk % 64 == S3(b2)
  {
    ChunkSum(b0, b1, b2);
    hide S0, S1, S2, S3;
    Sextets(S0(b0), S1(b0, b1), S2(b1, b2), S3(b2));
  }

  // Reading off the digits of a number in base 64.
  lemma Sextets(s0: int, s1: int, s2: int, s3: int)
    requires 0 <= s0 < 64 && 0 <= s1 < 64 && 0 <= s2 < 64 && 0 <= s3 < 64
    ensures var chunk: int := s0 * 262144 + s1 * 4096 + s2 * 64 + s3;
            chunk / 262144 % 64 == s0 && chunk / 4096 % 64 == s1 && chunk / 64 % 64 == s2 && chunk % 64 == s3
  {
    Digit(s0 * 4096 + s1 * 64 + s2, s3);
    Digit(s0 * 64 + s1, s2);
    Digit(s0, s1);
    var chunk: int := s0 * 262144 + s1 * 4096 + s2 * 64 + s3;
    assert chunk / 4096 == s0 * 64 + s1;
    assert chunk / 262144 == s0;
  }

  lemma Digit(q: int, r: int)
    requires 0 <= r < 64
    ensures (q * 64 + r) / 64 == q && (q * 64 + r) % 64 == r
  {
  }

  // One iteration of the encoder, with `remaining` bytes left.
  function Quad(b0: byte, b1: byte, b2: byte, remaining: nat): (r: string)
    ensures |r| == 4
  {
    [Symbol(S0(b0)), Symbol(S1(b0, b1)),
     if remaining > 1 then Symbol(S2(b1, b2)) else '=',
     if remaining > 2 then Symbol(S3(b2)) else '=']
  }

  function At(bytes: seq<byte>, i: nat): byte {
    if i < |bytes| then bytes[i] else 0
  }

  function Encode(bytes: seq<byte>): string {
    if bytes == [] then ""
    else if |bytes| <= 3 then Quad(bytes[0], At(bytes, 1), At(bytes, 2), |bytes|)
    else Quad(bytes[0], At(bytes, 1), At(bytes, 2), |bytes|) + Encode(bytes[3..])
  }

  method EncodeGroup(byte0: byte, byte1: byte, byte2: byte, remaining: nat) returns (group: string)
    ensures group == Quad(byte0, byte1, byte2, remaining)
  {
    hide Alphabet, Symbol, S0, S1, S2, S3;
    var chunk: int := byte0 * 65536 + byte1 * 256 + byte2;
    ChunkSextets(byte0, byte1, byte2);
    AlphabetSymbol(S0(byte0));
    AlphabetSymbol(S1(byte0, byte1));
    AlphabetSymbol(S2(byte1, byte2));
    AlphabetSymbol(S3(byte2));
    group := [Alphabet()[chunk / 262144 % 64], Alphabet()[chunk / 4096 % 64],
              if remaining > 1 then Alphabet()[chunk / 64 % 64] else '=',
              if remaining > 2 then Alphabet()[chunk % 64] else '='];
  }

  method EncodeBase64(bytes: seq<byte>) returns (output: string)
    ensures output == Encode(bytes)
  {
    output := "";
    var index := 0;
    while index < |bytes|
      invariant 0 <= index
      invariant output + Encode(if index <= |bytes| then bytes[index..] else []) == Encode(bytes)
      decreases |bytes| - index
    {
      ghost var rest := bytes[index..];
      var group := EncodeGroup(bytes[index], At(bytes, index + 1), At(bytes, index + 2), |bytes| - index);
      ghost var next: seq<byte> := if |rest| > 3 then rest[3..] else [];
      assert Encode(rest) == group + Encode(next);
      assert next == (if index + 3 <= |bytes| then bytes[index + 3..] else []);
      assert output + (group + Encode(next)) == (output + group) + Encode(next);
      output := output + group;
      index := index + 3;
    }
  }

  /* ---------- Decoding ---------- */

  // value.indexOf('='), or the length when there is none.
  function ValidLength(s: string): (n: nat)
    ensures n <= |s|
    ensures n < |s| ==> s[n] == '='
    ensures forall i :: 0 <= i < n ==> s[i] != '='
  {
    if s == "" || s[0] == '=' then 0 else 1 + ValidLength(s[1..])
  }

  function Placeholders(s: string): (p: nat)
    ensures p <= 4
  {
    var valid := ValidLength(s);
    if valid == |s| then 0 else 4 - valid % 4
  }

  function OutputLength(s: string): int {
    (ValidLength(s) + Placeholders(s)) * 3 / 4 - Placeholders(s)
  }

  // How many whole groups of four the decoding loop reads.
  function Groups(s: string): nat {
    var end := if Placeholders(s) > 0 then ValidLength(s) - 4 else ValidLength(s);
    if end <= 0 then 0 else (end + 3) / 4
  }

  predicate Readable(s: string, lo: nat, hi: nat)
    requires hi <= |s|
  {
    forall i :: lo <= i < hi ==> Lookup(s[i]).Some?
  }

  function Bits(s: string, i: nat): Sextet {
    if i < |s| && Lookup(s[i]).Some? then Lookup(s[i]).value else 0
  }

  // Four six-bit values regrouped as three bytes.
  function B0(s0: Sextet, s1: Sextet): byte { s0 * 4 + s1 / 16 }
  function B1(s1: Sextet, s2: Sextet): byte { s1 % 16 * 16 + s2 / 4 }
  function B2(s2: Sextet, s3: Sextet): byte { s2 % 4 * 64 + s3 }

  // Reading off the digits of a number in base 256.
  lemma Digits(q: int, r: int)
    requires 0 <= r < 256
    ensures (q * 256 + r) / 256 == q && (q * 256 + r) % 256 == r
  {
  }

  lemma TopDigit(q: int, r: int)
    requires 0 <= r < 65536
    ensures (q * 65536 + r) / 65536 == q
  {
  }

  lemma ChunkHigh(s0: Sextet, s1: Sextet, s2: Sextet, s3: Sextet)
    ensures (s0 * 262144 + s1 * 4096 + s2 * 64 + s3) / 65536 % 256 == B0(s0, s1)
  {
    var high: int, rest: int := s0 * 4 + s1 / 16, s1 % 16 * 4096 + s2 * 64 + s3;
    assert s0 * 262144 + s1 * 4096 + s2 * 64 + s3 == high * 65536 + rest && 0 <= rest < 65536;
    TopDigit(high, rest);
    Digits(0, high);
  }

  lemma ChunkMiddle(s0: Sextet, s1: Sextet, s2: Sextet, s3: Sextet)
    ensures (s0 * 262144 + s1 * 4096 + s2 * 64 + s3) / 256 % 256 == B1(s1, s2)
  {
    var high: int, middle: int, low: int := s0 * 4 + s1 / 16, s1 % 16 * 16 + s2 / 4, s2 % 4 * 64 + s3;
    assert s0 * 262144 + s1 * 4096 + s2 * 64 + s3 == (high * 256 + middle) * 256 + low;
    Digits(high * 256 + middle, low);
    Digits(high, middle);
  }

  lemma ChunkLow(s0: Sextet, s1: Sextet, s2: Sextet, s3: Sextet)
    ensures (s0 * 262144 + s1 * 4096 + s2 * 64 + s3) % 256 == B2(s2, s3)
  {
    var low: int := s2 % 4 * 64 + s3;
    assert s0 * 262144 + s1 * 4096 + s2 * 64 + s3 == (s0 * 1024 + s1 * 16 + s2 / 4) * 256 + low;
    Digits(s0 * 1024 + s1 * 16 + s2 / 4, low);
  }

  lemma Regrouped(b0: byte, b1: byte, b2: byte)
    ensures B0(S0(b0), S1(b0, b1)) == b0 && B1(S1(b0, b1), S2(b1, b2)) == b1 && B2(S2(b1, b2), S3(b2)) == b2
  {
  }

  function Group(s: string, at: nat): (r: seq<byte>)
    ensures |r| == 3
  {
    [B0(Bits(s, at), Bits(s, at + 1)), B1(Bits(s, at + 1), Bits(s, at + 2)), B2(Bits(s, at + 2), Bits(s, at + 3))]
  }

  function WholeGroups(s: string, count: nat): (r: seq<byte>)
    ensures |r| == 3 * count
  {
    if count == 0 then [] else WholeGroups(s, count - 1) + Group(s, 4 * (count - 1))
  }

  function TailBytes(s: string, at: nat): seq<byte> {
    var p := Placeholders(s);
    if p == 2 then
      [B0(Bits(s, at), Bits(s, at + 1))]
    else if p == 1 then
      [B0(Bits(s, at), Bits(s, at + 1)), B1(Bits(s, at + 1), Bits(s, at + 2))]
    else
      []
  }

  // Which characters of the tail the decoder reads.
  function TailReads(s: string): nat {
    var p := Placeholders(s);
    if p == 2 then 2 else if p == 1 then 3 else 0
  }

  function Zeros(n: int): seq<byte> {
    if n <= 0 then [] else seq(n, i => 0)
  }

  // What decodeBase64 returns for any string at all; None where it throws.
  function Decode(s: string): Option<seq<byte>> {
    if |s| % 4 != 0 || OutputLength(s) < 0 then None
    else
      DecodeLayout(s);
      if !Readable(s, 0, 4 * Groups(s) + TailReads(s)) then None
      else
        var data := WholeGroups(s, Groups(s)) + TailBytes(s, 4 * Groups(s));
        Some(data + Zeros(OutputLength(s) - |data|))
  }

  // Every read lies before the first padding character and every write inside the output buffer.
  lemma DecodeLayout(s: string)
    requires |s| % 4 == 0 && OutputLength(s) >= 0
    ensures 4 * Groups(s) + TailReads(s) <= ValidLength(s)
    ensures 3 * Groups(s) + |TailBytes(s, 4 * Groups(s))| <= OutputLength(s)
  {
    var valid, p := ValidLength(s), Placeholders(s);
    var k, r := valid / 4, valid % 4;
    assert valid == 4 * k + r;
    if p == 0 {
      assert r == 0;
      assert Groups(s) == k;
    } else {
      assert p == 4 - r;
      assert OutputLength(s) == 3 * (k + 1) - p;
      assert Groups(s) <= k;
      if r == 0 {
        assert k == 0 || Groups(s) == k - 1;
      }
    }
  }

  method DecodeBase64(value: string) returns (result: Option<seq<byte>>)
    ensures result == Decode(value)
  {
    hide Lookup, ValidLength, TailBytes, Group;
    if |value| % 4 != 0 {
      return None;
    }
    var validLength := ValidLength(value);
    var placeholderLength := Placeholders(value);
    var outputLength := OutputLength(value);
    if outputLength < 0 {
      return None;
    }
    DecodeLayout(value);
    var bytes := new byte[outputLength](i => 0);
    var byteIndex, index;
    var end: int := validLength;
    if placeholderLength > 0 {
      end := end - 4;
    }
    var readable;
    readable, index, byteIndex := DecodeGroups(value, end, bytes);
    if !readable {
      return None;
    }
    hide Placeholders, OutputLength, Groups, WholeGroups;
    if !Readable(value, index, index + TailReads(value)) {
      return None;
    }
    ghost var head := bytes[..byteIndex];
    byteIndex := DecodeTail(value, index, bytes, byteIndex);
    assert bytes[..byteIndex] == head + TailBytes(value, index);
    assert bytes[..] == bytes[..byteIndex] + Zeros(outputLength - byteIndex);
    result := Some(bytes[..]);
  }

  // The loop over whole groups; it stops at a character outside the alphabet.
  method DecodeGroups(value: string, end: int, bytes: array<byte>) returns (readable: bool, index: nat, byteIndex: nat)
    requires end == (if Placeholders(value) > 0 then ValidLength(value) - 4 else ValidLength(value))
    requires 4 * Groups(value) <= |value| && 3 * Groups(value) <= bytes.Length
    requires forall i :: 0 <= i < bytes.Length ==> bytes[i] == 0
    modifies bytes
    ensures readable == Readable(value, 0, 4 * Groups(value))
    ensures readable ==>
              && index == 4 * Groups(value) && byteIndex == 3 * Groups(value)
              && bytes[..byteIndex] == WholeGroups(value, Groups(value))
              && forall i :: byteIndex <= i < bytes.Length ==> bytes[i] == 0
  {
    hide Lookup, ValidLength, Group, Placeholders;
    index, byteIndex := 0, 0;
    ghost var count := 0;
    while index < end
      invariant 0 <= count <= Groups(value)
      invariant index == 4 * count && byteIndex == 3 * count
      invariant Readable(value, 0, index)
      invariant bytes[..byteIndex] == WholeGroups(value, count)
      invariant forall i :: byteIndex <= i < bytes.Length ==> bytes[i] == 0
      decreases end - index
    {
      if !Readable(value, index, index + 4) {
        return false, index, byteIndex;
      }
      ghost var before := bytes[..byteIndex];
      DecodeGroup(value, index, bytes, byteIndex);
      assert bytes[..byteIndex + 3] == before + Group(value, index);
      byteIndex := byteIndex + 3;
      index := index + 4;
      count := count + 1;
    }
    readable := true;
  }

  method DecodeGroup(value: string, index: nat, bytes: array<byte>, byteIndex: nat)
    requires index + 4 <= |value| && Readable(value, index, index + 4) && byteIndex + 3 <= bytes.Length
    modifies bytes
    ensures bytes[..] == old(bytes[..byteIndex]) + Group(value, index) + old(bytes[byteIndex + 3..])
  {
    hide Lookup, B0, B1, B2;
    var d0: int, d1: int := Lookup(value[index]).value, Lookup(value[index + 1]).value;
    var d2: int, d3: int := Lookup(value[index + 2]).value, Lookup(value[index + 3]).value;
    var chunk: int := d0 * 262144 + d1 * 4096 + d2 * 64 + d3;
    ChunkHigh(d0, d1, d2, d3);
    ChunkMiddle(d0, d1, d2, d3);
    ChunkLow(d0, d1, d2, d3);
    bytes[byteIndex] := chunk / 65536 % 256;
    bytes[byteIndex + 1] := chunk / 256 % 256;
    bytes[byteIndex + 2] := chunk % 256;
  }

  lemma TailChunk(s0: Sextet, s1: Sextet, s2: Sextet)
    ensures var chunk: int := s0 * 1024 + s1 * 16 + s2 / 4;
            chunk / 256 % 256 == B0(s0, s1) && chunk % 256 == B1(s1, s2)
  {
    var chunk: int := s0 * 1024 + s1 * 16 + s2 / 4;
    assert chunk / 256 == s0 * 4 + s1 / 16;
  }

  lemma OneByte(s0: Sextet, s1: Sextet)
    ensures (s0 * 4 + s1 / 16) % 256 == B0(s0, s1)
  {
  }

  method DecodeTail(value: string, index: nat, bytes: array<byte>, byteIndex: nat) returns (next: nat)
    requires index + TailReads(value) <= |value| && Readable(value, index, index + TailReads(value))
    requires byteIndex + |TailBytes(value, index)| <= bytes.Length
    modifies bytes
    ensures next == byteIndex + |TailBytes(value, index)|
    ensures bytes[..] == old(bytes[..byteIndex]) + TailBytes(value, index) + old(bytes[next..])
  {
    hide Lookup, ValidLength, Placeholders, B0, B1;
    next := byteIndex;
    if Placeholders(value) == 2 {
      var d0: int, d1: int := Lookup(value[index]).value, Lookup(value[index + 1]).value;
      var chunk: int := d0 * 4 + d1 / 16;
      assert chunk % 256 == B0(d0, d1) by {
        OneByte(d0, d1);
      }
      bytes[next] := chunk % 256;
      next := next + 1;
    } else if Placeholders(value) == 1 {
      var d0: int, d1: int := Lookup(value[index]).value, Lookup(value[index + 1]).value;
      var d2: int := Lookup(value[index + 2]).value;
      var chunk: int := d0 * 1024 + d1 * 16 + d2 / 4;
      TailChunk(d0, d1, d2);
      bytes[next] := chunk / 256 % 256;
      bytes[next + 1] := chunk % 256;
      next := next + 2;
    }
  }

  /* ---------- Decoding inverts encoding ---------- */

  lemma {:induction false} EncodedLength(bytes: seq<byte>)
    ensures |Encode(bytes)| == 4 * ((|bytes| + 2) / 3)
  {
    hide Quad, At;
    if |bytes| > 3 {
      EncodedLength(bytes[3..]);
    }
  }

  // The k-th group of four characters is the k-th group of three bytes.
  lemma {:induction false} EncodedGroup(bytes: seq<byte>, k: nat)
    requires 3 * k < |bytes|
    ensures 4 * k + 4 <= |Encode(bytes)|
    ensures Encode(bytes)[4 * k..4 * k + 4]
         == Quad(bytes[3 * k], At(bytes, 3 * k + 1), At(bytes, 3 * k + 2), |bytes| - 3 * k)
  {
    hide Quad;
    EncodedLength(bytes);
    if k > 0 {
      var rest := bytes[3..];
      EncodedGroup(rest, k - 1);
      assert Encode(bytes)[4 * k..4 * k + 4] == Encode(rest)[4 * (k - 1)..4 * (k - 1) + 4];
    }
  }

  lemma SymbolLookup(x: Sextet)
    ensures Lookup(Symbol(x)) == Some(x) && Symbol(x) != '='
  {
  }

  // The bits the decoder reads back from one encoded group.
  lemma EncodedBits(bytes: seq<byte>, k: nat)
    requires 3 * k < |bytes|
    ensures var s, b0, b1, b2 := Encode(bytes), bytes[3 * k], At(bytes, 3 * k + 1), At(bytes, 3 * k + 2);
            && 4 * k + 4 <= |s|
            && Lookup(s[4 * k]) == Some(S0(b0)) && Lookup(s[4 * k + 1]) == Some(S1(b0, b1))
            && (if |bytes| - 3 * k > 1 then Lookup(s[4 * k + 2]) == Some(S2(b1, b2)) else s[4 * k + 2] == '=')
            && (if |bytes| - 3 * k > 2 then Lookup(s[4 * k + 3]) == Some(S3(b2)) else s[4 * k + 3] == '=')
  {
    var s, b0, b1, b2 := Encode(bytes), bytes[3 * k], At(bytes, 3 * k + 1), At(bytes, 3 * k + 2);
    EncodedGroup(bytes, k);
    var quad := s[4 * k..4 * k + 4];
    assert s[4 * k] == quad[0] && s[4 * k + 1] == quad[1] && s[4 * k + 2] == quad[2] && s[4 * k + 3] == quad[3];
    SymbolLookup(S0(b0));
    SymbolLookup(S1(b0, b1));
    SymbolLookup(S2(b1, b2));
    SymbolLookup(S3(b2));
  }

  // Here and below, `k` whole groups are followed by fewer than three bytes.
  lemma EncodedChar(bytes: seq<byte>, k: nat, i: nat)
    requires 3 * k <= |bytes| < 3 * k + 3
    requires i < 4 * k + (if |bytes| == 3 * k then 0 else |bytes| - 3 * k + 1)
    ensures i < |Encode(bytes)| && Lookup(Encode(bytes)[i]).Some? && Encode(bytes)[i] != '='
  {
    hide Encode, S0, S1, S2, S3;
    var g := i / 4;
    EncodedBits(bytes, g);
    assert i == 4 * g || i == 4 * g + 1 || i == 4 * g + 2 || i == 4 * g + 3;
    assert Lookup('=').None?;
  }

  lemma EncodedPadding(bytes: seq<byte>, k: nat)
    requires 3 * k <= |bytes| < 3 * k + 3
    ensures var s, r := Encode(bytes), |bytes| - 3 * k;
            && Placeholders(s) == (if r == 0 then 0 else 3 - r)
            && ValidLength(s) == 4 * k + (if r == 0 then 0 else r + 1) && Groups(s) == k
            && |s| == ValidLength(s) + Placeholders(s) && |s| % 4 == 0 && OutputLength(s) == |bytes|
  {
    hide Encode, Lookup, ValidLength, Placeholders, Groups, OutputLength;
    var s, r := Encode(bytes), |bytes| - 3 * k;
    EncodedLength(bytes);
    assert (|bytes| + 2) / 3 == if r == 0 then k else k + 1;
    var valid := 4 * k + (if r == 0 then 0 else r + 1);
    forall i | 0 <= i < valid
      ensures s[i] != '='
    {
      EncodedChar(bytes, k, i);
    }
    if r != 0 {
      EncodedBits(bytes, k);
      assert s[valid] == '=';
    }
    assert ValidLength(s) == valid by { FirstPadding(s, valid); }
    Layout(s, k, r);
  }

  lemma {:induction false} FirstPadding(s: string, valid: nat)
    requires valid <= |s| && (forall i :: 0 <= i < valid ==> s[i] != '=') && (valid < |s| ==> s[valid] == '=')
    ensures ValidLength(s) == valid
  {
    if valid > 0 {
      FirstPadding(s[1..], valid - 1);
    }
  }

  // The decoder's lengths for k whole groups and r more bytes.
  lemma Layout(s: string, k: nat, r: nat)
    requires r < 3 && |s| == 4 * k + (if r == 0 then 0 else 4)
             && ValidLength(s) == 4 * k + (if r == 0 then 0 else r + 1)
    ensures Placeholders(s) == (if r == 0 then 0 else 3 - r) && Groups(s) == k && |s| % 4 == 0
    ensures |s| == ValidLength(s) + Placeholders(s) && OutputLength(s) == 3 * k + r
  {
    hide ValidLength;
    if r > 0 {
      assert (4 * k + r + 1) % 4 == (r + 1) % 4;
      assert Placeholders(s) == 3 - r;
    }
  }

  lemma {:induction false} DecodedGroups(bytes: seq<byte>, count: nat)
    requires 3 * count <= |bytes|
    ensures WholeGroups(Encode(bytes), count) == bytes[..3 * count]
  {
    hide Encode, Lookup, S0, S1, S2, S3, B0, B1, B2;
    if count > 0 {
      var k := count - 1;
      DecodedGroups(bytes, k);
      EncodedBits(bytes, k);
      Regrouped(bytes[3 * k], bytes[3 * k + 1], bytes[3 * k + 2]);
      assert bytes[..3 * count] == bytes[..3 * k] + [bytes[3 * k], bytes[3 * k + 1], bytes[3 * k + 2]];
    }
  }

  lemma TailOfOne(s: string, at: nat, b0: byte, b1: byte)
    requires Placeholders(s) == 2 && at + 1 < |s|
    requires Lookup(s[at]) == Some(S0(b0)) && Lookup(s[at + 1]) == Some(S1(b0, b1))
    ensures TailBytes(s, at) == [b0]
  {
    hide Lookup, Placeholders, S0, S1, B0;
    Regrouped(b0, b1, 0);
  }

  lemma TailOfTwo(s: string, at: nat, b0: byte, b1: byte, b2: byte)
    requires Placeholders(s) == 1 && at + 2 < |s|
    requires Lookup(s[at]) == Some(S0(b0)) && Lookup(s[at + 1]) == Some(S1(b0, b1))
             && Lookup(s[at + 2]) == Some(S2(b1, b2))
    ensures TailBytes(s, at) == [b0, b1]
  {
    hide Lookup, Placeholders, S0, S1, S2, B0, B1;
    Regrouped(b0, b1, b2);
  }

  lemma DecodedTail(bytes: seq<byte>, k: nat)
    requires 3 * k <= |bytes| < 3 * k + 3
    ensures TailBytes(Encode(bytes), 4 * k) == bytes[3 * k..]
  {
    hide *;
    PaddingCount(bytes, k);
    if |bytes| == 3 * k {
      TailOfNone(Encode(bytes), 4 * k);
    } else {
      DecodedRest(bytes, k);
    }
  }

  lemma PaddingCount(bytes: seq<byte>, k: nat)
    requires 3 * k <= |bytes| < 3 * k + 3
    ensures Placeholders(Encode(bytes)) == if |bytes| == 3 * k then 0 else 3 * k + 3 - |bytes|
  {
    hide *;
    EncodedPadding(bytes, k);
  }

  lemma TailOfNone(s: string, at: nat)
    requires Placeholders(s) == 0
    ensures TailBytes(s, at) == []
  {
    hide Placeholders;
  }

  lemma DecodedRest(bytes: seq<byte>, k: nat)
    requires 3 * k < |bytes| < 3 * k + 3 && Placeholders(Encode(bytes)) == 3 * k + 3 - |bytes|
    ensures TailBytes(Encode(bytes), 4 * k) == bytes[3 * k..]
  {
    hide Encode, Lookup, Placeholders, S0, S1, S2, S3, TailBytes;
    var s, b0, b1, b2 := Encode(bytes), bytes[3 * k], At(bytes, 3 * k + 1), At(bytes, 3 * k + 2);
    EncodedBits(bytes, k);
    if |bytes| == 3 * k + 2 {
      TailOfTwo(s, 4 * k, b0, b1, b2);
      assert bytes[3 * k..] == [b0, b1];
    } else {
      TailOfOne(s, 4 * k, b0, b1);
      assert bytes[3 * k..] == [b0];
    }
  }

  lemma EncodedReadable(bytes: seq<byte>, k: nat)
    requires 3 * k <= |bytes| < 3 * k + 3
    ensures 4 * k + TailReads(Encode(bytes)) <= |Encode(bytes)|
    ensures Readable(Encode(bytes), 0, 4 * k + TailReads(Encode(bytes)))
  {
    hide Encode, Lookup, ValidLength, Placeholders, Groups, OutputLength;
    EncodedPadding(bytes, k);
    forall i | 0 <= i < 4 * k + TailReads(Encode(bytes))
      ensures Lookup(Encode(bytes)[i]).Some?
    {
      EncodedChar(bytes, k, i);
    }
  }

  lemma DecodedParts(s: string, k: nat, bytes: seq<byte>)
    requires |s| % 4 == 0 && OutputLength(s) == |bytes| && Groups(s) == k && 3 * k <= |bytes|
    requires 4 * k + TailReads(s) <= |s| && Readable(s, 0, 4 * k + TailReads(s))
    requires WholeGroups(s, k) == bytes[..3 * k] && TailBytes(s, 4 * k) == bytes[3 * k..]
    ensures Decode(s) == Some(bytes)
  {
    hide Lookup, Placeholders, Groups, WholeGroups, TailBytes, OutputLength, TailReads, Readable;
    var data := WholeGroups(s, k) + TailBytes(s, 4 * k);
    assert data == bytes;
    assert data + Zeros(OutputLength(s) - |data|) == data;
  }

  lemma DecodeInvertsEncode(bytes: seq<byte>)
    ensures Decode(Encode(bytes)) == Some(bytes)
    ensures OutputLength(Encode(bytes)) == |bytes|
  {
    hide *;
    var k := |bytes| / 3;
    EncodedPadding(bytes, k);
    DecodedGroups(bytes, k);
    DecodedTail(bytes, k);
    EncodedReadable(bytes, k);
    DecodedParts(Encode(bytes), k, bytes);
  }

  /* ---------- The URL-safe alphabet ---------- */

  function UrlSafeChar(c: char): char {
    if c == '+' then '-' else if c == '/' then '_' else c
  }

  function UrlSafe(s: string): (r: string)
    ensures |r| == |s|
  {
    seq(|s|, i requires 0 <= i < |s| => UrlSafeChar(s[i]))
  }

  lemma {:induction false} SameValidLength(s: string, t: string)
    requires |s| == |t|
    requires forall i :: 0 <= i < |s| ==> Lookup(s[i]) == Lookup(t[i]) && (s[i] == '=' <==> t[i] == '=')
    ensures ValidLength(s) == ValidLength(t)
  {
    if s != "" && s[0] != '=' {
      SameValidLength(s[1..], t[1..]);
    }
  }

  lemma {:induction false} SameGroups(s: string, t: string, count: nat)
    requires |s| == |t|
    requires forall i :: 0 <= i < |s| ==> Lookup(s[i]) == Lookup(t[i])
    ensures WholeGroups(s, count) == WholeGroups(t, count)
  {
    if count > 0 {
      SameGroups(s, t, count - 1);
    }
  }

  lemma UrlSafeLookup(c: char)
    ensures Lookup(UrlSafeChar(c)) == Lookup(c) && (UrlSafeChar(c) == '=' <==> c == '=')
  {
  }

  // For every input, well formed or not.
  lemma UrlSafeDecodesAlike(s: string)
    ensures Decode(UrlSafe(s)) == Decode(s)
  {
    hide Lookup, ValidLength, WholeGroups, UrlSafeChar;
    var t := UrlSafe(s);
    forall i | 0 <= i < |s|
      ensures Lookup(t[i]) == Lookup(s[i]) && (t[i] == '=' <==> s[i] == '=')
    {
      UrlSafeLookup(s[i]);
    }
    SameValidLength(s, t);
    assert Placeholders(s) == Placeholders(t);
    assert Groups(s) == Groups(t) && OutputLength(s) == OutputLength(t) && TailReads(s) == TailReads(t);
    hide Placeholders, OutputLength;
    SameGroups(s, t, Groups(s));
    SameTail(s, t, 4 * Groups(s));
    hide Groups, TailBytes, TailReads;
    if |s| % 4 == 0 && OutputLength(s) >= 0 {
      DecodeLayout(s);
      assert Readable(s, 0, 4 * Groups(s) + TailReads(s)) <==> Readable(t, 0, 4 * Groups(s) + TailReads(s));
    }
  }

  lemma SameTail(s: string, t: string, at: nat)
    requires |s| == |t| && Placeholders(s) == Placeholders(t)
    requires forall i :: 0 <= i < |s| ==> Lookup(s[i]) == Lookup(t[i])
    ensures TailBytes(s, at) == TailBytes(t, at)
  {
    hide Lookup, Placeholders;
  }

  /* ---------- Which text encodes which bytes, and what any text decodes to ---------- */

  // The alphabet and the two URL-safe characters are read back, and nothing else.
  lemma LookupExactly(c: char, x: Sextet)
    ensures |Alphabet()| == 64
    ensures Lookup(c) == Some(x) <==> c == Alphabet()[x] || (x == 62 && c == '-') || (x == 63 && c == '_')
  {
    hide Alphabet;
    AlphabetSymbol(x);
  }

  function InBase256(x: int, y: int, z: int): int { x * 65536 + y * 256 + z }

  function InBase64(a: int, b: int, c: int, d: int): int { a * 262144 + b * 4096 + c * 64 + d }

  // Four characters spell, in base 64, the number that three bytes spell in base 256; what is
  // missing of the last group counts as zero and is written as padding.
  lemma EncodedChunk(bytes: seq<byte>, k: nat) returns (a: Sextet, b: Sextet, c: Sextet, d: Sextet)
    requires 3 * k < |bytes|
    ensures var s, left := Encode(bytes), |bytes| - 3 * k;
            && |Alphabet()| == 64 && 4 * k + 4 <= |s|
            && s[4 * k] == Alphabet()[a] && s[4 * k + 1] == Alphabet()[b]
            && s[4 * k + 2] == (if left > 1 then Alphabet()[c] else '=')
            && s[4 * k + 3] == (if left > 2 then Alphabet()[d] else '=')
            && InBase64(a, b, c, d)
               == InBase256(bytes[3 * k], if left > 1 then bytes[3 * k + 1] else 0,
                            if left > 2 then bytes[3 * k + 2] else 0)
  {
    hide Alphabet, Symbol, Encode;
    var b0, b1, b2 := bytes[3 * k], At(bytes, 3 * k + 1), At(bytes, 3 * k + 2);
    EncodedGroup(bytes, k);
    var quad := Encode(bytes)[4 * k..4 * k + 4];
    assert Encode(bytes)[4 * k] == quad[0] && Encode(bytes)[4 * k + 1] == quad[1];
    assert Encode(bytes)[4 * k + 2] == quad[2] && Encode(bytes)[4 * k + 3] == quad[3];
    a, b, c, d := S0(b0), S1(b0, b1), S2(b1, b2), S3(b2);
    AlphabetSymbol(a);
    AlphabetSymbol(b);
    AlphabetSymbol(c);
    AlphabetSymbol(d);
    ChunkSum(b0, b1, b2);
  }

  lemma ChunkSum(b0: byte, b1: byte, b2: byte)
    ensures InBase64(S0(b0), S1(b0, b1), S2(b1, b2), S3(b2)) == InBase256(b0, b1, b2)
  {
    assert b0 == 4 * (b0 / 4) + b0 % 4 && b1 == 16 * (b1 / 16) + b1 % 16 && b2 == 64 * (b2 / 64) + b2 % 64;
  }

  // How many characters are decoded, and to how many bytes, for the first padding character at
  // `valid`: a lone character before the padding is dropped, and so is a whole group before
  // superfluous padding, which leaves two zero bytes in its place.
  function Needed(valid: nat, length: nat): int {
    if valid == length || valid % 4 >= 2 then valid else if valid % 4 == 1 then valid - 1 else valid - 4
  }

  function Yield(valid: nat, length: nat): int {
    var k := valid / 4;
    if valid == length then 3 * k
    else if valid % 4 == 0 then 3 * k - 1
    else if valid % 4 == 1 then 3 * k
    else 3 * k + valid % 4 - 1
  }

  lemma Extent(s: string)
    requires |s| % 4 == 0
    ensures OutputLength(s) == Yield(ValidLength(s), |s|)
    ensures OutputLength(s) >= 0 ==> 4 * Groups(s) + TailReads(s) == Needed(ValidLength(s), |s|)
    ensures OutputLength(s) < 0 <==> ValidLength(s) == 0 && s != ""
    ensures OutputLength(s) >= 0 ==> Groups(s) == Needed(ValidLength(s), |s|) / 4
  {
    hide ValidLength;
    var valid := ValidLength(s);
    var k, r := valid / 4, valid % 4;
    assert valid == 4 * k + r;
    if valid < |s| {
      assert Placeholders(s) == 4 - r;
    }
  }

  // Decoding throws exactly for a length that is no multiple of four, for text that begins with
  // padding, and for a foreign character among those that are decoded.
  lemma DecodeThrowsExactly(s: string)
    ensures Decode(s) == None
       <==> || |s| % 4 != 0 || (s != "" && s[0] == '=')
            || exists i :: 0 <= i < Needed(ValidLength(s), |s|) && Lookup(s[i]) == None
    ensures |s| % 4 == 0 && s != "" && s[0] != '=' ==> Needed(ValidLength(s), |s|) <= |s|
  {
    hide Lookup, ValidLength, WholeGroups, TailBytes, Placeholders, Groups, OutputLength, TailReads;
    if |s| % 4 == 0 {
      Extent(s);
      if OutputLength(s) >= 0 {
        DecodeLayout(s);
      }
    }
  }

  lemma {:induction false} WholeGroupAt(s: string, count: nat, j: nat)
    requires j < count
    ensures WholeGroups(s, count)[3 * j..3 * j + 3] == Group(s, 4 * j)
  {
    hide Group;
    var r := WholeGroups(s, count - 1);
    if j < count - 1 {
      WholeGroupAt(s, count - 1, j);
      assert WholeGroups(s, count)[3 * j..3 * j + 3] == r[3 * j..3 * j + 3];
    }
  }

  lemma GroupSum(s0: Sextet, s1: Sextet, s2: Sextet, s3: Sextet)
    ensures InBase256(B0(s0, s1), B1(s1, s2), B2(s2, s3)) == InBase64(s0, s1, s2, s3)
  {
    assert s1 == 16 * (s1 / 16) + s1 % 16 && s2 == 4 * (s2 / 4) + s2 % 4;
  }

  // What it returns otherwise: every whole group spells the same number in both bases, and the
  // rest of the bytes are those of the shorter last group, or zeros.
  lemma DecodedChunk(s: string, j: nat)
    requires Decode(s).Some? && 4 * j + 4 <= Needed(ValidLength(s), |s|)
    ensures var d := Decode(s).value;
            && 3 * j + 3 <= |d| == Yield(ValidLength(s), |s|)
            && InBase256(d[3 * j], d[3 * j + 1], d[3 * j + 2])
               == InBase64(Bits(s, 4 * j), Bits(s, 4 * j + 1), Bits(s, 4 * j + 2), Bits(s, 4 * j + 3))
  {
    hide Lookup, ValidLength, Placeholders, OutputLength, TailReads, TailBytes, WholeGroups, Bits, Groups, B0, B1, B2;
    DecodedWhole(s);
    var d := Decode(s).value;
    WholeGroupAt(s, Groups(s), j);
    var group := WholeGroups(s, Groups(s))[3 * j..3 * j + 3];
    assert d[3 * j] == group[0] && d[3 * j + 1] == group[1] && d[3 * j + 2] == group[2];
    GroupSum(Bits(s, 4 * j), Bits(s, 4 * j + 1), Bits(s, 4 * j + 2), Bits(s, 4 * j + 3));
  }

  lemma DecodedWhole(s: string)
    requires Decode(s).Some?
    ensures var d, groups := Decode(s).value, Groups(s);
            && |d| == Yield(ValidLength(s), |s|) && groups == Needed(ValidLength(s), |s|) / 4
            && WholeGroups(s, groups) <= d && 3 * groups + |TailBytes(s, 4 * groups)| <= |d|
            && d[3 * groups..3 * groups + |TailBytes(s, 4 * groups)|] == TailBytes(s, 4 * groups)
            && forall i :: 3 * groups + |TailBytes(s, 4 * groups)| <= i < |d| ==> d[i] == 0
  {
    hide Lookup, ValidLength, Placeholders, OutputLength, TailReads, TailBytes, WholeGroups, Groups, Readable;
    Extent(s);
    DecodeLayout(s);
    var groups := Groups(s);
    var whole, tail := WholeGroups(s, groups), TailBytes(s, 4 * groups);
    assert Decode(s).value == whole + tail + Zeros(OutputLength(s) - |whole + tail|);
  }

  lemma DecodedEnd(s: string)
    requires Decode(s).Some?
    ensures var d, valid := Decode(s).value, ValidLength(s);
            var k := valid / 4;
            && |d| == Yield(valid, |s|)
            && (valid < |s| && valid % 4 == 2 ==>
                  d[3 * k] == InBase64(0, 0, Bits(s, 4 * k), Bits(s, 4 * k + 1)) / 16)
            && (valid < |s| && valid % 4 == 3 ==>
                  InBase256(0, d[3 * k], d[3 * k + 1])
                  == InBase64(0, Bits(s, 4 * k), Bits(s, 4 * k + 1), Bits(s, 4 * k + 2)) / 4)
            && (valid < |s| && valid % 4 == 0 ==> d[3 * k - 3] == 0 && d[3 * k - 2] == 0)
  {
    hide Lookup, ValidLength, WholeGroups, Bits;
    DecodedWhole(s);
    Extent(s);
    var d, valid := Decode(s).value, ValidLength(s);
    var k := valid / 4;
    assert valid == 4 * k + valid % 4;
    hide Decode, Groups, OutputLength, TailReads;
    if valid < |s| && valid % 4 >= 2 {
      assert Groups(s) == k;
      var tail := TailBytes(s, 4 * k);
      assert d[3 * k] == d[3 * k..3 * k + |tail|][0];
      assert |tail| > 1 ==> d[3 * k + 1] == d[3 * k..3 * k + |tail|][1];
      TailSum(Bits(s, 4 * k), Bits(s, 4 * k + 1), Bits(s, 4 * k + 2));
    } else if valid < |s| && valid % 4 == 0 {
      assert Groups(s) == k - 1;
    }
  }

  lemma TailSum(s0: Sextet, s1: Sextet, s2: Sextet)
    ensures B0(s0, s1) == InBase64(0, 0, s0, s1) / 16
    ensures InBase256(0, B0(s0, s1), B1(s1, s2)) == InBase64(0, s0, s1, s2) / 4
  {
    assert s1 == 16 * (s1 / 16) + s1 % 16;
  }
}
