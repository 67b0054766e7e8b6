// Strings: the lexicographic order behind Go's and JavaScript's `<`, and decimal integers.
module Text {
  import opened Results

  type int64 = x: int | -0x8000_0000_0000_0000 <= x < 0x8000_0000_0000_0000

  /* ---------- Lexicographic order ---------- */

  predicate Less(a: string, b: string) {
    b != "" && (a == "" || a[0] < b[0] || (a[0] == b[0] && Less(a[1..], b[1..])))
  }

  lemma {:induction false} LessTrichotomy(a: string, b: string)
    ensures Less(a, b) || a == b || Less(b, a)
    ensures !(Less(a, b) && Less(b, a)) && !Less(a, a)
  {
    if a != "" {
      LessTrichotomy(a[1..], a[1..]);
    }
    if a != "" && b != "" && a[0] == b[0] {
      LessTrichotomy(a[1..], b[1..]);
      assert a == [a[0]] + a[1..] && b == [b[0]] + b[1..];
    }
  }

  lemma {:induction false} LessTransitive(a: string, b: string, c: string)
    requires Less(a, b) && Less(b, c)
    ensures Less(a, c)
  {
    if a != "" && a[0] == b[0] && b[0] == c[0] {
      LessTransitive(a[1..], b[1..], c[1..]);
    }
  }

  // The strings agree up to position `i`, where `a` ends or has the smaller character.
  ghost predicate TurnsAt(a: string, b: string, i: nat) {
    i <= |a| && i < |b| && a[..i] == b[..i] && (i == |a| || a[i] < b[i])
  }

  ghost predicate ComesBefore(a: string, b: string) { exists i: nat :: TurnsAt(a, b, i) }

  lemma SameStart(a: string, b: string, i: nat)
    ensures 0 < i <= |a| && i <= |b| && a[..i] == b[..i] ==> a[0] == b[0]
  {
    if 0 < i <= |a| && i <= |b| {
      assert a[..i][0] == a[0] && b[..i][0] == b[0];
    }
  }

  // A string is less than another exactly if it turns before it somewhere.
  lemma {:induction false} LessExactly(a: string, b: string)
    ensures Less(a, b) <==> ComesBefore(a, b)
  {
    if b != "" && (a == "" || a[0] < b[0]) {
      assert TurnsAt(a, b, 0);
    } else if a != "" && b != "" && a[0] == b[0] {
      LessExactly(a[1..], b[1..]);
      forall i: nat | TurnsAt(a, b, i)
        ensures i > 0 && TurnsAt(a[1..], b[1..], i - 1)
      {
        assert a[1..][..i - 1] == a[..i][1..] && b[1..][..i - 1] == b[..i][1..];
      }
      forall i: nat | TurnsAt(a[1..], b[1..], i)
        ensures TurnsAt(a, b, i + 1)
      {
        assert a[..i + 1] == [a[0]] + a[1..][..i] && b[..i + 1] == [b[0]] + b[1..][..i];
      }
    } else {
      forall i: nat
        ensures !TurnsAt(a, b, i)
      {
        SameStart(a, b, i);
      }
    }
  }

  /* ---------- strconv.FormatInt and strconv.ParseInt in base ten ---------- */

  function DigitChar(d: int): char
    requires 0 <= d < 10
  {
    ('0' as int + d) as char
  }

  function FormatNat(n: nat): (s: string)
    ensures s != "" && forall i :: 0 <= i < |s| ==> '0' <= s[i] <= '9'
  {
    if n < 10 then [DigitChar(n)] else FormatNat(n / 10) + [DigitChar(n % 10)]
  }

  function FormatInt(n: int): string {
    if n < 0 then "-" + FormatNat(-n) else FormatNat(n)
  }

  function ParseNat(s: string): Option<nat> {
    if s == "" then None
    else
      var last := s[|s| - 1];
      if !('0' <= last <= '9') then None
      else
        var digit := last as int - '0' as int;
        if |s| == 1 then Some(digit)
        else
          match ParseNat(s[..|s| - 1])
          case None => None
          case Some(n) => Some(10 * n + digit)
  }

  function SignedInt(negative: bool, magnitude: int): int {
    if negative then -magnitude else magnitude
  }

  // None for a malformed or out-of-range literal.
  function ParseInt64(s: string): Option<int64> {
    var negative := s != "" && s[0] == '-';
    match ParseNat(if s != "" && (s[0] == '-' || s[0] == '+') then s[1..] else s)
    case None => None
    case Some(n) =>
      var value := SignedInt(negative, n);
      if -0x8000_0000_0000_0000 <= value < 0x8000_0000_0000_0000 then Some(value) else None
  }

  lemma {:induction false} ParseFormatNat(n: nat)
    ensures ParseNat(FormatNat(n)) == Some(n)
  {
    if n >= 10 {
      ParseFormatNat(n / 10);
      var s := FormatNat(n);
      assert s[..|s| - 1] == FormatNat(n / 10);
      assert 10 * (n / 10) + n % 10 == n;
    }
  }

  predicate HasAny(s: string, chars: string) {
    exists i :: 0 <= i < |s| && s[i] in chars
  }

  lemma FormatIntPlain(n: int)
    ensures !HasAny(FormatInt(n), ".eE")
  {
    hide FormatNat;
    forall i | 0 <= i < |FormatInt(n)|
      ensures FormatInt(n)[i] == '-' || '0' <= FormatInt(n)[i] <= '9'
    {
    }
  }

  lemma ParseFormatInt(n: int64)
    ensures ParseInt64(FormatInt(n)) == Some(n)
  {
    hide FormatNat, ParseNat;
    var magnitude: nat := SignedInt(n < 0, n);
    ParseFormatNat(magnitude);
    var s := FormatInt(n);
    if n < 0 {
      assert s[1..] == FormatNat(magnitude);
    } else {
      assert s == FormatNat(magnitude);
    }
  }

  /* ---------- Decimal positions ---------- */

  function Pow10(k: nat): nat { if k == 0 then 1 else 10 * Pow10(k - 1) }

  lemma {:induction false} Pow10Positive(k: nat)
    ensures Pow10(k) > 0
  {
    if k > 0 {
      Pow10Positive(k - 1);
    }
  }

  // The digit of a number k places from the right.
  function DigitAt(n: nat, k: nat): nat {
    if k == 0 then n % 10 else DigitAt(n / 10, k - 1)
  }

  // A string is read as a number exactly if it is made of digits: those of the number, place by
  // place, and nothing beyond them.
  lemma {:induction false} ParseNatExactly(s: string)
    ensures ParseNat(s).Some? <==> s != "" && forall i :: 0 <= i < |s| ==> '0' <= s[i] <= '9'
    ensures ParseNat(s).Some? ==>
              var n := ParseNat(s).value;
              n < Pow10(|s|) && forall k :: 0 <= k < |s| ==> s[|s| - 1 - k] as int == '0' as int + DigitAt(n, k)
  {
    if s != "" {
      var front, last := s[..|s| - 1], s[|s| - 1];
      ParseNatExactly(front);
      assert s == front + [last];
      if ParseNat(s).Some? && |s| > 1 {
        var n, m := ParseNat(s).value, ParseNat(front).value;
        assert n / 10 == m && n % 10 == last as int - '0' as int;
        forall k | 0 <= k < |s|
          ensures s[|s| - 1 - k] as int == '0' as int + DigitAt(n, k)
        {
          if k > 0 {
            assert front[|front| - 1 - (k - 1)] as int == '0' as int + DigitAt(m, k - 1);
          }
        }
      }
    }
  }

  // A number is spelled by its digits, without leading zeros.
  lemma {:induction false} FormatNatExactly(n: nat)
    ensures var s := FormatNat(n);
            && (|s| > 1 ==> s[0] != '0')
            && n < Pow10(|s|) && forall k :: 0 <= k < |s| ==> s[|s| - 1 - k] as int == '0' as int + DigitAt(n, k)
  {
    ParseFormatNat(n);
    ParseNatExactly(FormatNat(n));
    NoLeadingZero(n);
  }

  lemma {:induction false} NoLeadingZero(n: nat)
    ensures FormatNat(n)[0] == '0' <==> n == 0
  {
    if n >= 10 {
      NoLeadingZero(n / 10);
    }
  }

  // A sign may come first, and the number has to fit.
  lemma ParseInt64Exactly(s: string, n: int64)
    requires s != "" && s[0] != '-' && s[0] != '+'
    ensures ParseInt64(s) == Some(n) <==> ParseNat(s).Some? && ParseNat(s).value == n
    ensures ParseInt64("+" + s) == Some(n) <==> ParseNat(s).Some? && ParseNat(s).value == n
    ensures ParseInt64("-" + s) == Some(n) <==> ParseNat(s).Some? && 0 - ParseNat(s).value == n
    ensures ParseInt64("-") == None && ParseInt64("+") == None && ParseInt64("") == None
  {
    hide ParseNat;
    assert ("+" + s)[1..] == s && ("-" + s)[1..] == s;
    assert "-"[1..] == "" && "+"[1..] == "";
    assert ParseNat("") == None by { ParseNatExactly(""); }
  }

  lemma DoubleSign(s: string)
    requires s != "" && (s[0] == '-' || s[0] == '+')
    ensures ParseInt64("-" + s) == None && ParseInt64("+" + s) == None
  {
    ParseNatExactly(s);
    assert ("+" + s)[1..] == s && ("-" + s)[1..] == s;
  }
}
