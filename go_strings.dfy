/**
 * The parts of Go's strings, strconv and path/filepath packages the core relies on:
 * strings.Split with a one-character separator, strings.Join, strings.TrimSpace,
 * strings.HasPrefix / TrimPrefix, strconv.Atoi / Itoa and filepath.Join.
 */
module GoStrings {
  import opened Wrappers
  import opened Errors

  // ---------------------------------------------------------------------------
  // strings.Split and strings.Join

  /** strings.Split(s, sep): the pieces of s between occurrences of sep; never empty. */
  function Split(s: string, sep: char): (parts: seq<string>)
    ensures |parts| >= 1
    ensures forall i :: 0 <= i < |parts| ==> sep !in parts[i]
    decreases |s|
  {
    if |s| == 0 then [""]
    else
      var rest := Split(s[1..], sep);
      if s[0] == sep then [""] + rest
      else [[s[0]] + rest[0]] + rest[1..]
  }

  /** strings.Join(parts, sep) for a non-empty list. */
  function JoinWith(parts: seq<string>, sep: char): string
    requires |parts| >= 1
    decreases |parts|
  {
    if |parts| == 1 then parts[0] else parts[0] + [sep] + JoinWith(parts[1..], sep)
  }

  /** Joining the pieces back gives the original string. */
  lemma {:induction false} JoinSplit(s: string, sep: char)
    ensures JoinWith(Split(s, sep), sep) == s
    decreases |s|
  {
    if |s| > 0 {
      var rest := Split(s[1..], sep);
      JoinSplit(s[1..], sep);
      if s[0] == sep {
        assert Split(s, sep) == [""] + rest;
        assert ([""] + rest)[1..] == rest;
        assert s == [sep] + s[1..];
      } else if |rest| > 1 {
        assert JoinWith(rest, sep) == rest[0] + [sep] + JoinWith(rest[1..], sep);
        var parts := [[s[0]] + rest[0]] + rest[1..];
        assert parts[1..] == rest[1..];
        assert s == [s[0]] + s[1..];
      } else {
        assert s == [s[0]] + s[1..];
      }
    }
  }

  /** A string without the separator splits into itself. */
  lemma {:induction false} SplitWithoutSeparator(s: string, sep: char)
    requires sep !in s
    ensures Split(s, sep) == [s]
    decreases |s|
  {
    if |s| > 0 {
      SplitWithoutSeparator(s[1..], sep);
      assert s == [s[0]] + s[1..];
    }
  }

  /** Splitting at the first separator. */
  lemma {:induction false} SplitAtFirst(a: string, b: string, sep: char)
    requires sep !in a
    ensures Split(a + [sep] + b, sep) == [a] + Split(b, sep)
    decreases |a|
  {
    var s := a + [sep] + b;
    if |a| == 0 {
      assert s[0] == sep && s[1..] == b;
    } else {
      assert s[0] == a[0] && s[1..] == a[1..] + [sep] + b;
      SplitAtFirst(a[1..], b, sep);
      assert [a[0]] + a[1..] == a;
    }
  }

  /** Splitting three separator-free pieces joined by the separator. */
  lemma SplitThree(a: string, b: string, c: string, sep: char)
    requires sep !in a && sep !in b && sep !in c
    ensures Split(a + [sep] + b + [sep] + c, sep) == [a, b, c]
  {
    assert a + [sep] + b + [sep] + c == a + [sep] + (b + [sep] + c);
    SplitAtFirst(a, b + [sep] + c, sep);
    SplitAtFirst(b, c, sep);
    SplitWithoutSeparator(c, sep);
  }

  /** Splitting pieces that were joined gives the pieces back. */
  lemma {:induction false} SplitJoin(parts: seq<string>, sep: char)
    requires |parts| >= 1
    requires forall i :: 0 <= i < |parts| ==> sep !in parts[i]
    ensures Split(JoinWith(parts, sep), sep) == parts
    decreases |parts|
  {
    if |parts| == 1 {
      SplitWithoutSeparator(parts[0], sep);
    } else {
      SplitJoin(parts[1..], sep);
      SplitAtFirst(parts[0], JoinWith(parts[1..], sep), sep);
      assert [parts[0]] + parts[1..] == parts;
    }
  }

  /** Pieces each followed by the separator split back into the pieces and a final empty one. */
  lemma SplitJoinTerminated(body: seq<string>, sep: char)
    requires forall k :: 0 <= k < |body| ==> sep !in body[k]
    ensures Split(JoinWith(body + [""], sep), sep) == body + [""]
  {
    var lines := body + [""];
    forall k | 0 <= k < |lines| ensures sep !in lines[k] {
      if k < |body| {
        assert lines[k] == body[k];
      }
    }
    SplitJoin(lines, sep);
  }

  // ---------------------------------------------------------------------------
  // strings.TrimSpace, HasPrefix, TrimPrefix

  /** unicode.IsSpace: the Unicode White_Space characters. */
  predicate IsSpace(c: char) {
    var n := c as int;
    n == 0x20 || 0x09 <= n <= 0x0D || n == 0x85 || n == 0xA0 || n == 0x1680 ||
    0x2000 <= n <= 0x200A || n == 0x2028 || n == 0x2029 || n == 0x202F ||
    n == 0x205F || n == 0x3000
  }

  /** s without its leading white space. */
  function TrimLeft(s: string): (r: string)
    ensures |r| <= |s| && r == s[|s| - |r|..]
    ensures forall k :: 0 <= k < |s| - |r| ==> IsSpace(s[k])
    ensures |r| == 0 || !IsSpace(r[0])
    decreases |s|
  {
    if |s| > 0 && IsSpace(s[0]) then TrimLeft(s[1..]) else s
  }

  /** s without its trailing white space. */
  function TrimRight(s: string): (r: string)
    ensures |r| <= |s| && r == s[..|r|]
    ensures forall k :: |r| <= k < |s| ==> IsSpace(s[k])
    ensures |r| == 0 || !IsSpace(r[|r| - 1])
    decreases |s|
  {
    if |s| > 0 && IsSpace(s[|s| - 1]) then TrimRight(s[..|s| - 1]) else s
  }

  /** strings.TrimSpace: s with leading and trailing white space removed. */
  function TrimSpace(s: string): (r: string)
    ensures |r| == 0 || (!IsSpace(r[0]) && !IsSpace(r[|r| - 1]))
    ensures var i := |s| - |TrimLeft(s)|;
      i + |r| <= |s| && r == s[i..i + |r|] &&
      (forall k :: 0 <= k < i ==> IsSpace(s[k])) &&
      (forall k :: i + |r| <= k < |s| ==> IsSpace(s[k]))
  {
    TrimRight(TrimLeft(s))
  }

  lemma {:induction false} TrimLeftPadded(lead: string, s: string)
    requires forall k :: 0 <= k < |lead| ==> IsSpace(lead[k])
    requires |s| > 0 && !IsSpace(s[0])
    ensures TrimLeft(lead + s) == s
    decreases |lead|
  {
    if |lead| == 0 {
      assert lead + s == s;
    } else {
      assert (lead + s)[1..] == lead[1..] + s;
      TrimLeftPadded(lead[1..], s);
    }
  }

  lemma {:induction false} TrimRightPadded(s: string, trail: string)
    requires forall k :: 0 <= k < |trail| ==> IsSpace(trail[k])
    requires |s| > 0 && !IsSpace(s[|s| - 1])
    ensures TrimRight(s + trail) == s
    decreases |trail|
  {
    if |trail| == 0 {
      assert s + trail == s;
    } else {
      var t := trail[..|trail| - 1];
      assert (s + trail)[..|s + trail| - 1] == s + t;
      TrimRightPadded(s, t);
    }
  }

  /** Trimming removes white-space padding on both sides and nothing else. */
  lemma TrimSpacePadded(lead: string, s: string, trail: string)
    requires forall k :: 0 <= k < |lead| ==> IsSpace(lead[k])
    requires forall k :: 0 <= k < |trail| ==> IsSpace(trail[k])
    requires |s| > 0 && !IsSpace(s[0]) && !IsSpace(s[|s| - 1])
    ensures TrimSpace(lead + s + trail) == s
  {
    assert lead + s + trail == lead + (s + trail);
    TrimLeftPadded(lead, s + trail);
    TrimRightPadded(s, trail);
  }

  /** strings.HasPrefix */
  predicate HasPrefix(s: string, prefix: string) {
    prefix <= s
  }

  /** strings.TrimPrefix: s without prefix when it starts with it, else s. */
  function TrimPrefix(s: string, prefix: string): (r: string)
    ensures HasPrefix(s, prefix) ==> prefix + r == s
    ensures !HasPrefix(s, prefix) ==> r == s
  {
    if prefix <= s then s[|prefix|..] else s
  }

  // ---------------------------------------------------------------------------
  // strconv.Atoi and strconv.Itoa (64-bit int)

  const MaxUint64: int := 0xFFFF_FFFF_FFFF_FFFF
  const MaxInt64: int := 0x7FFF_FFFF_FFFF_FFFF
  const MinInt64: int := -0x8000_0000_0000_0000

  predicate IsDigit(c: char) {
    '0' <= c <= '9'
  }

  function DigitValue(c: char): (d: nat)
    requires IsDigit(c)
    ensures d < 10
  {
    (c as int) - ('0' as int)
  }

  function DigitChar(d: nat): (c: char)
    requires d < 10
    ensures IsDigit(c) && DigitValue(c) == d
  {
    (('0' as int) + d) as char
  }

  /** A decimal numeral: an optional sign followed by at least one digit. */
  predicate IsNumeral(s: string) {
    if |s| > 0 && (s[0] == '+' || s[0] == '-') then |s| > 1 && AllDigits(s[1..])
    else |s| > 0 && AllDigits(s)
  }

  predicate AllDigits(s: string) {
    forall k :: 0 <= k < |s| ==> IsDigit(s[k])
  }

  /**
   * strconv.ParseUint's scan of the digits, left to right: the first non-digit is a
   * syntax error, and a value passing 2^64 - 1 is a range error at the digit where it
   * does, whatever follows.
   */
  function ScanDigits(s: string): (r: Result<nat, NumErrorKind>)
    ensures r.Success? ==> r.value <= MaxUint64 && forall k :: 0 <= k < |s| ==> IsDigit(s[k])
    decreases |s|
  {
    if |s| == 0 then Success(0)
    else
      match ScanDigits(s[..|s| - 1])
      case Failure(kind) => Failure(kind)
      case Success(v) =>
        var c := s[|s| - 1];
        if !IsDigit(c) then Failure(InvalidSyntax)
        else if 10 * v + DigitValue(c) > MaxUint64 then Failure(ValueOutOfRange)
        else Success(10 * v + DigitValue(c))
  }

  /** strconv.Atoi: a signed decimal numeral within the range of a 64-bit int. */
  function Atoi(s: string): (r: Result<int, Error>)
    ensures r.Success? ==> IsNumeral(s) && MinInt64 <= r.value <= MaxInt64
    ensures r.Failure? ==> r.error.NumError? && r.error.num == s
    ensures !IsNumeral(s) && |s| < 20 ==> r == Failure(NumError(s, InvalidSyntax))
  {
    if |s| == 0 then Failure(NumError(s, InvalidSyntax))
    else
      var negative := s[0] == '-';
      var body := if s[0] == '+' || s[0] == '-' then s[1..] else s;
      if |body| == 0 then Failure(NumError(s, InvalidSyntax))
      else
        match ScanDigits(body)
        case Failure(kind) =>
          ScanBelowTwenty(body);
          Failure(NumError(s, kind))
        case Success(v) =>
          if !negative && v > MaxInt64 then Failure(NumError(s, ValueOutOfRange))
          else if negative && v > -MinInt64 then Failure(NumError(s, ValueOutOfRange))
          else
            var n: int := v;
            Success(if negative then -n else n)
  }

  /** Fewer than twenty characters never reach 2^64, so the scan can only fail on syntax. */
  lemma {:induction false} ScanBelowTwenty(s: string)
    ensures ScanDigits(s).Success? ==> ScanDigits(s).value < Pow10(|s|)
    ensures |s| < 20 && ScanDigits(s).Failure? ==> ScanDigits(s).error == InvalidSyntax
    decreases |s|
  {
    if |s| > 0 {
      ScanBelowTwenty(s[..|s| - 1]);
      if |s| < 20 {
        Pow10Monotone(|s|, 19);
        Pow10Nineteen();
      }
    }
  }

  function Pow10(n: nat): (p: nat)
    ensures p >= 1
  {
    if n == 0 then 1 else 10 * Pow10(n - 1)
  }

  lemma Pow10Nineteen()
    ensures Pow10(19) == 10_000_000_000_000_000_000
  {
    assert Pow10(1) == 10;
    assert Pow10(2) == 100;
    assert Pow10(3) == 1000;
    assert Pow10(4) == 10000;
    assert Pow10(5) == 100000;
    assert Pow10(6) == 1000000;
    assert Pow10(7) == 10000000;
    assert Pow10(8) == 100000000;
    assert Pow10(9) == 1000000000;
    assert Pow10(10) == 10000000000;
    assert Pow10(11) == 100000000000;
    assert Pow10(12) == 1000000000000;
    assert Pow10(13) == 10000000000000;
    assert Pow10(14) == 100000000000000;
    assert Pow10(15) == 1000000000000000;
    assert Pow10(16) == 10000000000000000;
    assert Pow10(17) == 100000000000000000;
    assert Pow10(18) == 1000000000000000000;
    assert Pow10(19) == 10000000000000000000;
  }

  lemma {:induction false} Pow10Monotone(n: nat, m: nat)
    requires n <= m
    ensures Pow10(n) <= Pow10(m)
    decreases m
  {
    if n < m {
      Pow10Monotone(n, m - 1);
    }
  }

  /** strconv.Itoa for a natural number: its shortest decimal numeral. */
  function NatString(n: nat): (s: string)
    ensures |s| > 0 && forall k :: 0 <= k < |s| ==> IsDigit(s[k])
    decreases n
  {
    if n < 10 then [DigitChar(n)] else NatString(n / 10) + [DigitChar(n % 10)]
  }

  /** strconv.Itoa */
  function Itoa(n: int): (s: string)
    ensures IsNumeral(s)
  {
    if n < 0 then "-" + NatString(-n) else NatString(n)
  }

  lemma {:induction false} ScanNatString(n: nat)
    requires n <= MaxUint64
    ensures ScanDigits(NatString(n)) == Success(n)
    decreases n
  {
    var s := NatString(n);
    if n >= 10 {
      ScanNatString(n / 10);
      assert s[..|s| - 1] == NatString(n / 10);
    }
  }

  /** Atoi reads back every 64-bit int that Itoa writes. */
  lemma AtoiItoa(n: int)
    requires MinInt64 <= n <= MaxInt64
    ensures Atoi(Itoa(n)) == Success(n)
  {
    if n < 0 {
      ScanNatString(-n);
      AtoiNegative(NatString(-n), -n);
    } else {
      ScanNatString(n);
      AtoiUnsigned(NatString(n), n);
    }
  }

  /** An unsigned digit string is read as its value. */
  lemma AtoiUnsigned(digits: string, v: nat)
    requires |digits| > 0 && IsDigit(digits[0]) && ScanDigits(digits) == Success(v) && v <= MaxInt64
    ensures Atoi(digits) == Success(v)
  {
  }

  /** A minus sign before a digit string is read as the negated value. */
  lemma AtoiNegative(digits: string, v: nat)
    requires |digits| > 0 && ScanDigits(digits) == Success(v) && v <= -MinInt64
    ensures Atoi("-" + digits) == Success(-(v as int))
  {
    var s := "-" + digits;
    assert s[0] == '-' && s[1..] == digits;
    assert ScanDigits(s[1..]) == Success(v);
  }

  // ---------------------------------------------------------------------------
  // filepath.Join

  /**
   * filepath.Join of two elements: empty elements are dropped and the rest are
   * joined with '/'. (Lexical cleaning of "..", "." and repeated slashes is not modelled.)
   */
  function Join(a: string, b: string): (r: string)
    ensures a == "" ==> r == b
    ensures b == "" ==> r == a
    ensures a != "" && b != "" ==> r == a + "/" + b
  {
    if a == "" then b else if b == "" then a else a + "/" + b
  }

  /** filepath.Join(a, b, c) */
  function Join3(a: string, b: string, c: string): string {
    Join(Join(a, b), c)
  }

  /** A separator between two texts splits them apart: the pieces of a, then those of b. */
  lemma {:induction false} SplitAround(a: string, b: string, sep: char)
    ensures Split(a + [sep] + b, sep) == Split(a, sep) + Split(b, sep)
    decreases |a|
  {
    var s := a + [sep] + b;
    if |a| == 0 {
      assert s[0] == sep && s[1..] == b;
    } else {
      assert s[0] == a[0] && s[1..] == a[1..] + [sep] + b;
      SplitAround(a[1..], b, sep);
    }
  }

  /** The path components of a joined path are those of the first element, then those of the second. */
  lemma JoinSplitsAtSlash(a: string, b: string)
    requires a != "" && b != ""
    ensures Split(Join(a, b), '/') == Split(a, '/') + Split(b, '/')
  {
    SplitAround(a, b, '/');
  }

  /** The components of a patch path join(root, dir, name) are those of root, dir and name in turn. */
  lemma Join3SplitsAtSlash(a: string, b: string, c: string)
    requires a != "" && b != "" && c != ""
    ensures Split(Join3(a, b, c), '/') == Split(a, '/') + Split(b, '/') + Split(c, '/')
  {
    JoinSplitsAtSlash(a, b);
    JoinSplitsAtSlash(Join(a, b), c);
  }
}
