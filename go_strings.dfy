/** The parts of Go's `strings` and `strconv` packages that the core relies
    on, defined over `seq<char>`: prefix and suffix tests, `Split` and `Join`
    on a one-character separator, the trimming functions, and `Atoi`. */
module GoStrings {
  import opened Wrappers
  import opened GoNumbers

  /** `zkCommon.IsEmpty` on a string. */
  predicate IsEmpty(s: string)
  {
    |s| == 0
  }

  predicate HasPrefix(s: string, prefix: string)
  {
    |prefix| <= |s| && s[..|prefix|] == prefix
  }

  predicate HasSuffix(s: string, suffix: string)
  {
    |suffix| <= |s| && s[|s| - |suffix|..] == suffix
  }

  function TrimPrefix(s: string, prefix: string): (r: string)
    ensures HasPrefix(s, prefix) ==> s == prefix + r
    ensures !HasPrefix(s, prefix) ==> r == s
  {
    if HasPrefix(s, prefix) then s[|prefix|..] else s
  }

  function TrimSuffix(s: string, suffix: string): (r: string)
    ensures HasSuffix(s, suffix) ==> s == r + suffix
    ensures !HasSuffix(s, suffix) ==> r == s
  {
    if HasSuffix(s, suffix) then s[..|s| - |suffix|] else s
  }

  /** Number of occurrences of `c` in `s`. */
  function Count(s: string, c: char): nat
  {
    if s == [] then 0 else (if s[0] == c then 1 else 0) + Count(s[1..], c)
  }

  lemma {:induction false} CountAppend(s: string, t: string, c: char)
    ensures Count(s + t, c) == Count(s, c) + Count(t, c)
  {
    if s == [] {
      assert s + t == t;
    } else {
      assert (s + t)[1..] == s[1..] + t;
      CountAppend(s[1..], t, c);
    }
  }

  /** `strings.Split(s, string(sep))`: the pieces of `s` between occurrences
      of `sep`; the empty string gives one empty piece. */
  function Split(s: string, sep: char): (parts: seq<string>)
    ensures |parts| >= 1
  {
    if s == [] then [""]
    else
      var rest := Split(s[1..], sep);
      if s[0] == sep then [""] + rest
      else [[s[0]] + rest[0]] + rest[1..]
  }

  /** `strings.Join(parts, sep)`. */
  function Join(parts: seq<string>, sep: string): string
  {
    if |parts| == 0 then ""
    else if |parts| == 1 then parts[0]
    else parts[0] + sep + Join(parts[1..], sep)
  }

  /** `Split` yields one more piece than there are separators. */
  lemma {:induction false} SplitLength(s: string, sep: char)
    ensures |Split(s, sep)| == Count(s, sep) + 1
  {
    if s != [] {
      SplitLength(s[1..], sep);
    }
  }

  /** No piece of `Split` contains the separator. */
  lemma {:induction false} SplitPiecesFree(s: string, sep: char)
    ensures forall i :: 0 <= i < |Split(s, sep)| ==> Count(Split(s, sep)[i], sep) == 0
  {
    if s != [] {
      SplitPiecesFree(s[1..], sep);
      var rest := Split(s[1..], sep);
      if s[0] != sep {
        assert ([s[0]] + rest[0])[1..] == rest[0];
      }
    }
  }

  /** A string without the separator is a single piece. */
  lemma {:induction false} SplitWithout(s: string, sep: char)
    requires forall i :: 0 <= i < |s| ==> s[i] != sep
    ensures Split(s, sep) == [s]
    ensures Count(s, sep) == 0
  {
    if s != [] {
      SplitWithout(s[1..], sep);
      assert [s[0]] + s[1..] == s;
    }
  }

  /** Splitting at the first separator: the piece before it comes first. */
  lemma {:induction false} SplitAt(a: string, b: string, sep: char)
    requires forall i :: 0 <= i < |a| ==> a[i] != sep
    ensures Split(a + [sep] + b, sep) == [a] + Split(b, sep)
  {
    var s := a + [sep] + b;
    if a == [] {
      assert s[1..] == b;
    } else {
      assert s[1..] == a[1..] + [sep] + b;
      SplitAt(a[1..], b, sep);
      assert [a[0]] + a[1..] == a;
    }
  }

  /** Joining the pieces with the separator gives the string back. */
  lemma {:induction false} JoinSplit(s: string, sep: char)
    ensures Join(Split(s, sep), [sep]) == s
  {
    if s != [] {
      JoinSplit(s[1..], sep);
      var rest := Split(s[1..], sep);
      if s[0] == sep {
        assert Split(s, sep) == [""] + rest;
        assert ([""] + rest)[1..] == rest;
      } else {
        var parts := [[s[0]] + rest[0]] + rest[1..];
        if |rest| == 1 {
          assert Join(parts, [sep]) == [s[0]] + rest[0];
        } else {
          assert parts[1..] == rest[1..];
          assert Join(rest, [sep]) == rest[0] + [sep] + Join(rest[1..], [sep]);
        }
      }
    }
  }

  /** Joining a prefix of the pieces gives a prefix of the joined string, and
      what follows is the separator and the join of the remaining pieces. */
  lemma {:induction false} JoinPrefix(parts: seq<string>, m: nat, sep: string)
    requires 1 <= m < |parts|
    ensures Join(parts, sep) == Join(parts[..m], sep) + sep + Join(parts[m..], sep)
  {
    if m > 1 {
      JoinPrefix(parts[1..], m - 1, sep);
      assert parts[1..][..m - 1] == parts[..m][1..];
      assert parts[1..][m - 1..] == parts[m..];
    }
  }

  /** Joining pieces free of the separator character counts one separator
      between each two pieces. */
  lemma {:induction false} JoinCount(parts: seq<string>, sep: char)
    requires |parts| >= 1
    requires forall i :: 0 <= i < |parts| ==> Count(parts[i], sep) == 0
    ensures Count(Join(parts, [sep]), sep) == |parts| - 1
  {
    if |parts| > 1 {
      JoinCount(parts[1..], sep);
      CountAppend(parts[0] + [sep], Join(parts[1..], [sep]), sep);
      CountAppend(parts[0], [sep], sep);
      assert Count([sep], sep) == 1 by {
        assert [sep][1..] == [];
      }
    }
  }

  /** Go's `unicode.IsSpace`. */
  predicate IsSpace(ch: char)
  {
    var c := ch as int;
    c == 0x20 || 0x09 <= c <= 0x0D || c == 0x85 || c == 0xA0 || c == 0x1680
    || 0x2000 <= c <= 0x200A || c == 0x2028 || c == 0x2029 || c == 0x202F
    || c == 0x205F || c == 0x3000
  }

  function TrimLeftSpace(s: string): (r: string)
    ensures |r| <= |s| && r == s[|s| - |r|..]
    ensures r == [] || !IsSpace(r[0])
    ensures forall i :: 0 <= i < |s| - |r| ==> IsSpace(s[i])
  {
    if s != [] && IsSpace(s[0]) then TrimLeftSpace(s[1..]) else s
  }

  function TrimRightSpace(s: string): (r: string)
    ensures |r| <= |s| && r == s[..|r|]
    ensures r == [] || !IsSpace(r[|r| - 1])
    ensures forall i :: |r| <= i < |s| ==> IsSpace(s[i])
  {
    if s != [] && IsSpace(s[|s| - 1]) then TrimRightSpace(s[..|s| - 1]) else s
  }

  /** `strings.TrimSpace`: drops leading and trailing white space. */
  function TrimSpace(s: string): string
  {
    TrimRightSpace(TrimLeftSpace(s))
  }

  lemma TrimSpaceNoEdges(s: string)
    requires s == [] || (!IsSpace(s[0]) && !IsSpace(s[|s| - 1]))
    ensures TrimSpace(s) == s
  {
  }

  predicate IsDigit(c: char)
  {
    '0' <= c <= '9'
  }

  predicate AllDigits(s: string)
  {
    forall i :: 0 <= i < |s| ==> IsDigit(s[i])
  }

  function DigitsValue(s: string): nat
    requires AllDigits(s)
  {
    if s == [] then 0
    else DigitsValue(s[..|s| - 1]) * 10 + (s[|s| - 1] as int - '0' as int)
  }

  /** The text after an optional leading sign. */
  function Unsigned(s: string): (u: string)
    ensures u == s || (|s| > 0 && (s[0] == '+' || s[0] == '-') && u == s[1..])
  {
    if |s| > 0 && (s[0] == '+' || s[0] == '-') then s[1..] else s
  }

  /** The text `strconv.Atoi` and `strconv.ParseInt(s, 10, 64)` accept: an
      optional sign followed by at least one decimal digit. */
  predicate IsDecimal(s: string)
  {
    |Unsigned(s)| >= 1 && AllDigits(Unsigned(s))
  }

  function DecimalValue(s: string): int
    requires IsDecimal(s)
  {
    if s[0] == '-' then -(DigitsValue(s[1..]) as int)
    else if s[0] == '+' then DigitsValue(s[1..])
    else DigitsValue(s)
  }

  /** The longest run of digits at the start of `s`. */
  function LeadingDigits(s: string): (d: string)
    ensures AllDigits(d) && d <= s
    ensures |d| < |s| ==> !IsDigit(s[|d|])
  {
    if s == [] || !IsDigit(s[0]) then [] else [s[0]] + LeadingDigits(s[1..])
  }

  /** A string of digits is its own leading run. */
  lemma {:induction false} LeadingDigitsOfDigits(s: string)
    requires AllDigits(s)
    ensures LeadingDigits(s) == s
  {
    if s != [] {
      LeadingDigitsOfDigits(s[1..]);
    }
  }

  const MaxUint64: int := 0xFFFF_FFFF_FFFF_FFFF

  /** `strconv.ParseUint` reads the digits left to right and gives up with a
      range error as soon as the value read so far exceeds 2^64 - 1, before
      it looks at any later character. The value of a digit run never
      decreases as it grows, so that happens exactly when the whole leading
      run of digits after the sign is above 2^64 - 1. */
  predicate Overflows(s: string)
  {
    DigitsValue(LeadingDigits(Unsigned(s))) > MaxUint64
  }

  /** Text that is a decimal and overflows is out of the int64 range. */
  lemma OverflowingDecimal(s: string)
    requires IsDecimal(s) && Overflows(s)
    ensures !InInt64(DecimalValue(s))
  {
    LeadingDigitsOfDigits(Unsigned(s));
  }

  datatype NumError = ErrSyntax | ErrRange

  /** `strconv.Atoi` on a 64-bit platform: a range error for an overflowing
      leading digit run, whatever follows it; otherwise a syntax error for
      text that is not a decimal, and a range error for a decimal outside
      int64. */
  function Atoi(s: string): (r: Result<int, NumError>)
    ensures r.Ok? <==> IsDecimal(s) && InInt64(DecimalValue(s))
    ensures r.Ok? ==> r.value == DecimalValue(s)
    ensures r == Err(ErrSyntax) <==> !IsDecimal(s) && !Overflows(s)
    ensures r == Err(ErrRange) <==> Overflows(s) || (IsDecimal(s) && !InInt64(DecimalValue(s)))
  {
    if Overflows(s) then
      if IsDecimal(s) then OverflowingDecimal(s); Err(ErrRange) else Err(ErrRange)
    else if !IsDecimal(s) then Err(ErrSyntax)
    else if InInt64(DecimalValue(s)) then Ok(DecimalValue(s))
    else Err(ErrRange)
  }

  /** The int64 bound `strconv.ParseInt` returns with a range error: the
      least for a leading minus, the greatest otherwise. */
  function RangeBound(s: string): int
  {
    if |s| > 0 && s[0] == '-' then MinInt64 else MaxInt64
  }

  /** The value `strconv.ParseInt(s, 10, 64)` returns when its error is
      ignored: the value when it parses, 0 on a syntax error and the int64
      bound of the sign on a range error. */
  function ParseInt64IgnoringError(s: string): (r: int)
    ensures InInt64(r)
    ensures Atoi(s).Ok? ==> r == Atoi(s).value
    ensures Atoi(s) == Err(ErrSyntax) ==> r == 0
    ensures Atoi(s) == Err(ErrRange) ==> r == RangeBound(s)
  {
    if Overflows(s) then RangeBound(s)
    else if !IsDecimal(s) then 0
    else Clamp64(DecimalValue(s))
  }

  /** The leading run of digits stops at the first character that is not
      one. */
  lemma {:induction false} LeadingDigitsStop(d: string, rest: string)
    requires AllDigits(d) && (rest == [] || !IsDigit(rest[0]))
    ensures LeadingDigits(d + rest) == d
  {
    if d != [] {
      assert (d + rest)[1..] == d[1..] + rest;
      LeadingDigitsStop(d[1..], rest);
    }
  }

  /** A digit run above 2^64 - 1 followed by any non-digit (twenty nines and
      an "x", say) is a range error, not a syntax error, and the ignored-error
      value is the int64 bound of the sign, not 0. */
  lemma OverflowBeforeSyntax(d: string, rest: string)
    requires AllDigits(d) && DigitsValue(d) > MaxUint64
    requires rest != [] && !IsDigit(rest[0])
    ensures Atoi(d + rest) == Err(ErrRange)
    ensures ParseInt64IgnoringError(d + rest) == MaxInt64
    ensures Atoi("-" + d + rest) == Err(ErrRange)
    ensures ParseInt64IgnoringError("-" + d + rest) == MinInt64
  {
    LeadingDigitsStop(d, rest);
    assert ("-" + d + rest)[1..] == d + rest;
  }

  /** A digit run that fits in 64 unsigned bits but not in int64, followed by
      a non-digit, is only a syntax error: the parser reaches the bad
      character before it compares against the int64 range. */
  lemma SyntaxBeforeRange(d: string, rest: string)
    requires AllDigits(d) && MaxInt64 < DigitsValue(d) <= MaxUint64
    requires rest != [] && !IsDigit(rest[0])
    ensures Atoi(d + rest) == Err(ErrSyntax)
    ensures ParseInt64IgnoringError(d + rest) == 0
  {
    LeadingDigitsStop(d, rest);
    assert !AllDigits(d + rest) by { assert (d + rest)[|d|] == rest[0]; }
  }
}
