/**
 * The pieces of Go's `strings` and `strconv` packages that the migration
 * tool relies on: `strings.Split` with a one-character separator,
 * `strconv.ParseInt(s, 10, 64)` and decimal formatting (`%d`).
 * Characters stand for the bytes of Go strings.
 */
module GoStrings {

  const MaxUint64: int := 0xFFFF_FFFF_FFFF_FFFF
  const MaxInt64: int := 0x7FFF_FFFF_FFFF_FFFF
  const MinInt64: int := -0x8000_0000_0000_0000

  type Int64 = x: int | MinInt64 <= x <= MaxInt64

  // ---------------------------------------------------------------------
  // strings.Split

  /** `strings.Split(s, string(sep))`: the pieces between occurrences of `sep`. */
  function Split(s: string, sep: char): (parts: seq<string>)
    ensures |parts| >= 1
    decreases |s|
  {
    if s == [] then [""]
    else
      var rest := Split(s[1..], sep);
      if s[0] == sep then [""] + rest
      else [[s[0]] + rest[0]] + rest[1..]
  }

  /** `strings.Join(parts, string(sep))` */
  function Join(parts: seq<string>, sep: char): string
    requires |parts| >= 1
  {
    if |parts| == 1 then parts[0] else parts[0] + [sep] + Join(parts[1..], sep)
  }

  /** Joining the pieces again gives back the string that was split. */
  lemma {:induction false} JoinSplit(s: string, sep: char)
    ensures Join(Split(s, sep), sep) == s
    decreases |s|
  {
    if s != [] {
      JoinSplit(s[1..], sep);
      var rest := Split(s[1..], sep);
      if s[0] != sep {
        if |rest| > 1 {
          assert Join(Split(s, sep), sep) == [s[0]] + rest[0] + [sep] + Join(rest[1..], sep);
        }
      }
    }
  }

  /** Splitting a join of separator-free pieces gives back the pieces. */
  lemma {:induction false} SplitJoin(parts: seq<string>, sep: char)
    requires |parts| >= 1
    requires forall part <- parts :: sep !in part
    ensures Split(Join(parts, sep), sep) == parts
    decreases |parts|
  {
    if |parts| == 1 {
      SplitNoSep(parts[0], sep);
    } else {
      SplitJoin(parts[1..], sep);
      SplitNoSep(parts[0], sep);
      SplitConcat(parts[0], Join(parts[1..], sep), sep);
      assert parts == [parts[0]] + parts[1..];
    }
  }

  /** A string without the separator is a single piece. */
  lemma {:induction false} SplitNoSep(s: string, sep: char)
    requires sep !in s
    ensures Split(s, sep) == [s]
    decreases |s|
  {
    if s != [] {
      SplitNoSep(s[1..], sep);
      assert [s[0]] + s[1..] == s;
    }
  }

  /** A separator between `a` and `b` splits them apart. */
  lemma {:induction false} SplitConcat(a: string, b: string, sep: char)
    ensures Split(a + [sep] + b, sep) == Split(a, sep) + Split(b, sep)
    decreases |a|
  {
    var s := a + [sep] + b;
    if a == [] {
      assert s[1..] == b;
    } else {
      assert s[1..] == a[1..] + [sep] + b;
      SplitConcat(a[1..], b, sep);
    }
  }

  /** `strings.HasPrefix(s, prefix)` */
  predicate HasPrefix(s: string, prefix: string)
  {
    |prefix| <= |s| && s[..|prefix|] == prefix
  }

  /** A string has a prefix exactly when it is that prefix followed by the rest of it. */
  lemma HasPrefixAppend(prefix: string, rest: string, s: string)
    ensures HasPrefix(prefix + rest, prefix)
    ensures HasPrefix(s, prefix) <==> |prefix| <= |s| && s == prefix + s[|prefix|..]
  {
    assert (prefix + rest)[..|prefix|] == prefix;
    if |prefix| <= |s| {
      assert s == s[..|prefix|] + s[|prefix|..];
      assert (prefix + s[|prefix|..])[..|prefix|] == prefix;
    }
  }

  /** Index of the last `c` in `s`, or -1 (`strings.LastIndex` for one character). */
  function LastIndexOf(s: string, c: char): (i: int)
    ensures -1 <= i < |s|
    ensures i >= 0 ==> s[i] == c
    ensures forall j :: i < j < |s| ==> s[j] != c
  {
    if s == [] then -1
    else if s[|s| - 1] == c then |s| - 1
    else LastIndexOf(s[..|s| - 1], c)
  }

  /** The last `c` in `a + [c] + b`, when `b` has none, is the one between them. */
  lemma {:induction false} LastIndexOfAppend(a: string, b: string, c: char)
    requires c !in b
    ensures LastIndexOf(a + [c] + b, c) == |a|
    decreases |b|
  {
    var s := a + [c] + b;
    if b != [] {
      assert s[..|s| - 1] == a + [c] + b[..|b| - 1];
      assert s[|s| - 1] == b[|b| - 1];
      LastIndexOfAppend(a, b[..|b| - 1], c);
    }
  }

  /** Cutting at the last separator: what follows it is the last piece. */
  lemma SplitAtLastSeparator(head: string, tail: string, sep: char)
    requires sep !in tail
    ensures Split(head + [sep] + tail, sep) == Split(head, sep) + [tail]
  {
    SplitConcat(head, tail, sep);
    SplitNoSep(tail, sep);
  }

  /** `LastIndexOf` finds the separator that cuts `s` into a head and a separator-free tail. */
  lemma LastIndexOfCuts(s: string, c: char)
    ensures var i := LastIndexOf(s, c);
            c !in s[i + 1..] && (i >= 0 ==> s == s[..i] + [c] + s[i + 1..])
  {
    var i := LastIndexOf(s, c);
    var tail := s[i + 1..];
    forall j | 0 <= j < |tail| ensures tail[j] != c {
      assert tail[j] == s[i + 1 + j];
    }
    if i >= 0 {
      assert s == s[..i] + [c] + tail;
    }
  }

  // ---------------------------------------------------------------------
  // strconv.ParseInt(s, 10, 64)

  predicate IsDigit(ch: char) { '0' <= ch <= '9' }

  function DigitValue(ch: char): nat
    requires IsDigit(ch)
  {
    ch as int - '0' as int
  }

  /** The syntax `ParseInt` accepts in base 10: an optional sign, then one or more digits. */
  /** The text after an optional leading sign. */
  function Unsigned(s: string): string
  {
    if |s| > 0 && (s[0] == '+' || s[0] == '-') then s[1..] else s
  }

  predicate IsDecimal(s: string)
  {
    var digits := Unsigned(s);
    |digits| > 0 && forall ch <- digits :: IsDigit(ch)
  }

  /** The `err` field of strconv's `*NumError`, or its absence. */
  datatype NumError = NoError | ErrSyntax | ErrRange

  /** The pair `(value, err)` strconv returns: a value is returned on error too. */
  datatype Parsed = Parsed(value: int, err: NumError)

  /**
   * The digit loop of `strconv.ParseUint` for base 10 and bit size 64. It
   * stops at the first character that is not a digit (syntax error) or at
   * the first digit that takes the value past the largest `uint64` (range
   * error, value `MaxUint64`), whichever comes first.
   */
  function ScanDigits(s: string, acc: nat): (r: Parsed)
    requires acc <= MaxUint64
    ensures r.err == NoError ==> acc <= r.value <= MaxUint64 && forall ch <- s :: IsDigit(ch)
    ensures r.err == ErrSyntax ==> r.value == 0 && exists ch <- s :: !IsDigit(ch)
    ensures r.err == ErrRange ==> r.value == MaxUint64
    decreases |s|
  {
    if s == [] then Parsed(acc, NoError)
    else if !IsDigit(s[0]) then Parsed(0, ErrSyntax)
    else if acc * 10 + DigitValue(s[0]) > MaxUint64 then Parsed(MaxUint64, ErrRange)
    else
      var r := ScanDigits(s[1..], acc * 10 + DigitValue(s[0]));
      assert r.err == ErrSyntax ==> exists ch <- s[1..] :: !IsDigit(ch);
      r
  }

  /** `strconv.ParseUint(s, 10, 64)` */
  function ParseUint(s: string): Parsed
  {
    if s == [] then Parsed(0, ErrSyntax) else ScanDigits(s, 0)
  }

  /**
   * `strconv.ParseInt(s, 10, 64)`. On a syntax error the value is 0; on a
   * range error it is the `int64` bound of the sign given.
   */
  function ParseInt(s: string): (r: Parsed)
    ensures MinInt64 <= r.value <= MaxInt64
    ensures r.err == NoError ==> IsDecimal(s)
    ensures IsDecimal(s) ==> r.err != ErrSyntax
    ensures r.err == ErrSyntax ==> r.value == 0
    ensures r.err == ErrRange ==> r.value == MaxInt64 || r.value == MinInt64
    // no digits at all, as in "", "+" or "-", is a syntax error
    ensures Unsigned(s) == [] ==> r == Parsed(0, ErrSyntax)
    // so is a first character that is neither a sign nor a digit, as in "abc"
    ensures |s| > 0 && s[0] != '+' && s[0] != '-' && !IsDigit(s[0]) ==> r == Parsed(0, ErrSyntax)
  {
    if s == [] then Parsed(0, ErrSyntax)
    else
      var neg := s[0] == '-';
      var digits := Unsigned(s);
      var u := ParseUint(digits);
      if u.err == ErrSyntax then Parsed(0, ErrSyntax)
      else if !neg && u.value >= 0x8000_0000_0000_0000 then Parsed(MaxInt64, ErrRange)
      else if neg && u.value > 0x8000_0000_0000_0000 then Parsed(MinInt64, ErrRange)
      else Parsed(if neg then -u.value else u.value, NoError)
  }

  // ---------------------------------------------------------------------
  // Decimal formatting: fmt.Sprintf("%d", n)

  function DigitChar(d: nat): (ch: char)
    requires d < 10
    ensures IsDigit(ch) && DigitValue(ch) == d
  {
    ('0' as int + d) as char
  }

  /** Decimal digits of `n`, most significant first, without leading zeros. */
  function FormatNat(n: nat): (s: string)
    ensures |s| >= 1
    ensures forall ch <- s :: IsDigit(ch)
  {
    if n < 10 then [DigitChar(n)] else FormatNat(n / 10) + [DigitChar(n % 10)]
  }

  /** `fmt.Sprintf("%d", n)`: a minus sign for negative numbers, then the digits. */
  function FormatInt(n: int): string
  {
    if n < 0 then "-" + FormatNat(-n) else FormatNat(n)
  }

  /** The value of a digit string read left to right, starting from `acc`. */
  function DigitsValue(s: string, acc: nat): nat
    requires forall ch <- s :: IsDigit(ch)
    decreases |s|
  {
    if s == [] then acc else DigitsValue(s[1..], acc * 10 + DigitValue(s[0]))
  }

  lemma {:induction false} DigitsValueAppend(s: string, ch: char, acc: nat)
    requires forall c <- s :: IsDigit(c)
    requires IsDigit(ch)
    ensures DigitsValue(s + [ch], acc) == DigitsValue(s, acc) * 10 + DigitValue(ch)
    decreases |s|
  {
    if s != [] {
      assert (s + [ch])[1..] == s[1..] + [ch];
      DigitsValueAppend(s[1..], ch, acc * 10 + DigitValue(s[0]));
    }
  }

  lemma {:induction false} DigitsValueAtLeast(s: string, acc: nat)
    requires forall ch <- s :: IsDigit(ch)
    ensures DigitsValue(s, acc) >= acc
    decreases |s|
  {
    if s != [] {
      DigitsValueAtLeast(s[1..], acc * 10 + DigitValue(s[0]));
    }
  }

  /** Reading the digits of `n` gives back `n`. */
  lemma {:induction false} DigitsValueFormat(n: nat)
    ensures DigitsValue(FormatNat(n), 0) == n
  {
    if n >= 10 {
      DigitsValueFormat(n / 10);
      DigitsValueAppend(FormatNat(n / 10), DigitChar(n % 10), 0);
    }
  }

  /** The digit loop never overflows while the final value fits. */
  lemma {:induction false} ScanDigitsValue(s: string, acc: nat)
    requires acc <= MaxUint64
    requires forall ch <- s :: IsDigit(ch)
    requires DigitsValue(s, acc) <= MaxUint64
    ensures ScanDigits(s, acc) == Parsed(DigitsValue(s, acc), NoError)
    decreases |s|
  {
    if s != [] {
      var next := acc * 10 + DigitValue(s[0]);
      DigitsValueAtLeast(s[1..], next);
      ScanDigitsValue(s[1..], next);
    }
  }

  /** The digit loop reports a syntax error at a non-digit reached before the value overflows. */
  lemma {:induction false} ScanDigitsSyntax(s: string, acc: nat, k: nat)
    requires acc <= MaxUint64
    requires k < |s| && !IsDigit(s[k])
    requires forall ch <- s[..k] :: IsDigit(ch)
    requires DigitsValue(s[..k], acc) <= MaxUint64
    ensures ScanDigits(s, acc) == Parsed(0, ErrSyntax)
    decreases k
  {
    if k > 0 {
      var next := acc * 10 + DigitValue(s[0]);
      assert s[..k][0] == s[0] && s[..k][1..] == s[1..][..k - 1];
      DigitsValueAtLeast(s[1..][..k - 1], next);
      ScanDigitsSyntax(s[1..], next, k - 1);
    }
  }

  /**
   * `strconv.ParseInt` gives `(0, ErrSyntax)` for text whose digits, after
   * an optional sign, run into a non-digit before the value overflows.
   */
  lemma ParseIntSyntax(s: string, k: nat)
    requires k < |Unsigned(s)| && !IsDigit(Unsigned(s)[k])
    requires forall ch <- Unsigned(s)[..k] :: IsDigit(ch)
    requires DigitsValue(Unsigned(s)[..k], 0) <= MaxUint64
    ensures ParseInt(s) == Parsed(0, ErrSyntax)
  {
    ScanDigitsSyntax(Unsigned(s), 0, k);
  }

  /** The digit loop reports a range error once the value read passes the largest `uint64`. */
  lemma {:induction false} ScanDigitsOverflow(s: string, acc: nat)
    requires acc <= MaxUint64
    requires forall ch <- s :: IsDigit(ch)
    requires DigitsValue(s, acc) > MaxUint64
    ensures ScanDigits(s, acc) == Parsed(MaxUint64, ErrRange)
    decreases |s|
  {
    if s != [] {
      var next := acc * 10 + DigitValue(s[0]);
      if next <= MaxUint64 {
        ScanDigitsOverflow(s[1..], next);
      }
    }
  }

  /**
   * The value `ParseInt` gives for decimal text: the signed value of its
   * digits when that fits in an `int64`, and otherwise a range error with
   * the bound on that side.
   */
  lemma ParseIntDecimal(s: string)
    requires IsDecimal(s)
    ensures var m: int := DigitsValue(if s[0] == '+' || s[0] == '-' then s[1..] else s, 0);
            var v: int := if s[0] == '-' then -m else m;
            && (MinInt64 <= v <= MaxInt64 ==> ParseInt(s) == Parsed(v, NoError))
            && (v > MaxInt64 ==> ParseInt(s) == Parsed(MaxInt64, ErrRange))
            && (v < MinInt64 ==> ParseInt(s) == Parsed(MinInt64, ErrRange))
  {
    var digits := if s[0] == '+' || s[0] == '-' then s[1..] else s;
    if DigitsValue(digits, 0) <= MaxUint64 {
      ScanDigitsValue(digits, 0);
    } else {
      ScanDigitsOverflow(digits, 0);
    }
  }

  /** Parsing what `%d` prints gives back every `int64`. */
  lemma ParseFormatInt(n: Int64)
    ensures ParseInt(FormatInt(n)) == Parsed(n, NoError)
  {
    var k: int := n;
    var m: nat := if k < 0 then -k else k;
    DigitsValueFormat(m);
    ScanDigitsValue(FormatNat(m), 0);
    var s := FormatInt(n);
    if n < 0 {
      assert s[0] == '-' && s[1..] == FormatNat(m);
    } else {
      assert IsDigit(s[0]);
    }
  }
}
