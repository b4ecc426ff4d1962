/** The string operations of Go's `strings` and `strconv` packages that the modelled code relies on. */
module Text {

  datatype Option<+T> = None | Some(value: T)

  // ----- Searching -----

  predicate HasPrefix(s: string, p: string) {
    |p| <= |s| && s[..|p|] == p
  }

  predicate HasSuffix(s: string, p: string) {
    |p| <= |s| && s[|s| - |p|..] == p
  }

  function TrimPrefix(s: string, p: string): string {
    if HasPrefix(s, p) then s[|p|..] else s
  }

  predicate MatchesAt(s: string, p: string, i: int) {
    0 <= i && i + |p| <= |s| && s[i..i + |p|] == p
  }

  /** `strings.Index`: the first position where `p` occurs, or -1. */
  function Index(s: string, p: string): (i: int)
    ensures i == -1 || MatchesAt(s, p, i)
    ensures forall j :: 0 <= j && (i == -1 || j < i) ==> !MatchesAt(s, p, j)
  {
    if HasPrefix(s, p) then
      assert MatchesAt(s, p, 0);
      0
    else if s == "" then -1
    else
      var r := Index(s[1..], p);
      assert forall j {:trigger MatchesAt(s, p, j)} :: 1 <= j ==> MatchesAt(s, p, j) == MatchesAt(s[1..], p, j - 1);
      if r == -1 then -1 else r + 1
  }

  predicate Contains(s: string, p: string) {
    Index(s, p) != -1
  }

  /** The first position of `c` in `s`, or -1. */
  function IndexChar(s: string, c: char): (i: int)
    ensures -1 <= i < |s|
    ensures 0 <= i ==> s[i] == c
    ensures forall k :: 0 <= k < (if i == -1 then |s| else i) ==> s[k] != c
  {
    if s == "" then -1
    else if s[0] == c then 0
    else
      var r := IndexChar(s[1..], c);
      if r == -1 then -1 else r + 1
  }

  /** The last position of `c` in `s`, or -1. */
  function LastIndexChar(s: string, c: char): (i: int)
    ensures -1 <= i < |s|
    ensures 0 <= i ==> s[i] == c
    ensures forall k :: i < k < |s| ==> s[k] != c
  {
    if s == "" then -1
    else if s[|s| - 1] == c then |s| - 1
    else LastIndexChar(s[..|s| - 1], c)
  }

  lemma {:induction false} FirstAt(s: string, c: char, n: nat)
    requires n < |s| && s[n] == c && forall k :: 0 <= k < n ==> s[k] != c
    ensures IndexChar(s, c) == n
  {}

  lemma {:induction false} LastAt(s: string, c: char, n: nat)
    requires n < |s| && s[n] == c && forall k :: n < k < |s| ==> s[k] != c
    ensures LastIndexChar(s, c) == n
  {}

  // ----- Splitting and joining -----

  /** `strings.Split` on a one-character separator. */
  function Split(s: string, c: char): (parts: seq<string>)
    ensures parts != []
  {
    if s == "" then [""]
    else
      var rest := Split(s[1..], c);
      if s[0] == c then [""] + rest else [[s[0]] + rest[0]] + rest[1..]
  }

  /** `strings.Join` with a one-character separator. */
  function Join(parts: seq<string>, c: char): string {
    if parts == [] then ""
    else if |parts| == 1 then parts[0]
    else parts[0] + [c] + Join(parts[1..], c)
  }

  lemma {:induction false} SplitWhole(s: string, c: char)
    requires c !in s
    ensures Split(s, c) == [s]
  {
    if s != "" {
      SplitWhole(s[1..], c);
      assert s == [s[0]] + s[1..];
    }
  }

  lemma {:induction false} SplitConcat(a: string, b: string, c: char)
    ensures Split(a + [c] + b, c) == Split(a, c) + Split(b, c)
  {
    var s := a + [c] + b;
    if a == "" {
      assert s[1..] == b;
    } else {
      assert s[1..] == a[1..] + [c] + b;
      SplitConcat(a[1..], b, c);
    }
  }

  lemma {:induction false} SplitJoin(parts: seq<string>, c: char)
    requires parts != []
    requires forall k :: 0 <= k < |parts| ==> c !in parts[k]
    ensures Split(Join(parts, c), c) == parts
  {
    SplitWhole(parts[0], c);
    if |parts| > 1 {
      SplitConcat(parts[0], Join(parts[1..], c), c);
      SplitJoin(parts[1..], c);
    }
  }

  lemma {:induction false} JoinSplit(s: string, c: char)
    ensures Join(Split(s, c), c) == s
  {
    if s != "" {
      JoinSplit(s[1..], c);
      var rest := Split(s[1..], c);
      assert s == [s[0]] + s[1..];
      if s[0] == c {
        assert ([""] + rest)[1..] == rest;
      } else {
        assert ([[s[0]] + rest[0]] + rest[1..])[1..] == rest[1..];
      }
    }
  }

  lemma {:induction false} JoinConcat(a: seq<string>, b: seq<string>, c: char)
    requires a != [] && b != []
    ensures Join(a + b, c) == Join(a, c) + [c] + Join(b, c)
  {
    if |a| == 1 {
      assert (a + b)[1..] == b;
    } else {
      assert (a + b)[1..] == a[1..] + b;
      JoinConcat(a[1..], b, c);
    }
  }

  // ----- Trimming -----

  /** `unicode.IsSpace`. */
  predicate IsSpace(c: char) {
    c in "\t\n\r " || c as int in {0x0B, 0x0C, 0x85, 0xA0, 0x1680, 0x2028, 0x2029, 0x202F, 0x205F, 0x3000} ||
        0x2000 <= c as int <= 0x200A
  }

  function TrimLeft(s: string): string {
    if s != "" && IsSpace(s[0]) then TrimLeft(s[1..]) else s
  }

  function TrimRight(s: string): string {
    if s != "" && IsSpace(s[|s| - 1]) then TrimRight(s[..|s| - 1]) else s
  }

  /** `strings.TrimSpace`. */
  function TrimSpace(s: string): string {
    TrimRight(TrimLeft(s))
  }

  /** Removes every leading and trailing `c`, as `strings.Trim` does for a one-character cutset. */
  function TrimChar(s: string, c: char): string
    decreases |s|
  {
    if s != "" && s[0] == c then TrimChar(s[1..], c)
    else if s != "" && s[|s| - 1] == c then TrimChar(s[..|s| - 1], c)
    else s
  }

  lemma {:induction false} TrimSpaceKeeps(s: string)
    requires s == "" || (!IsSpace(s[0]) && !IsSpace(s[|s| - 1]))
    ensures TrimSpace(s) == s
  {}

  predicate AllSpace(s: string) {
    forall i :: 0 <= i < |s| ==> IsSpace(s[i])
  }

  lemma {:induction false} MoreSpace(a: string, b: string)
    requires AllSpace(a) && AllSpace(b)
    ensures AllSpace(a + b)
  {}

  lemma {:induction false} TrimLeftMeans(s: string) returns (before: string)
    ensures AllSpace(before) && s == before + TrimLeft(s)
    ensures TrimLeft(s) != "" ==> !IsSpace(TrimLeft(s)[0])
  {
    if s != "" && IsSpace(s[0]) {
      var rest := TrimLeftMeans(s[1..]);
      before := [s[0]] + rest;
      MoreSpace([s[0]], rest);
      Regrouped([s[0]], rest, TrimLeft(s[1..]));
      assert s == [s[0]] + s[1..];
    } else {
      before := "";
      assert "" + s == s;
    }
  }

  lemma {:induction false} Regrouped(a: string, b: string, c: string)
    ensures a + (b + c) == a + b + c
  {}

  lemma {:induction false} TrimRightMeans(s: string) returns (after: string)
    ensures AllSpace(after) && s == TrimRight(s) + after
    ensures TrimRight(s) != "" ==> !IsSpace(TrimRight(s)[|TrimRight(s)| - 1])
  {
    if s != "" && IsSpace(s[|s| - 1]) {
      var front, last := s[..|s| - 1], [s[|s| - 1]];
      var rest := TrimRightMeans(front);
      after := rest + last;
      MoreSpace(rest, last);
      Regrouped(TrimRight(front), rest, last);
      assert s == front + last;
    } else {
      after := "";
      assert s + "" == s;
    }
  }

  /** Trimming takes away white space on both sides, and all of it. */
  lemma {:induction false} TrimSpaceMeans(s: string) returns (before: string, after: string)
    ensures AllSpace(before) && AllSpace(after) && s == before + TrimSpace(s) + after
    ensures TrimSpace(s) != "" ==> !IsSpace(TrimSpace(s)[0]) && !IsSpace(TrimSpace(s)[|TrimSpace(s)| - 1])
  {
    before := TrimLeftMeans(s);
    after := TrimRightMeans(TrimLeft(s));
    if TrimSpace(s) != "" {
      assert TrimLeft(s)[0] == TrimSpace(s)[0];
    }
  }

  lemma {:induction false} TrimQuoted(v: string, c: char)
    requires c !in v
    ensures TrimChar([c] + v + [c], c) == v
  {
    var s := [c] + v + [c];
    assert s[1..] == v + [c];
    if v == "" {
      assert TrimChar(s[1..], c) == TrimChar(s[1..][1..], c);
    } else {
      assert s[1..][..|v|] == v;
      assert v[0] != c && v[|v| - 1] != c;
    }
  }

  // ----- Decimal numbers -----

  const MAX_INT64: int := 0x7FFF_FFFF_FFFF_FFFF
  const MIN_INT64: int := -0x8000_0000_0000_0000
  const TWO_TO_64: int := 0x1_0000_0000_0000_0000

  predicate IsInt64(n: int) {
    MIN_INT64 <= n <= MAX_INT64
  }

  /** The value a 64-bit signed register holds after an operation whose exact result is `n`. */
  function Wrap64(n: int): (r: int)
    ensures IsInt64(r)
    ensures IsInt64(n) ==> r == n
  {
    (n - MIN_INT64) % TWO_TO_64 + MIN_INT64
  }

  predicate IsDigit(c: char) {
    '0' <= c <= '9'
  }

  function DigitValue(c: char): (d: nat)
    requires IsDigit(c)
    ensures d < 10
  {
    c as int - '0' as int
  }

  function DigitChar(d: nat): (c: char)
    requires d < 10
    ensures IsDigit(c) && DigitValue(c) == d
  {
    "0123456789"[d]
  }

  function FormatNat(n: nat): (s: string)
    ensures s != "" && forall c :: c in s ==> IsDigit(c)
  {
    if n < 10 then [DigitChar(n)] else FormatNat(n / 10) + [DigitChar(n % 10)]
  }

  /** The `%d` verb. */
  function FormatInt(n: int): (s: string)
    ensures s != "" && IsDigit(s[|s| - 1]) && forall c :: c in s ==> IsDigit(c) || c == '-'
  {
    if n < 0 then "-" + FormatNat(-n) else FormatNat(n)
  }

  /** `strconv.ParseInt(s, 10, 64)` and `strconv.Atoi`: the value, or why there is none.
      `clamped` is the value Go returns next to a range error; a syntax error comes with 0. */
  datatype IntResult = Parsed(value: int) | Syntax | OutOfRange(clamped: int)
  {
    /** The number a caller sees that drops the error. */
    function Lenient(): int {
      match this
      case Parsed(n) => n
      case Syntax => 0
      case OutOfRange(n) => n
    }
  }

  /** The digits of `s` read on from `n`, stopping at 64 unsigned bits. */
  function ScanDigits(s: string, n: nat): (r: IntResult)
    requires n < TWO_TO_64
    ensures r.Parsed? ==> 0 <= r.value < TWO_TO_64
  {
    if s == "" then Parsed(n)
    else if !IsDigit(s[0]) then Syntax
    else
      var m := n * 10 + DigitValue(s[0]);
      if m >= TWO_TO_64 then OutOfRange(MAX_INT64) else ScanDigits(s[1..], m)
  }

  function ParseInt(s: string): (r: IntResult)
    ensures IsInt64(r.Lenient())
  {
    var negative := s != "" && s[0] == '-';
    var body := if s != "" && (s[0] == '-' || s[0] == '+') then s[1..] else s;
    if body == "" then Syntax
    else
      match ScanDigits(body, 0)
      case Syntax => Syntax
      case OutOfRange(_) => OutOfRange(if negative then MIN_INT64 else MAX_INT64)
      case Parsed(n) =>
        if !negative && n > MAX_INT64 then OutOfRange(MAX_INT64)
        else if negative && -n < MIN_INT64 then OutOfRange(MIN_INT64)
        else Parsed(if negative then -n else n)
  }

  lemma {:induction false} ScanSplit(a: string, b: string, n: nat, m: nat)
    requires n < TWO_TO_64 && m < TWO_TO_64
    requires ScanDigits(a, n) == Parsed(m)
    ensures ScanDigits(a + b, n) == ScanDigits(b, m)
  {
    if a == "" {
      assert a + b == b;
    } else {
      assert (a + b)[1..] == a[1..] + b;
      ScanSplit(a[1..], b, n * 10 + DigitValue(a[0]), m);
    }
  }

  lemma {:induction false} ScanFormat(n: nat)
    requires n < TWO_TO_64
    ensures ScanDigits(FormatNat(n), 0) == Parsed(n)
  {
    if n >= 10 {
      ScanFormat(n / 10);
      var last := [DigitChar(n % 10)];
      ScanSplit(FormatNat(n / 10), last, 0, n / 10);
      assert last[1..] == "";
    }
  }

  /** The number that digits after `n` make. */
  function ValueOf(n: nat, digits: string): nat
    requires forall c :: c in digits ==> IsDigit(c)
  {
    if digits == "" then n
    else ValueOf(n, digits[..|digits| - 1]) * 10 + DigitValue(digits[|digits| - 1])
  }

  lemma {:induction false} ValueFromFirst(n: nat, digits: string)
    requires digits != "" && forall c :: c in digits ==> IsDigit(c)
    ensures ValueOf(n, digits) == ValueOf(n * 10 + DigitValue(digits[0]), digits[1..])
    decreases |digits|
  {
    var k := |digits| - 1;
    if k > 0 {
      ValueFromFirst(n, digits[..k]);
      assert digits[..k][1..] == digits[1..][..k - 1];
    }
  }

  lemma {:induction false} ValueGrows(n: nat, digits: string)
    requires forall c :: c in digits ==> IsDigit(c)
    ensures ValueOf(n, digits) >= n
    decreases |digits|
  {
    if digits != "" {
      ValueGrows(n, digits[..|digits| - 1]);
    }
  }

  lemma {:induction false} ScanValue(digits: string, n: nat)
    requires n < TWO_TO_64 && forall c :: c in digits ==> IsDigit(c)
    ensures ScanDigits(digits, n) ==
      if ValueOf(n, digits) < TWO_TO_64 then Parsed(ValueOf(n, digits)) else OutOfRange(MAX_INT64)
  {
    if digits != "" {
      var m := n * 10 + DigitValue(digits[0]);
      ValueFromFirst(n, digits);
      if m < TWO_TO_64 {
        ScanValue(digits[1..], m);
      } else {
        ValueGrows(m, digits[1..]);
      }
    }
  }

  /** Digits after an optional sign read as the number they make, if that has 64 bits, and else the nearest bound is
      what a caller sees that drops the error. */
  lemma {:induction false} ReadsNumber(sign: string, digits: string)
    requires sign in ["", "+", "-"] && digits != "" && forall c :: c in digits ==> IsDigit(c)
    ensures var v: int := ValueOf(0, digits);
      var n := if sign == "-" then -v else v;
      && (IsInt64(n) ==> ParseInt(sign + digits) == Parsed(n))
      && (!IsInt64(n) ==> ParseInt(sign + digits) == OutOfRange(if sign == "-" then MIN_INT64 else MAX_INT64))
      && ParseInt(sign + digits).Lenient() ==
           if n < MIN_INT64 then MIN_INT64 else if n > MAX_INT64 then MAX_INT64 else n
  {
    SignOff(sign, digits);
    ScanValue(digits, 0);
  }

  lemma {:induction false} SignOff(sign: string, digits: string)
    requires sign in ["", "+", "-"] && digits != "" && forall c :: c in digits ==> IsDigit(c)
    ensures var s := sign + digits;
      (s[0] == '-' <==> sign == "-") && (if s[0] == '-' || s[0] == '+' then s[1..] else s) == digits
  {
    var s := sign + digits;
    assert digits[0] in digits && !IsDigit('-') && !IsDigit('+');
    assert sign == "" ==> s == digits;
  }

  lemma {:induction false} ScannedDigits(s: string, n: nat)
    requires n < TWO_TO_64 && ScanDigits(s, n).Parsed?
    ensures forall i :: 0 <= i < |s| ==> IsDigit(s[i])
  {
    if s != "" {
      ScannedDigits(s[1..], n * 10 + DigitValue(s[0]));
      assert forall i :: 1 <= i < |s| ==> s[i] == s[1..][i - 1];
    }
  }

  /** Nothing else reads as a number, and a text that does not begin like one counts as zero. */
  lemma {:induction false} ReadsNothing(s: string)
    ensures ParseInt(s).Parsed? ==>
      var digits := if s != "" && (s[0] == '-' || s[0] == '+') then s[1..] else s;
      digits != "" && forall i :: 0 <= i < |digits| ==> IsDigit(digits[i])
    ensures s == "" || !(IsDigit(s[0]) || s[0] == '+' || s[0] == '-') ==>
      ParseInt(s) == Syntax && ParseInt(s).Lenient() == 0
  {
    var digits := if s != "" && (s[0] == '-' || s[0] == '+') then s[1..] else s;
    if digits != "" && ScanDigits(digits, 0).Parsed? {
      ScannedDigits(digits, 0);
    }
  }

  /** Printing a 64-bit integer and reading it back gives the integer. */
  lemma {:induction false} ParseFormat(n: int)
    requires IsInt64(n)
    ensures ParseInt(FormatInt(n)) == Parsed(n)
  {
    ScanFormat(if n < 0 then -n else n);
    if n < 0 {
      assert FormatInt(n)[1..] == FormatNat(-n);
    } else {
      assert IsDigit(FormatInt(n)[0]);
    }
  }

  lemma {:induction false} FormatIntInjective(m: int, n: int)
    requires IsInt64(m) && IsInt64(n) && FormatInt(m) == FormatInt(n)
    ensures m == n
  {
    ParseFormat(m);
    ParseFormat(n);
  }
}
