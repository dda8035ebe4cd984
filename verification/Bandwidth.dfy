/** Bandwidth quantities such as "10M" or "1Gi": what the parser accepts and what it returns. */
module Bandwidth {
  import opened Words

  const MAX_INT64: int := 0x7fff_ffff_ffff_ffff
  const MAX_RATE: int := 0x3fff_ffff_ffff_ffff

  type int64 = x: int | -0x8000_0000_0000_0000 <= x <= 0x7fff_ffff_ffff_ffff

  datatype Quantity = Ok(value: int64) | InvalidNumber | UnknownSuffix | TooLarge

  // ---------------------------------------------------------------- ASCII text

  predicate IsSpace(c: char) {
    c == ' ' || ('\t' <= c <= '\r')
  }

  function TrimLeft(s: string): string {
    if s != "" && IsSpace(s[0]) then TrimLeft(s[1..]) else s
  }

  function TrimRight(s: string): string {
    if s != "" && IsSpace(s[|s| - 1]) then TrimRight(s[..|s| - 1]) else s
  }

  function TrimSpace(s: string): string {
    TrimRight(TrimLeft(s))
  }

  predicate IsDigit(c: char) {
    '0' <= c <= '9'
  }

  function UpperChar(c: char): char {
    if 'a' <= c <= 'z' then c - 'a' + 'A' else c
  }

  function ToUpper(s: string): (u: string)
    ensures |u| == |s|
  {
    seq(|s|, i requires 0 <= i < |s| => UpperChar(s[i]))
  }

  ghost predicate AllDigits(s: string) {
    forall i :: 0 <= i < |s| ==> IsDigit(s[i])
  }

  function DigitValue(c: char): (d: nat)
    requires IsDigit(c)
    ensures d < 10
  {
    (c - '0') as int
  }

  /** The decimal value of a string of digits. */
  function Value(s: string): nat
    requires AllDigits(s)
  {
    if s == "" then 0 else Value(s[..|s| - 1]) * 10 + DigitValue(s[|s| - 1])
  }

  /** Base-10 conversion to a signed 64-bit integer, an optional sign included. */
  ghost function ParseInt(s: string): (r: Quantity)
    ensures r.Ok? || r.InvalidNumber?
  {
    var signed := s != "" && (s[0] == '-' || s[0] == '+');
    var digits := if signed then s[1..] else s;
    if digits == "" || !AllDigits(digits) then InvalidNumber else
      var v: int := Value(digits);
      if signed && s[0] == '-' then (if v <= MAX_INT64 + 1 then Ok(-v) else InvalidNumber)
      else if v <= MAX_INT64 then Ok(v) else InvalidNumber
  }

  /** The conversion as a scan, digit by digit. */
  method Atoi(s: string) returns (r: Quantity)
    ensures r == ParseInt(s)
  {
    var i := 0;
    var negative := false;
    if s != "" && (s[0] == '-' || s[0] == '+') {
      negative := s[0] == '-';
      i := 1;
    }
    if i == |s| {
      return InvalidNumber;
    }
    ghost var digits := s[i..];
    ghost var start := i;
    var n := 0;
    while i < |s|
      invariant start <= i <= |s| && digits == s[start..]
      invariant AllDigits(digits[..i - start]) && n == Value(digits[..i - start])
    {
      if !IsDigit(s[i]) {
        assert digits[i - start] == s[i];
        return InvalidNumber;
      }
      assert digits[..i + 1 - start][..i - start] == digits[..i - start];
      n := n * 10 + DigitValue(s[i]);
      i := i + 1;
    }
    assert digits[..i - start] == digits;
    if n > (if negative then MAX_INT64 + 1 else MAX_INT64) {
      return InvalidNumber;
    }
    return Ok(if negative then -n else n);
  }

  function SuffixMultiplier(suffix: string): nat {
    if suffix == "" || suffix == "B" then 1
    else if suffix == "K" || suffix == "KB" then 1000
    else if suffix == "M" || suffix == "MB" then 1000 * 1000
    else if suffix == "G" || suffix == "GB" then 1000 * 1000 * 1000
    else if suffix == "KI" || suffix == "KIB" then 1024
    else if suffix == "MI" || suffix == "MIB" then 1024 * 1024
    else if suffix == "GI" || suffix == "GIB" then 1024 * 1024 * 1024
    else 0
  }

  // ---------------------------------------------------------------- the parser

  /** Position of the first character that is not a digit. */
  function FirstNonDigit(t: string): (n: nat)
    ensures n <= |t|
    ensures AllDigits(t[..n])
    ensures n < |t| ==> !IsDigit(t[n])
  {
    if t == "" || !IsDigit(t[0]) then 0 else
      var n := FirstNonDigit(t[1..]);
      assert t[..n + 1] == [t[0]] + t[1..][..n];
      n + 1
  }

  /** What the parser returns, as one expression. */
  ghost function BandwidthOf(s: string): Quantity {
    var t := TrimSpace(s);
    if t == "" then Ok(0) else
      var n := FirstNonDigit(t);
      var num := ParseInt(if n == 0 then t else t[..n]);
      var multiplier := SuffixMultiplier(ToUpper(t[n..]));
      if !num.Ok? then num
      else if multiplier == 0 then UnknownSuffix
      else if num.value > MAX_RATE / multiplier then TooLarge
      else
        ScaledInRange(t, n, num.value, multiplier);
        Ok(num.value * multiplier)
  }

  lemma {:induction false} SuffixStartsWithLetter(t: string)
    requires t != "" && SuffixMultiplier(ToUpper(t)) != 0
    ensures !IsDigit(t[0]) && t[0] != '-' && t[0] != '+'
  {
    assert ToUpper(t)[0] == UpperChar(t[0]);
  }

  lemma {:induction false} ScaledInRange(t: string, n: nat, num: int64, multiplier: nat)
    requires t != "" && n == FirstNonDigit(t)
    requires ParseInt(if n == 0 then t else t[..n]) == Ok(num)
    requires multiplier == SuffixMultiplier(ToUpper(t[n..])) != 0
    requires num <= MAX_RATE / multiplier
    ensures 0 < n && num == Value(t[..n]) && 0 <= num * multiplier <= MAX_RATE
  {
    if n == 0 {
      assert t[n..] == t;
      SuffixStartsWithLetter(t);
      assert false;
    }
    BelowQuotient(num, multiplier, MAX_RATE);
    MulLe(0, num, multiplier);
  }

  lemma {:induction false} BelowQuotient(n: int, m: nat, top: nat)
    requires 0 < m
    ensures n <= top / m <==> n * m <= top
  {
    QuotientBound(top, m);
    if n <= top / m {
      MulLe(n, top / m, m);
    }
    if n * m <= top {
      Cancel(n, top / m, m);
    }
  }

  /** The parser: scan for the first non-digit, convert the number, look the suffix up, scale. */
  method ParseBandwidth(s: string) returns (r: Quantity)
    ensures r == BandwidthOf(s)
  {
    var t := TrimSpace(s);
    if t == "" {
      return Ok(0);
    }
    var numStr, suffix := "", "";
    var i := 0;
    while i < |t|
      invariant 0 <= i <= |t| && AllDigits(t[..i])
      invariant numStr == "" && suffix == ""
    {
      if !IsDigit(t[i]) {
        numStr := t[..i];
        suffix := ToUpper(t[i..]);
        break;
      }
      assert t[..i + 1] == t[..i] + [t[i]];
      i := i + 1;
    }
    SplitAt(t, i);
    assert t[..|t|] == t && ToUpper(t[|t|..]) == "";
    assert suffix == ToUpper(t[i..]);
    if numStr == "" {
      numStr := t;
    }
    var num := Atoi(numStr);
    if !num.Ok? {
      return num;
    }
    var multiplier := SuffixMultiplier(suffix);
    if multiplier == 0 {
      return UnknownSuffix;
    }
    if num.value > MAX_RATE / multiplier {
      return TooLarge;
    }
    ScaledInRange(t, i, num.value, multiplier);
    return Ok(num.value * multiplier);
  }

  /** The scan position is the only place where digits stop. */
  lemma {:induction false} SplitAt(t: string, i: nat)
    requires i <= |t| && AllDigits(t[..i]) && (i < |t| ==> !IsDigit(t[i]))
    ensures FirstNonDigit(t) == i
  {
    var n := FirstNonDigit(t);
    if n < i {
      DigitAt(t, i, n);
      assert false;
    }
    if i < n {
      DigitAt(t, n, i);
      assert false;
    }
  }

  lemma {:induction false} DigitAt(t: string, n: nat, k: nat)
    requires k < n <= |t| && AllDigits(t[..n])
    ensures IsDigit(t[k])
  {
    assert t[..n][k] == t[k];
  }

  // ---------------------------------------------------------------- the accepted language

  /** t reads as the number v: nothing at all, or digits and a known suffix whose product fits. */
  ghost predicate Denotes(t: string, v: nat) {
    || (t == "" && v == 0)
    || exists n :: 0 < n <= |t| && Reads(t, n, v)
  }

  ghost predicate Reads(t: string, n: nat, v: nat)
    requires n <= |t|
  {
    && AllDigits(t[..n])
    && SuffixMultiplier(ToUpper(t[n..])) != 0
    && v == Value(t[..n]) * SuffixMultiplier(ToUpper(t[n..])) <= MAX_RATE
  }

  lemma {:induction false} ReadsAtSplit(t: string, n: nat, v: nat)
    requires 0 < n <= |t| && Reads(t, n, v)
    ensures FirstNonDigit(t) == n
  {
    if n < |t| {
      SuffixStartsWithLetter(t[n..]);
    }
    SplitAt(t, n);
  }

  /** The value of the digits alone stays below the value with its suffix. */
  lemma {:induction false} NumberFits(num: nat, multiplier: nat)
    requires 0 < multiplier && num * multiplier <= MAX_RATE
    ensures num <= MAX_RATE && num <= MAX_RATE / multiplier
  {
    MulLe(1, multiplier, num);
    BelowQuotient(num, multiplier, MAX_RATE);
  }

  /** The parser accepts exactly the language above, and returns the value the text denotes. */
  lemma {:induction false} ParserIsExact(s: string, v: nat)
    ensures Denotes(TrimSpace(s), v) <==> v <= MAX_RATE && BandwidthOf(s) == Ok(v)
  {
    var t := TrimSpace(s);
    if t != "" {
      var n := FirstNonDigit(t);
      if v <= MAX_RATE && BandwidthOf(s) == Ok(v) {
        var num := ParseInt(if n == 0 then t else t[..n]);
        ScaledInRange(t, n, num.value, SuffixMultiplier(ToUpper(t[n..])));
        assert Reads(t, n, v);
      }
      if Denotes(t, v) {
        var k :| 0 < k <= |t| && Reads(t, k, v);
        ReadsAtSplit(t, k, v);
        NumberFits(Value(t[..n]), SuffixMultiplier(ToUpper(t[n..])));
        assert !(t[..n][0] == '-' || t[..n][0] == '+');
      }
    }
  }

  /** Every accepted value is within the cap: nothing overflows. */
  lemma {:induction false} AcceptedIsCapped(s: string)
    ensures BandwidthOf(s).Ok? ==> 0 <= BandwidthOf(s).value <= MAX_RATE
  {
    var t := TrimSpace(s);
    if t != "" && BandwidthOf(s).Ok? {
      var n := FirstNonDigit(t);
      var num := ParseInt(if n == 0 then t else t[..n]);
      ScaledInRange(t, n, num.value, SuffixMultiplier(ToUpper(t[n..])));
    }
  }

  // ---------------------------------------------------------------- printing

  function Digits(n: nat): (s: string)
    ensures s != "" && AllDigits(s) && Value(s) == n
  {
    var d := '0' + (n % 10) as char;
    if n < 10 then [d] else
      var s := Digits(n / 10) + [d];
      assert s[..|s| - 1] == Digits(n / 10);
      s
  }

  lemma {:induction false} TrimKeeps(t: string)
    requires t != "" ==> !IsSpace(t[0]) && !IsSpace(t[|t| - 1])
    ensures TrimSpace(t) == t
  {
  }

  /** Parsing undoes printing, with any known suffix in any letter case. */
  lemma {:induction false} ParseInvertsPrint(n: nat, suffix: string)
    requires SuffixMultiplier(ToUpper(suffix)) != 0
    requires n * SuffixMultiplier(ToUpper(suffix)) <= MAX_RATE
    ensures BandwidthOf(Digits(n) + suffix) == Ok(n * SuffixMultiplier(ToUpper(suffix)))
  {
    var t := Digits(n) + suffix;
    var v := n * SuffixMultiplier(ToUpper(suffix));
    MulLe(0, n, SuffixMultiplier(ToUpper(suffix)));
    var k := |Digits(n)|;
    assert t[..k] == Digits(n) && t[k..] == suffix;
    assert Digits(n)[0] == t[0];
    if suffix != "" {
      LastOfSuffix(suffix);
    }
    assert Digits(n)[k - 1] == t[k - 1];
    TrimKeeps(t);
    assert Reads(t, k, v);
    ParserIsExact(t, v);
  }

  lemma {:induction false} LastOfSuffix(suffix: string)
    requires suffix != "" && SuffixMultiplier(ToUpper(suffix)) != 0
    ensures !IsSpace(suffix[|suffix| - 1])
  {
    assert ToUpper(suffix)[|suffix| - 1] == UpperChar(suffix[|suffix| - 1]);
  }

  // ---------------------------------------------------------------- the language in characters

  /** The white space a text may start and end with: space, tab, line feed, vertical tab, form feed, return. */
  predicate Blank(c: char) {
    c as int in {9, 10, 11, 12, 13, 32}
  }

  ghost predicate AllBlank(s: string) {
    forall i :: 0 <= i < |s| ==> Blank(s[i])
  }

  /** Powers of 1000 by letter, in either case; 0 for any other. */
  function Thousands(c: char): nat {
    if c == 'k' || c == 'K' then 1_000 else if c == 'm' || c == 'M' then 1_000_000
    else if c == 'g' || c == 'G' then 1_000_000_000 else 0
  }

  /** Powers of 1024 by letter. */
  function Binaries(c: char): nat {
    if c == 'k' || c == 'K' then 1_024 else if c == 'm' || c == 'M' then 1_048_576
    else if c == 'g' || c == 'G' then 1_073_741_824 else 0
  }

  predicate IsB(s: string) {
    s == "" || s == "b" || s == "B"
  }

  /** The multiplier of a unit: a letter alone for 1000, with an i for 1024, and an optional b. */
  function Unit(u: string): nat {
    if IsB(u) then 1
    else if IsB(u[1..]) then Thousands(u[0])
    else if (u[1] == 'i' || u[1] == 'I') && IsB(u[2..]) then Binaries(u[0])
    else 0
  }

  lemma {:induction false} UpperIs(u: string, i: nat)
    requires i < |u|
    ensures ToUpper(u)[i] == UpperChar(u[i])
  {
  }

  lemma {:induction false} UnitIsSuffix(u: string)
    ensures SuffixMultiplier(ToUpper(u)) == Unit(u)
  {
    var t := ToUpper(u);
    if |u| == 1 {
      assert t == [UpperChar(u[0])] && u == [u[0]] && u[1..] == "";
    } else if |u| == 2 {
      assert t == [UpperChar(u[0]), UpperChar(u[1])] && u[1..] == [u[1]] && u[2..] == "";
    } else if |u| == 3 {
      assert t == [UpperChar(u[0]), UpperChar(u[1]), UpperChar(u[2])] && |u[1..]| == 2 && u[2..] == [u[2]];
    } else if |u| > 3 {
      assert |t| > 3 && |u[1..]| > 2 && |u[2..]| > 1;
    }
  }

  /** The text is the number v: blanks only, or a number and a unit between blanks, within 62 bits. */
  ghost predicate Written(s: string, v: nat) {
    || (AllBlank(s) && v == 0)
    || exists i, j, k :: 0 <= i < j <= k <= |s| && WrittenAt(s, i, j, k, v)
  }

  ghost predicate WrittenAt(s: string, i: nat, j: nat, k: nat, v: nat)
    requires i < j <= k <= |s|
  {
    && AllBlank(s[..i]) && AllBlank(s[k..]) && AllDigits(s[i..j]) && Unit(s[j..k]) != 0
    && v == Value(s[i..j]) * Unit(s[j..k]) <= 4_611_686_018_427_387_903
  }

  lemma {:induction false} TrimLeftSplits(s: string)
    ensures var t := TrimLeft(s);
            && |t| <= |s| && t == s[|s| - |t|..] && AllBlank(s[..|s| - |t|]) && (t != "" ==> !Blank(t[0]))
  {
    if s != "" && IsSpace(s[0]) {
      TrimLeftSplits(s[1..]);
      var n := |s| - |TrimLeft(s)|;
      assert s[..n] == [s[0]] + s[1..][..n - 1];
    }
  }

  lemma {:induction false} TrimRightSplits(s: string)
    ensures var t := TrimRight(s);
            && |t| <= |s| && t == s[..|t|] && AllBlank(s[|t|..]) && (t != "" ==> !Blank(t[|t| - 1]))
  {
    if s != "" && IsSpace(s[|s| - 1]) {
      TrimRightSplits(s[..|s| - 1]);
      var n := |TrimRight(s)|;
      assert s[n..] == s[..|s| - 1][n..] + [s[|s| - 1]];
    }
  }

  /** Trimming cuts blanks at both ends and stops at the first other character. */
  lemma {:induction false} TrimSplits(s: string) returns (i: nat, k: nat)
    ensures i <= k <= |s| && TrimSpace(s) == s[i..k] && AllBlank(s[..i]) && AllBlank(s[k..])
    ensures i < k ==> !Blank(s[i]) && !Blank(s[k - 1])
  {
    var t := TrimLeft(s);
    TrimLeftSplits(s);
    TrimRightSplits(t);
    i := |s| - |t|;
    k := i + |TrimRight(t)|;
    assert s[k..] == t[k - i..];
    if i < k {
      assert s[i] == TrimSpace(s)[0] && s[k - 1] == TrimSpace(s)[k - i - 1];
      assert TrimSpace(s)[0] == t[0];
    }
  }

  lemma {:induction false} UnitHasNoBlank(u: string)
    requires Unit(u) != 0 && u != ""
    ensures !Blank(u[|u| - 1])
  {
  }

  /** A text written between blanks is what trimming leaves. */
  lemma {:induction false} WrittenIsTrimmed(s: string, i: nat, j: nat, k: nat, v: nat)
    requires i < j <= k <= |s| && WrittenAt(s, i, j, k, v)
    ensures TrimSpace(s) == s[i..k]
  {
    var a, b := TrimSplits(s);
    assert !Blank(s[i]) by { assert s[i..j][0] == s[i]; }
    assert !Blank(s[k - 1]) by {
      if j < k {
        UnitHasNoBlank(s[j..k]);
      } else {
        assert s[i..j][j - i - 1] == s[k - 1];
      }
    }
    SameEdges(s, i, k, a, b);
  }

  lemma {:induction false} SameEdges(s: string, i: nat, k: nat, a: nat, b: nat)
    requires i < k <= |s| && a <= b <= |s|
    requires AllBlank(s[..i]) && AllBlank(s[k..]) && !Blank(s[i]) && !Blank(s[k - 1])
    requires AllBlank(s[..a]) && AllBlank(s[b..]) && (a < b ==> !Blank(s[a]) && !Blank(s[b - 1]))
    ensures a == i && b == k
  {
    BlankEnds(s, i, k);
    BlankEnds(s, a, b);
  }

  lemma {:induction false} BlankEnds(s: string, i: nat, k: nat)
    requires i <= |s| && k <= |s| && AllBlank(s[..i]) && AllBlank(s[k..])
    ensures forall n :: 0 <= n < |s| && (n < i || k <= n) ==> Blank(s[n])
  {
    forall n | 0 <= n < |s| && (n < i || k <= n) ensures Blank(s[n]) {
      assert s[n] == if n < i then s[..i][n] else s[k..][n - k];
    }
  }

  /**
   The accepted language character by character: a text is accepted with value v exactly when it is
   written so.
   */
  lemma {:induction false} GrammarIsExact(s: string, v: nat)
    ensures Written(s, v) <==> v <= 4_611_686_018_427_387_903 && BandwidthOf(s) == Ok(v)
  {
    ParserIsExact(s, v);
    var a, b := TrimSplits(s);
    var t := TrimSpace(s);
    if Denotes(t, v) {
      DenotedIsWritten(s, a, b, v);
    }
    if Written(s, v) {
      WrittenIsDenoted(s, v);
    }
  }

  lemma {:induction false} DenotedIsWritten(s: string, a: nat, b: nat, v: nat)
    requires a <= b <= |s| && AllBlank(s[..a]) && AllBlank(s[b..]) && Denotes(s[a..b], v)
    ensures Written(s, v)
  {
    var t := s[a..b];
    if t == "" {
      assert s == s[..a] + s[b..];
    } else {
      var n :| 0 < n <= |t| && Reads(t, n, v);
      assert t[..n] == s[a..a + n] && t[n..] == s[a + n..b];
      UnitIsSuffix(t[n..]);
      assert WrittenAt(s, a, a + n, b, v);
    }
  }

  lemma {:induction false} WrittenIsDenoted(s: string, v: nat)
    requires Written(s, v)
    ensures Denotes(TrimSpace(s), v)
  {
    var a, b := TrimSplits(s);
    if AllBlank(s) && v == 0 {
      assert TrimSpace(s) == "";
    } else {
      var i, j, k :| 0 <= i < j <= k <= |s| && WrittenAt(s, i, j, k, v);
      WrittenIsTrimmed(s, i, j, k, v);
      var t := s[i..k];
      assert t[..j - i] == s[i..j] && t[j - i..] == s[j..k];
      UnitIsSuffix(s[j..k]);
      assert Reads(t, j - i, v);
    }
  }

  /** Why a number with something after it is refused: too many digits, no unit, or too large a product. */
  lemma {:induction false} RefusedBecause(d: string, u: string)
    requires d != "" && AllDigits(d) && (u != "" ==> !IsDigit(u[0]) && !Blank(u[|u| - 1]))
    ensures BandwidthOf(d + u) ==
            if Value(d) >= 0x8000_0000_0000_0000 then InvalidNumber
            else if Unit(u) == 0 then UnknownSuffix
            else if Value(d) * Unit(u) > 4_611_686_018_427_387_903 then TooLarge
            else Ok(Value(d) * Unit(u))
  {
    var t := d + u;
    assert t[..|d|] == d && t[|d|..] == u && t[|d| - 1] == d[|d| - 1] && t[0] == d[0];
    TrimKeeps(t);
    SplitAt(t, |d|);
    UnitIsSuffix(u);
    assert !(d[0] == '-' || d[0] == '+');
    if Unit(u) != 0 {
      MulLe(0, Value(d), Unit(u));
      BelowQuotient(Value(d), Unit(u), MAX_RATE);
    }
  }
}
