/** The `MM:SS` text that `formatTime` returns and `updateDisplay` writes,
    computed with JavaScript's number operations: `Math.floor`, the
    truncating `%`, `Number.prototype.toString` and `padStart(2, '0')`. */
module TimeFormat {

  datatype Option<T> = None | Some(value: T)

  /** `Math.floor(s / 60)`: Dafny's `/` by a positive divisor already rounds down. */
  function FloorDiv60(s: int): (q: int)
    ensures q * 60 <= s < q * 60 + 60
  {
    s / 60
  }

  /** JavaScript's `s % 60`: the remainder keeps the sign of the dividend. */
  function JsRem60(s: int): (r: int)
    ensures -60 < r < 60
    ensures (s - r) % 60 == 0
    ensures r == 0 || (r < 0 <==> s < 0)
  {
    if s >= 0 then s % 60 else -((-s) % 60)
  }

  predicate IsDigit(c: char) {
    '0' <= c <= '9'
  }

  predicate AllDigits(s: string) {
    forall k :: 0 <= k < |s| ==> IsDigit(s[k])
  }

  function DigitChar(d: nat): (c: char)
    requires d < 10
    ensures IsDigit(c) && c as int - '0' as int == d
  {
    ('0' as int + d) as char
  }

  /** The number a string of decimal digits denotes (leading zeros allowed). */
  function Value(s: string): nat
    requires AllDigits(s)
  {
    if s == [] then 0 else Value(s[..|s| - 1]) * 10 + (s[|s| - 1] as int - '0' as int)
  }

  /** `n.toString()` for a non-negative integer: shortest decimal, no leading zero. */
  function NatToString(n: nat): (r: string)
    ensures |r| >= 1 && AllDigits(r)
    ensures |r| > 1 ==> r[0] != '0'
    decreases n
  {
    if n < 10 then [DigitChar(n)] else NatToString(n / 10) + [DigitChar(n % 10)]
  }

  /** `i.toString()` for any integer. */
  function IntToString(i: int): (r: string)
    ensures i >= 0 ==> r == NatToString(i)
    ensures i < 0 ==> r == "-" + NatToString(-i)
  {
    if i < 0 then "-" + NatToString(-i) else NatToString(i)
  }

  /** `s.padStart(width, fill)`: prepends `fill` up to `width`, never truncates. */
  function PadStart(s: string, width: nat, fill: char): (r: string)
    ensures |r| == if |s| >= width then |s| else width
    decreases width - |s|
  {
    if |s| >= width then s else PadStart([fill] + s, width, fill)
  }

  /** `width` copies of `c`. */
  function Repeat(c: char, width: nat): (r: string)
    ensures |r| == width && forall k :: 0 <= k < width ==> r[k] == c
  {
    seq(width, _ => c)
  }

  /** `padStart` puts exactly the missing number of fill characters in front. */
  lemma {:induction false} PadStartShape(s: string, width: nat, fill: char)
    ensures PadStart(s, width, fill) == if |s| >= width then s else Repeat(fill, width - |s|) + s
    decreases width - |s|
  {
    if |s| < width {
      PadStartShape([fill] + s, width, fill);
      assert Repeat(fill, width - |s| - 1) + ([fill] + s) == Repeat(fill, width - |s|) + s;
    }
  }

  /** `n.toString().padStart(2, '0')`: one field of the display. */
  function Field(n: int): string
  {
    PadStart(IntToString(n), 2, '0')
  }

  /** `formatTime(seconds)`, and the text `updateDisplay` shows for `timeLeft`. */
  function FormatTime(seconds: int): string
  {
    Field(FloorDiv60(seconds)) + ":" + Field(JsRem60(seconds))
  }

  /** Reads `MM:SS` back: any number of minute digits, a colon, two second
      digits below 60. The inverse that `FormatTime` is proved against. */
  function ParseClock(t: string): (r: Option<int>)
    ensures r.Some? ==> |t| >= 4 && t[|t| - 3] == ':'
  {
    if |t| >= 4 && t[|t| - 3] == ':' && AllDigits(t[..|t| - 3]) && AllDigits(t[|t| - 2..])
       && Value(t[|t| - 2..]) < 60
    then Some(Value(t[..|t| - 3]) * 60 + Value(t[|t| - 2..]))
    else None
  }

  lemma {:induction false} ValueOfNatToString(n: nat)
    ensures Value(NatToString(n)) == n
    decreases n
  {
    var s := NatToString(n);
    if n >= 10 {
      assert s[..|s| - 1] == NatToString(n / 10);
      ValueOfNatToString(n / 10);
    }
  }

  /** What `toString` writes means the integer: decimal digits denoting a
      non-negative number, or a minus sign followed by decimal digits
      denoting the magnitude of a negative one. */
  lemma IntToStringMeaning(i: int)
    ensures var r := IntToString(i);
      (i >= 0 ==> AllDigits(r) && Value(r) == i) &&
      (i < 0 ==> |r| >= 2 && r[0] == '-' && AllDigits(r[1..]) && Value(r[1..]) == -i)
  {
    if i < 0 {
      ValueOfNatToString(-i);
      assert IntToString(i)[1..] == NatToString(-i);
    } else {
      ValueOfNatToString(i);
    }
  }

  lemma {:induction false} NatToStringWidth(n: nat)
    ensures |NatToString(n)| <= 2 <==> n < 100
  {
    if n >= 100 {
      assert |NatToString(n / 10)| >= 2;
    }
  }

  lemma {:induction false} ValueOfZeros(z: string)
    requires forall k :: 0 <= k < |z| ==> z[k] == '0'
    ensures AllDigits(z) && Value(z) == 0
  {
    if z != [] {
      ValueOfZeros(z[..|z| - 1]);
    }
  }

  /** Leading zeros do not change the value of a digit string. */
  lemma {:induction false} ValueIgnoresLeadingZeros(z: string, s: string)
    requires forall k :: 0 <= k < |z| ==> z[k] == '0'
    requires AllDigits(s)
    ensures AllDigits(z + s) && Value(z + s) == Value(s)
    decreases |s|
  {
    ValueOfZeros(z);
    if s == [] {
      assert z + s == z;
    } else {
      var t := z + s;
      assert t[..|t| - 1] == z + s[..|s| - 1];
      ValueIgnoresLeadingZeros(z, s[..|s| - 1]);
    }
  }

  /** `padStart(2, '0')` of a non-negative count keeps its value. */
  lemma {:induction false} PaddedFieldValue(n: nat, f: string)
    requires f == Field(n)
    ensures AllDigits(f) && Value(f) == n
  {
    var s := NatToString(n);
    var z := f[..|f| - |s|];
    assert f == z + s && forall k :: 0 <= k < |z| ==> z[k] == '0' by {
      PadStartShape(s, 2, '0');
    }
    ValueOfNatToString(n);
    ValueIgnoresLeadingZeros(z, s);
  }

  /** ... and is two characters wide exactly when the count is below 100. */
  lemma {:induction false} PaddedFieldWidth(n: nat, f: string)
    requires f == Field(n)
    ensures |f| == (if n < 100 then 2 else |NatToString(n)|)
    ensures |f| == 2 <==> n < 100
    ensures n >= 100 ==> f == NatToString(n)
  {
    NatToStringWidth(n);
  }

  /** `ParseClock` splits a joined display back into its two fields. */
  lemma ParseClockJoin(m: string, c: string)
    requires |m| >= 1 && AllDigits(m)
    requires |c| == 2 && AllDigits(c) && Value(c) < 60
    ensures ParseClock(m + ":" + c) == Some(Value(m) * 60 + Value(c))
  {
    var t := m + ":" + c;
    assert t[..|t| - 3] == m;
    assert t[|t| - 2..] == c;
  }

  lemma SplitSeconds(s: int)
    requires s >= 0
    ensures FloorDiv60(s) >= 0 && 0 <= JsRem60(s) < 60
    ensures FloorDiv60(s) * 60 + JsRem60(s) == s
  {
  }

  /** For a non-negative count the display parses back to the same count. */
  lemma FormatTimeRoundTrip(s: nat)
    ensures ParseClock(FormatTime(s)) == Some(s)
  {
    SplitSeconds(s);
    var q, r: nat := FloorDiv60(s), JsRem60(s);
    var m, c := Field(q), Field(r);
    PaddedFieldValue(q, m);
    PaddedFieldValue(r, c);
    PaddedFieldWidth(r, c);
    var t := FormatTime(s);
    assert t == m + ":" + c;
    ParseClockJoin(m, c);
  }

  lemma MinutesBelow100(s: int)
    requires s >= 0
    ensures s / 60 < 100 <==> s < 6000
  {
  }

  /** The display is exactly five characters wide iff fewer than 100 minutes remain;
      beyond that the minutes field grows instead of being cut. */
  lemma FormatTimeWidth(s: int)
    requires s >= 0
    ensures |FormatTime(s)| == 5 <==> s < 6000
    ensures s >= 6000 ==> |FormatTime(s)| == |NatToString(s / 60)| + 3
  {
    var q, r := s / 60, s % 60;
    assert FloorDiv60(s) == q && JsRem60(s) == r;
    PaddedFieldWidth(q, Field(q));
    PaddedFieldWidth(r, Field(r));
    assert |FormatTime(s)| == |Field(q)| + 3;
    MinutesBelow100(s);
  }

  /** Below 100 a field is exactly two digits, tens first. */
  lemma TwoDigitField(n: nat)
    requires n < 100
    ensures Field(n) == [DigitChar(n / 10), DigitChar(n % 10)]
  {
    var hi, lo := n / 10, n % 10;
    var d := [DigitChar(hi), DigitChar(lo)];
    if n < 10 {
      assert hi == 0 && lo == n;
      assert IntToString(n) == [DigitChar(lo)];
      var p := ['0'] + [DigitChar(lo)];
      assert p == d;
      assert Field(n) == PadStart(p, 2, '0');
    } else {
      assert NatToString(hi) == [DigitChar(hi)];
      assert IntToString(n) == d;
    }
  }

  /** Below 100 minutes the display is `MM:SS` with both fields zero-padded. */
  lemma FormatTimeDigits(s: nat)
    requires s < 6000
    ensures var m, r := s / 60, s % 60;
      FormatTime(s) == [DigitChar(m / 10), DigitChar(m % 10), ':', DigitChar(r / 10), DigitChar(r % 10)]
  {
    var m, r := s / 60, s % 60;
    assert FloorDiv60(s) == m && JsRem60(s) == r;
    MinutesBelow100(s);
    TwoDigitField(m);
    TwoDigitField(r);
    assert FormatTime(s) == Field(m) + ":" + Field(r);
  }

  /** Four displays the timer shows: the initial 25 minutes, a minute later,
      zero, and the transient value a tick after zero. */
  lemma FormatTimeExamples()
    ensures FormatTime(1500) == "25:00"
    ensures FormatTime(1440) == "24:00"
    ensures FormatTime(0) == "00:00"
    ensures FormatTime(-1) == "-1:-1"
  {
  }
}
