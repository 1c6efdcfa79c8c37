/** The two text rules the bot applies to what a person types: the admin's
    start date `YYYY-MM-DD` (with '/' accepted for '-') and the phone number
    rule `^\+?\d{9,15}$`. */
module Validators {
  import opened Text

  // -------------------------------------------------------------- dates

  /** `DATE_RE`: four digits, '-', two digits, '-', two digits, nothing else. */
  predicate DateShape(raw: string) {
    |raw| == 10 && raw[4] == '-' && raw[7] == '-' &&
    AllDigits(raw[..4]) && AllDigits(raw[5..7]) && AllDigits(raw[8..])
  }

  predicate IsLeap(y: int) {
    y % 4 == 0 && (y % 100 != 0 || y % 400 == 0)
  }

  function DaysInMonth(y: int, m: int): int
    requires 1 <= m <= 12
  {
    if m == 2 then (if IsLeap(y) then 29 else 28)
    else if m == 4 || m == 6 || m == 9 || m == 11 then 30
    else 31
  }

  /** What `datetime.strptime(raw, "%Y-%m-%d")` accepts: year from 1, a month
      of the calendar and a day that month has. */
  predicate ValidDate(y: int, m: int, d: int) {
    1 <= y && 1 <= m <= 12 && 1 <= d <= DaysInMonth(y, m)
  }

  /** The outcome of the admin's date message. */
  datatype DateEntry = BadFormat | BadDate | Accepted(year: int, month: int, day: int, iso: string)

  /** main.py:472-483: strip, turn '/' into '-', check the shape, then the
      calendar; the accepted date travels on as `isoformat()`, midnight. */
  function ReadDate(text: string): DateEntry {
    var raw := ReplaceChar(Strip(text), '/', '-');
    if !DateShape(raw) then BadFormat
    else
      var y, m, d := DigitsValue(raw[..4]), DigitsValue(raw[5..7]), DigitsValue(raw[8..]);
      if !ValidDate(y, m, d) then BadDate else Accepted(y, m, d, raw + "T00:00:00")
  }

  /** `n` written with exactly `w` digits, zero-padded (as `%Y`, `%m`, `%d` print). */
  function Pad(n: nat, w: nat): string {
    if w == 0 then "" else Pad(n / 10, w - 1) + [DigitChar(n % 10)]
  }

  function Pow10(w: nat): nat {
    if w == 0 then 1 else 10 * Pow10(w - 1)
  }

  /** `YYYY-MM-DD`. */
  function FormatDate(y: nat, m: nat, d: nat): string {
    Pad(y, 4) + "-" + Pad(m, 2) + "-" + Pad(d, 2)
  }

  lemma {:induction false} PadDigits(n: nat, w: nat)
    ensures |Pad(n, w)| == w && AllDigits(Pad(n, w))
  {
    if w > 0 {
      PadDigits(n / 10, w - 1);
    }
  }

  /** Padding to enough digits and reading back gives the number. */
  lemma {:induction false} PadValue(n: nat, w: nat)
    requires n < Pow10(w)
    ensures AllDigits(Pad(n, w)) && DigitsValue(Pad(n, w)) == n
  {
    PadDigits(n, w);
    if w > 0 {
      assert n / 10 < Pow10(w - 1);
      PadValue(n / 10, w - 1);
      var s := Pad(n, w);
      assert s[..|s| - 1] == Pad(n / 10, w - 1);
      assert n == (n / 10) * 10 + n % 10;
    }
  }

  /** Reading a digit string and padding it back to its width gives it back. */
  lemma {:induction false} PadOfDigits(s: string)
    requires AllDigits(s)
    ensures Pad(DigitsValue(s), |s|) == s
  {
    if s != [] {
      var init := s[..|s| - 1];
      var v := DigitsValue(init);
      var c := s[|s| - 1];
      var dc := c as int - '0' as int;
      assert 0 <= dc < 10;
      PadOfDigits(init);
      assert (v * 10 + dc) / 10 == v;
      assert (v * 10 + dc) % 10 == dc;
      assert DigitChar(dc) == c;
      assert init + [c] == s;
    }
  }

  /** A digit string of width `w` reads as less than 10^w. */
  lemma {:induction false} DigitsBound(s: string)
    requires AllDigits(s)
    ensures DigitsValue(s) < Pow10(|s|)
  {
    if s != [] {
      DigitsBound(s[..|s| - 1]);
    }
  }

  lemma FormatParts(y: nat, m: nat, d: nat)
    ensures var s := FormatDate(y, m, d);
      |s| == 10 && s[4] == '-' && s[7] == '-' &&
      s[..4] == Pad(y, 4) && s[5..7] == Pad(m, 2) && s[8..] == Pad(d, 2)
  {
    PadDigits(y, 4);
    PadDigits(m, 2);
    PadDigits(d, 2);
  }

  /** Text made of digits and '-' has no whitespace and no '/'. */
  lemma DigitsAndDashes(s: string)
    requires forall i :: 0 <= i < |s| ==> IsDigit(s[i]) || s[i] == '-'
    ensures NoSpace(s) && ReplaceChar(s, '/', '-') == s
  {
  }

  /** A calendar date typed as `YYYY-MM-DD` is accepted with exactly that
      date, and its ISO text is that input followed by midnight. */
  lemma ReadFormatted(y: nat, m: nat, d: nat)
    requires ValidDate(y, m, d) && y < 10000
    ensures ReadDate(FormatDate(y, m, d)) == Accepted(y, m, d, FormatDate(y, m, d) + "T00:00:00")
  {
    var s := FormatDate(y, m, d);
    FormatParts(y, m, d);
    assert Pow10(2) == 100 && Pow10(4) == 10000;
    PadValue(y, 4);
    PadValue(m, 2);
    PadValue(d, 2);
    forall i | 0 <= i < |s| ensures IsDigit(s[i]) || s[i] == '-' {
      if i < 4 { assert s[i] == s[..4][i]; }
      else if 4 < i < 7 { assert s[i] == s[5..7][i - 5]; }
      else if 7 < i { assert s[i] == s[8..][i - 8]; }
    }
    DigitsAndDashes(s);
    StripNoSpace(s);
    assert ReplaceChar(Strip(s), '/', '-') == s;
    assert DateShape(s);
  }

  /** Text of the `DATE_RE` shape is its own three numbers, zero-padded. */
  lemma ShapeIsFormatted(raw: string)
    requires DateShape(raw)
    ensures DigitsValue(raw[..4]) < 10000
    ensures raw == FormatDate(DigitsValue(raw[..4]), DigitsValue(raw[5..7]), DigitsValue(raw[8..]))
  {
    DigitsBound(raw[..4]);
    assert Pow10(4) == 10000;
    PadOfDigits(raw[..4]);
    PadOfDigits(raw[5..7]);
    PadOfDigits(raw[8..]);
    assert raw == raw[..4] + "-" + raw[5..7] + "-" + raw[8..];
  }

  /** Every accepted entry is a real calendar date, and its ISO text is the
      zero-padded date followed by midnight. */
  lemma AcceptedIsCalendarDate(text: string)
    requires ReadDate(text).Accepted?
    ensures var e := ReadDate(text);
      ValidDate(e.year, e.month, e.day) && e.year < 10000 &&
      e.iso == FormatDate(e.year, e.month, e.day) + "T00:00:00"
  {
    var raw := ReplaceChar(Strip(text), '/', '-');
    ShapeIsFormatted(raw);
  }

  // -------------------------------------------------------------- phones

  /** `^\+?\d{9,15}$` on the stripped text: an optional leading '+', then 9 to 15 digits. */
  predicate PhoneOk(t: string) {
    var d := if |t| > 0 && t[0] == '+' then t[1..] else t;
    AllDigits(d) && 9 <= |d| <= 15
  }

  /** Both written forms of a 9-15 digit number pass. */
  lemma PhoneForms(d: string)
    requires AllDigits(d) && 9 <= |d| <= 15
    ensures PhoneOk(d) && PhoneOk("+" + d)
  {
    assert d[0] != '+' by { assert IsDigit(d[0]); }
    assert ("+" + d)[1..] == d;
  }

  /** An accepted phone is 9 to 16 characters, all digits but a possible
      leading '+', and has no surrounding whitespace (what is stored is what
      was matched). */
  lemma PhoneShape(t: string)
    requires PhoneOk(t)
    ensures 9 <= |t| <= 16
    ensures forall i :: 0 <= i < |t| ==> IsDigit(t[i]) || (i == 0 && t[i] == '+')
    ensures Strip(t) == t
  {
    forall i | 0 <= i < |t| ensures IsDigit(t[i]) || (i == 0 && t[i] == '+') {
      if |t| > 0 && t[0] == '+' && i > 0 {
        assert t[i] == t[1..][i - 1];
      }
    }
    StripNoSpace(t);
  }
}
