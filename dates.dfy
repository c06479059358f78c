/** `convertDateString` (src/index.js:166-182): a JavaScript Date read back
    in local time and rendered as `YYYY-MM-DD HH:MM:SS`. Parsing the input
    string into a Date is the platform's business; this module starts from
    the calendar fields the Date getters return. */
module Dates {
  import opened Js

  /** A JavaScript Date as its local-time getters see it. An unparsable input
      string gives an invalid Date, whose getters all return NaN. */
  datatype JsDate =
    | InvalidDate
    | LocalTime(year: int, month: int, day: int, hours: int, minutes: int, seconds: int)
  {
    /** The ranges the getters guarantee: `getMonth()` is zero-based, and a
        Date lies within 100,000,000 days of 1970, so its year is between
        -271821 and 275760 (small enough that `toString()` never switches to
        exponent notation). */
    predicate WellFormed() {
      LocalTime? ==>
        && -271821 <= year <= 275760
        && 0 <= month <= 11
        && 1 <= day <= 31
        && 0 <= hours <= 23
        && 0 <= minutes <= 59
        && 0 <= seconds <= 59
    }
  }

  type LocalDate = d: JsDate | d.WellFormed() witness InvalidDate

  /** The numbers the getters return: an integer, or NaN for an invalid Date. */
  datatype Number = NaN | Whole(n: int)

  function GetFullYear(d: JsDate): Number { if d.InvalidDate? then NaN else Whole(d.year) }
  function GetMonth(d: JsDate): Number { if d.InvalidDate? then NaN else Whole(d.month) }
  function GetDate(d: JsDate): Number { if d.InvalidDate? then NaN else Whole(d.day) }
  function GetHours(d: JsDate): Number { if d.InvalidDate? then NaN else Whole(d.hours) }
  function GetMinutes(d: JsDate): Number { if d.InvalidDate? then NaN else Whole(d.minutes) }
  function GetSeconds(d: JsDate): Number { if d.InvalidDate? then NaN else Whole(d.seconds) }

  /** `x + k`; NaN absorbs the addition. */
  function Plus(x: Number, k: int): Number {
    match x
    case NaN => NaN
    case Whole(n) => Whole(n + k)
  }

  predicate IsDigit(c: char) {
    '0' <= c <= '9'
  }

  predicate AllDigits(s: string) {
    forall i :: 0 <= i < |s| ==> IsDigit(s[i])
  }

  function DigitChar(d: nat): (c: char)
    requires d < 10
    ensures IsDigit(c)
  {
    ('0' as int + d) as char
  }

  function DigitValue(c: char): (d: nat)
    requires IsDigit(c)
    ensures d < 10 && DigitChar(d) == c
  {
    c as int - '0' as int
  }

  /** The shortest decimal numeral of `n`. */
  function NatToString(n: nat): (s: string)
    ensures 1 <= |s| && AllDigits(s)
    ensures |s| == 1 || s[0] != '0'
    ensures s[0] == '0' <==> n == 0
  {
    if n < 10 then [DigitChar(n)] else NatToString(n / 10) + [DigitChar(n % 10)]
  }

  /** A decimal integer numeral without leading zeros or padding: an
      optional minus sign, then "0" alone or digits starting with 1..9;
      zero carries no sign. */
  predicate Unpadded(s: string) {
    if |s| > 0 && s[0] == '-'
    then |s| > 1 && AllDigits(s[1..]) && s[1] != '0'
    else |s| > 0 && AllDigits(s) && (|s| == 1 || s[0] != '0')
  }

  /** `Number.prototype.toString()` on an integer or NaN. */
  function ToString(x: Number): string {
    match x
    case NaN => "NaN"
    case Whole(n) => if n < 0 then "-" + NatToString(-n) else NatToString(n)
  }

  /** `String.prototype.padStart(width, fill)` with a one-character fill:
      `fill` is put in front until the string is `width` long; strings
      already that long are left alone. */
  function PadStart(s: string, width: nat, fill: char): string {
    if |s| >= width then s else seq(width - |s|, _ => fill) + s
  }

  /** The template `${year}-${month}-${day} ${hours}:${minutes}:${seconds}`. */
  function Render(year: string, month: string, day: string, hours: string, minutes: string,
                  seconds: string): string
  {
    year + ("-" + month + "-" + day + " " + hours + ":" + minutes + ":" + seconds)
  }

  /** `convertDateString`: year unpadded, the other five fields padded to two
      characters with '0', the month shifted from zero-based to one-based. */
  function ConvertDateString(date: LocalDate): string {
    var year := ToString(GetFullYear(date));
    var month := PadStart(ToString(Plus(GetMonth(date), 1)), 2, '0');
    var day := PadStart(ToString(GetDate(date)), 2, '0');
    var hours := PadStart(ToString(GetHours(date)), 2, '0');
    var minutes := PadStart(ToString(GetMinutes(date)), 2, '0');
    var seconds := PadStart(ToString(GetSeconds(date)), 2, '0');
    Render(year, month, day, hours, minutes, seconds)
  }

  // ---------------------------------------------------------------------
  // Reference definitions: two-digit fields and a parser for the layout

  /** Exactly two decimal digits, tens first. */
  function TwoDigits(n: nat): (s: string)
    requires n < 100
  {
    [DigitChar(n / 10), DigitChar(n % 10)]
  }

  /** The value of a decimal numeral, most significant digit first (0 for
      the empty string, which `ParseInt` rejects before calling this). */
  function ParseNat(s: string): nat
    requires AllDigits(s)
  {
    if s == [] then 0 else ParseNat(s[..|s| - 1]) * 10 + DigitValue(s[|s| - 1])
  }

  /** An integer numeral with an optional leading '-'. */
  function ParseInt(s: string): Option<int> {
    if |s| > 1 && s[0] == '-' && AllDigits(s[1..]) then Some(-(ParseNat(s[1..]) as int))
    else if |s| > 0 && AllDigits(s) then Some(ParseNat(s))
    else None
  }

  /** Reads `Y-MM-DD HH:MM:SS` back into calendar fields (month zero-based);
      the year is everything in front of the fixed 15-character tail. */
  function ParseTimestamp(s: string): Option<JsDate> {
    if |s| < 16 then None else ParseFields(s[..|s| - 15], s[|s| - 15..])
  }

  /** Whether `s[i]` and `s[i + 1]` are both digits. */
  predicate DigitPair(s: string, i: nat)
    requires i + 1 < |s|
  {
    IsDigit(s[i]) && IsDigit(s[i + 1])
  }

  /** The two-digit number at `s[i..i + 2]`. */
  function PairValue(s: string, i: nat): nat
    requires i + 1 < |s| && DigitPair(s, i)
  {
    DigitValue(s[i]) * 10 + DigitValue(s[i + 1])
  }

  /** Reads the year numeral `y` and the tail `-MM-DD HH:MM:SS`. */
  function ParseFields(y: string, t: string): Option<JsDate>
    requires |t| == 15
  {
    if && t[0] == '-' && t[3] == '-' && t[6] == ' ' && t[9] == ':' && t[12] == ':'
       && DigitPair(t, 1) && DigitPair(t, 4) && DigitPair(t, 7) && DigitPair(t, 10) && DigitPair(t, 13)
       && ParseInt(y).Some?
    then
      Some(LocalTime(ParseInt(y).value, PairValue(t, 1) - 1, PairValue(t, 4),
                     PairValue(t, 7), PairValue(t, 10), PairValue(t, 13)))
    else None
  }

  // ---------------------------------------------------------------------
  // Properties

  /** Decimal rendering and parsing are inverse. */
  lemma {:induction false} NatToStringParses(n: nat)
    ensures ParseNat(NatToString(n)) == n
  {
    var s := NatToString(n);
    if n >= 10 {
      var a := NatToString(n / 10);
      assert s == a + [DigitChar(n % 10)];
      assert s[..|s| - 1] == a;
      NatToStringParses(n / 10);
    }
  }

  /** `padStart(2, '0')` on the numeral of a number below 100 gives exactly
      its two decimal digits. */
  lemma PadTwo(n: nat)
    requires n < 100
    ensures PadStart(ToString(Whole(n)), 2, '0') == TwoDigits(n)
  {
    if n >= 10 {
      assert NatToString(n) == NatToString(n / 10) + [DigitChar(n % 10)];
    }
  }

  /** Integer rendering and parsing are inverse, negative years included. */
  lemma IntToStringParses(n: int)
    ensures ParseInt(ToString(Whole(n))) == Some(n)
  {
    if n < 0 {
      var s := ToString(Whole(n));
      assert s[1..] == NatToString(-n);
      NatToStringParses(-n);
    } else {
      NatToStringParses(n);
    }
  }

  /** An integer renders as its shortest numeral, which reads back as itself. */
  lemma UnpaddedYear(n: int)
    ensures Unpadded(ToString(Whole(n))) && ParseInt(ToString(Whole(n))) == Some(n)
  {
    IntToStringParses(n);
    if n < 0 {
      assert ToString(Whole(n))[1..] == NatToString(-n);
    }
  }

  /** A valid Date renders as the unpadded year followed by five two-digit
      fields; the month is the zero-based month plus one, so within 01..12. */
  lemma ConvertDateStringLayout(d: LocalDate)
    requires d.LocalTime?
    ensures 1 <= d.month + 1 <= 12
    ensures Unpadded(ToString(Whole(d.year))) && ParseInt(ToString(Whole(d.year))) == Some(d.year)
    ensures ConvertDateString(d)
         == Render(ToString(Whole(d.year)), TwoDigits(d.month + 1), TwoDigits(d.day),
                   TwoDigits(d.hours), TwoDigits(d.minutes), TwoDigits(d.seconds))
  {
    var month := PadStart(ToString(Plus(GetMonth(d), 1)), 2, '0');
    var day := PadStart(ToString(GetDate(d)), 2, '0');
    var hours := PadStart(ToString(GetHours(d)), 2, '0');
    var minutes := PadStart(ToString(GetMinutes(d)), 2, '0');
    var seconds := PadStart(ToString(GetSeconds(d)), 2, '0');
    assert month == TwoDigits(d.month + 1) by { PadTwo(d.month + 1); }
    assert day == TwoDigits(d.day) by { PadTwo(d.day); }
    assert hours == TwoDigits(d.hours) by { PadTwo(d.hours); }
    assert minutes == TwoDigits(d.minutes) by { PadTwo(d.minutes); }
    assert seconds == TwoDigits(d.seconds) by { PadTwo(d.seconds); }
    UnpaddedYear(d.year);
  }

  /** An invalid Date renders as NaN in every field: padStart leaves the
      three-character "NaN" as it is. */
  lemma ConvertInvalidDate()
    ensures ConvertDateString(InvalidDate) == "NaN-NaN-NaN NaN:NaN:NaN"
  {
  }

  /** With two-character fields the template has a fixed 15-character tail
      behind the year. */
  lemma RenderTail(y: string, a: string, b: string, c: string, d: string, e: string)
    requires |a| == |b| == |c| == |d| == |e| == 2
    ensures var s := Render(y, a, b, c, d, e);
      && |s| == |y| + 15
      && s[..|y|] == y
      && s[|y|..] == ['-', a[0], a[1], '-', b[0], b[1], ' ', c[0], c[1], ':', d[0], d[1], ':', e[0], e[1]]
  {
    var t := "-" + a + "-" + b + " " + c + ":" + d + ":" + e;
    assert t == ['-', a[0], a[1], '-', b[0], b[1], ' ', c[0], c[1], ':', d[0], d[1], ':', e[0], e[1]];
    var s := Render(y, a, b, c, d, e);
    assert s == y + t;
    assert s[..|y|] == y;
    assert s[|y|..] == t;
  }

  /** The two digits of `n` read back as `n`. */
  lemma TwoDigitsParse(n: nat)
    requires n < 100
    ensures DigitPair(TwoDigits(n), 0) && PairValue(TwoDigits(n), 0) == n
  {
    assert DigitValue(DigitChar(n / 10)) == n / 10;
    assert DigitValue(DigitChar(n % 10)) == n % 10;
  }

  /** The parser takes the template apart field by field. */
  lemma ParseRender(y: string, a: string, b: string, c: string, d: string, e: string)
    requires |a| == |b| == |c| == |d| == |e| == 2
    requires DigitPair(a, 0) && DigitPair(b, 0) && DigitPair(c, 0) && DigitPair(d, 0) && DigitPair(e, 0)
    requires ParseInt(y).Some?
    ensures ParseTimestamp(Render(y, a, b, c, d, e))
         == Some(LocalTime(ParseInt(y).value, PairValue(a, 0) - 1, PairValue(b, 0), PairValue(c, 0),
                           PairValue(d, 0), PairValue(e, 0)))
  {
    var s := Render(y, a, b, c, d, e);
    RenderTail(y, a, b, c, d, e);
    assert s[..|s| - 15] == y;
  }

  /** The rendering loses nothing: parsing it back gives the Date's fields,
      and the rendering of an invalid Date is not a timestamp at all. */
  lemma ConvertDateStringRoundTrip(d: LocalDate)
    ensures var e: JsDate := d; ParseTimestamp(ConvertDateString(d)) == if e.LocalTime? then Some(e) else None
  {
    if d.LocalTime? {
      ConvertDateStringLayout(d);
      TwoDigitsParse(d.month + 1);
      TwoDigitsParse(d.day);
      TwoDigitsParse(d.hours);
      TwoDigitsParse(d.minutes);
      TwoDigitsParse(d.seconds);
      IntToStringParses(d.year);
      ParseRender(ToString(Whole(d.year)), TwoDigits(d.month + 1), TwoDigits(d.day),
                  TwoDigits(d.hours), TwoDigits(d.minutes), TwoDigits(d.seconds));
    } else {
      ConvertInvalidDate();
      var s := "NaN-NaN-NaN NaN:NaN:NaN";
      assert s[|s| - 15..][0] == 'N';
    }
  }
}
