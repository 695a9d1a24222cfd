/**
 Dates as text, YYYY-MM-DD.
 */
module DateText {
  import opened Json
  import opened Text
  import opened Calendar

  function Digits(s: string): Option<nat> {
    if s == [] then Some(0)
    else
      var front, last := Digits(s[..|s| - 1]), s[|s| - 1];
      if front.Some? && Text.Digit(last) then Some(10 * front.value + (last as int - '0' as int)) else None
  }

  // An unsigned number, with or without a plus sign.
  function Number(s: string): Option<nat> {
    var digits := if s != [] && s[0] == '+' then s[1..] else s;
    if digits == [] then None else Digits(digits)
  }

  function ParseDate(s: string): Option<int> {
    var parts := SplitOn(s, '-');
    if |parts| != 3 || |parts[0]| != 4 || |parts[1]| != 2 || |parts[2]| != 2 then None
    else
      var (year, month, day) := (Number(parts[0]), Number(parts[1]), Number(parts[2]));
      if year.None? || month.None? || day.None? then None
      else
        var d := Date(year.value, month.value, day.value);
        if Valid(d) then Some(DayNumber(d)) else None
  }

  // ----- Writing a date -----

  function Digit(k: int): char
    requires 0 <= k < 10
  {
    ('0' as int + k) as char
  }

  function Format2(n: int): string
    requires 0 <= n < 100
  {
    [Digit(n / 10), Digit(n % 10)]
  }

  function Format4(n: int): string
    requires 0 <= n < 10000
  {
    Format2(n / 100) + Format2(n % 100)
  }

  function FormatDate(d: Date): string
    requires Valid(d) && 0 <= d.year < 10000
  {
    Format4(d.year) + "-" + Format2(d.month) + "-" + Format2(d.day)
  }

  lemma DigitsSnoc(s: string, k: int)
    requires 0 <= k < 10 && Digits(s).Some?
    ensures Digits(s + [Digit(k)]) == Some(10 * Digits(s).value + k)
  {
    assert (s + [Digit(k)])[..|s|] == s;
  }

  lemma DigitsTwo(s: string, n: int)
    requires 0 <= n < 100 && Digits(s).Some?
    ensures Digits(s + Format2(n)) == Some(100 * Digits(s).value + n)
  {
    DigitsSnoc(s, n / 10);
    DigitsSnoc(s + [Digit(n / 10)], n % 10);
    assert s + Format2(n) == s + [Digit(n / 10)] + [Digit(n % 10)];
  }

  lemma NumberTwo(n: int)
    requires 0 <= n < 100
    ensures Number(Format2(n)) == Some(n)
  {
    DigitsTwo([], n);
    assert [] + Format2(n) == Format2(n);
  }

  lemma NumberFour(n: int)
    requires 0 <= n < 10000
    ensures Number(Format4(n)) == Some(n)
  {
    DigitsTwo([], n / 100);
    assert [] + Format2(n / 100) == Format2(n / 100);
    DigitsTwo(Format2(n / 100), n % 100);
  }

  lemma NoDash(n: int, m: int)
    requires 0 <= n < 100 && 0 <= m < 10000
    ensures '-' !in Format2(n) && '-' !in Format4(m)
    ensures Format2(n)[0] != '+' && Format4(m)[0] != '+'
  {
  }

  // Every date from year 0 to 9999, written out, is read back as its day number.
  lemma ParseFormat(d: Date)
    requires Valid(d) && 0 <= d.year < 10000
    ensures ParseDate(FormatDate(d)) == Some(DayNumber(d))
  {
    var y, m, day := Format4(d.year), Format2(d.month), Format2(d.day);
    NoDash(d.month, d.year);
    NoDash(d.day, d.year);
    SplitWhole(day, '-');
    SplitFirst(m, day, '-');
    SplitFirst(y, m + "-" + day, '-');
    assert FormatDate(d) == y + ['-'] + (m + ['-'] + day);
    assert SplitOn(FormatDate(d), '-') == [y, m, day];
    NumberTwo(d.month);
    NumberTwo(d.day);
    NumberFour(d.year);
  }

  // Two written dates compare as their day numbers do, so a page verified on a
  // later day than the page that cites it is noticed exactly then.
  lemma ParsedOrder(a: Date, b: Date)
    requires Valid(a) && Valid(b) && 0 <= a.year < 10000 && 0 <= b.year < 10000
    ensures ParseDate(FormatDate(a)).Some? && ParseDate(FormatDate(b)).Some?
    ensures ParseDate(FormatDate(a)).value <= ParseDate(FormatDate(b)).value <==> !Before(b, a)
  {
    ParseFormat(a);
    ParseFormat(b);
    CalendarOrder(b, a);
  }

  // ----- What else is accepted -----

  lemma TwoDigits(p: string)
    requires |p| == 2 && Digits(p).Some?
    ensures Digits(p).value < 100 && p == Format2(Digits(p).value)
  {
    var tens, ones := p[0] as int - '0' as int, p[1] as int - '0' as int;
    assert p[..1] == [p[0]] && p[..1][..0] == [];
    assert Digits(p[..1]).Some?;
    assert Digits(p[..1][..0]) == Some(0);
    assert Digits(p[..1]) == Some(tens);
    assert Digits(p) == Some(10 * tens + ones);
  }

  lemma {:induction false} AllDigits(s: string)
    ensures Digits(s).Some? <==> forall i :: 0 <= i < |s| ==> Text.Digit(s[i])
  {
    if s != [] { AllDigits(s[..|s| - 1]); }
  }

  lemma FormatPair(high: int, low: int)
    requires 0 <= high < 100 && 0 <= low < 100
    ensures Format4(100 * high + low) == Format2(high) + Format2(low)
  {
    Hundreds(high, low);
  }

  lemma Hundreds(high: int, low: int)
    requires 0 <= low < 100
    ensures (100 * high + low) / 100 == high && (100 * high + low) % 100 == low
  {
  }

  lemma FourDigits(p: string)
    requires |p| == 4 && Digits(p).Some?
    ensures Digits(p).value < 10000 && p == Format4(Digits(p).value)
  {
    AllDigits(p);
    AllDigits(p[..2]);
    AllDigits(p[2..]);
    TwoDigits(p[..2]);
    TwoDigits(p[2..]);
    var high, low := Digits(p[..2]).value, Digits(p[2..]).value;
    assert p == p[..2] + Format2(low);
    DigitsTwo(p[..2], low);
    FormatPair(high, low);
  }

  lemma NumberPlain(p: string)
    requires '+' !in p && Number(p).Some?
    ensures p != [] && Digits(p) == Number(p)
  {
  }

  // Apart from plus signs, nothing but written dates is accepted.
  lemma ParsedIsWritten(s: string) returns (d: Date)
    requires ParseDate(s).Some? && '+' !in s
    ensures Valid(d) && 0 <= d.year < 10000 && s == FormatDate(d) && ParseDate(s) == Some(DayNumber(d))
  {
    var parts := SplitOn(s, '-');
    SplitJoin(s, '-');
    var y, m, day := parts[0], parts[1], parts[2];
    assert parts[1..][1..] == [day] && parts[1..][0] == m;
    JoinedFirst(parts, "-");
    JoinedFirst(parts[1..], "-");
    assert Joined(parts[1..][1..], "-") == day;
    assert Joined(parts[1..], "-") == m + ['-'] + day;
    assert s == y + ['-'] + (m + ['-'] + day);
    forall c | c in y || c in m || c in day ensures c in s {}
    NumberPlain(y);
    NumberPlain(m);
    NumberPlain(day);
    FourDigits(y);
    TwoDigits(m);
    TwoDigits(day);
    d := Date(Number(y).value, Number(m).value, Number(day).value);
    assert FormatDate(d) == y + ['-'] + (m + ['-'] + day);
  }
}
