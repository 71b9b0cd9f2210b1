/** What the text of an instant looks like to a reader who meets it in the middle of a string:
    where its colons stand, and how its century begins it. */
module IsoShape {
  import opened Text
  import opened IsoTime

  predicate IsDigit(c: char) {
    '0' <= c <= '9'
  }

  /** After each colon come two characters, and then the end or something that is no digit. */
  predicate ColonsShaped(s: string) {
    forall j | 0 <= j < |s| && s[j] == ':' :: j + 3 <= |s| && (j + 3 == |s| || !IsDigit(s[j + 3]))
  }

  lemma {:induction false} DigitsAreDigits(n: nat, w: nat)
    ensures forall c | c in Digits(n, w) :: IsDigit(c)
  {
    if w > 0 { DigitsAreDigits(n / 10, w - 1); }
  }

  lemma ShapedAfterPlain(p: string, s: string)
    requires ':' !in p && ColonsShaped(s)
    ensures ColonsShaped(p + s)
  {
    var all := p + s;
    forall j | 0 <= j < |all| && all[j] == ':'
      ensures j + 3 <= |all| && (j + 3 == |all| || !IsDigit(all[j + 3]))
    {
      assert j >= |p| ==> s[j - |p|] == ':';
    }
  }

  lemma ShapedAfterColon(d: string, s: string)
    requires |d| == 2 && ':' !in d && ColonsShaped(s) && s != "" && !IsDigit(s[0])
    ensures ColonsShaped(":" + (d + s)) && !IsDigit((":" + (d + s))[0])
  {
    ShapedAfterPlain(d, s);
    var all := ":" + (d + s);
    forall j | 0 <= j < |all| && all[j] == ':'
      ensures j + 3 <= |all| && (j + 3 == |all| || !IsDigit(all[j + 3]))
    {
      if j > 0 { assert (d + s)[j - 1] == ':'; }
    }
  }

  lemma FractionShaped(micros: nat)
    ensures ColonsShaped(FractionText(micros)) && FractionText(micros) != "" && !IsDigit(FractionText(micros)[0])
  {
    if micros != 0 {
      ShapedAfterPlain(Digits(micros, 6), "+00:00");
      ShapedAfterPlain(".", Digits(micros, 6) + "+00:00");
    }
  }

  lemma ClockShaped(second: nat, micros: nat)
    ensures ColonsShaped(ClockText(second, micros))
  {
    var fraction := FractionText(micros);
    FractionShaped(micros);
    var seconds := ":" + (Digits(second % 60, 2) + fraction);
    ShapedAfterColon(Digits(second % 60, 2), fraction);
    ShapedAfterColon(Digits(second / 60 % 60, 2), seconds);
    ShapedAfterPlain(Digits(second / 3600, 2), ":" + (Digits(second / 60 % 60, 2) + seconds));
  }

  lemma DateShaped(d: Date, rest: string)
    requires ValidDate(d) && ColonsShaped(rest)
    ensures ColonsShaped(DateText(d, rest))
  {
    var day := "T" + rest;
    ShapedAfterPlain("T", rest);
    ShapedAfterPlain(Digits(d.day, 2), day);
    var month := "-" + (Digits(d.day, 2) + day);
    ShapedAfterPlain("-", Digits(d.day, 2) + day);
    ShapedAfterPlain(Digits(d.month, 2), month);
    ShapedAfterPlain("-", Digits(d.month, 2) + month);
    ShapedAfterPlain(Digits(d.year, 4), "-" + (Digits(d.month, 2) + month));
  }

  lemma IsoIsShaped(t: int)
    requires IsInstant(t)
    ensures ColonsShaped(IsoFormat(t))
  {
    var seconds := t / SECOND;
    ClockShaped(seconds % DAY_SECONDS, t % SECOND);
    DateShaped(DateOf(seconds / DAY_SECONDS), ClockText(seconds % DAY_SECONDS, t % SECOND));
  }

  // ---- Centuries ------------------------------------------------------------------------

  function YearOfInstant(t: int): (y: int)
    requires IsInstant(t)
    ensures y >= 1
  {
    DateOf(t / SECOND / DAY_SECONDS).year
  }

  /** The hundreds of the two years agree. */
  predicate SameCentury(a: int, b: int)
    requires IsInstant(a) && IsInstant(b)
  {
    YearOfInstant(a) / 100 == YearOfInstant(b) / 100
  }

  lemma YearsAreOrdered(a: int, b: int)
    requires IsInstant(a) && IsInstant(b) && a <= b
    ensures YearOfInstant(a) <= YearOfInstant(b)
  {
    OrdinalOrder(DateOf(b / SECOND / DAY_SECONDS), DateOf(a / SECOND / DAY_SECONDS));
  }

  lemma CenturyOfWindow(lo: int, t: int, hi: int)
    requires IsInstant(lo) && IsInstant(hi) && lo <= t <= hi && SameCentury(lo, hi)
    ensures SameCentury(t, hi)
  {
    YearsAreOrdered(lo, t);
    YearsAreOrdered(t, hi);
  }

  /** Instants of one century are those whose texts begin with the same two characters. */
  lemma CenturyIsPrefix(a: int, b: int)
    requires IsInstant(a) && IsInstant(b)
    ensures |IsoFormat(a)| > 2 && |IsoFormat(b)| > 2
    ensures SameCentury(a, b) <==> IsoFormat(a)[..2] == IsoFormat(b)[..2]
  {
    IsoStart(a);
    IsoStart(b);
    FourDigitYear(a / SECOND / DAY_SECONDS);
    FourDigitYear(b / SECOND / DAY_SECONDS);
    assert Pow10(2) == 100 && Pow10(4) == 10_000;
    DigitsOrder(YearOfInstant(a) / 100, YearOfInstant(b) / 100, 2);
  }

  lemma DigitsFront(n: nat, w: nat)
    requires w > 0
    ensures Digits(n, w)[..w - 1] == Digits(n / 10, w - 1)
  {
  }

  /** The year begins the text, and its hundreds begin the year. */
  lemma IsoStart(t: int)
    requires IsInstant(t)
    ensures var y := YearOfInstant(t);
            && |IsoFormat(t)| >= 4 && IsoFormat(t)[..2] == Digits(y / 100, 2)
            && IsDigit(IsoFormat(t)[2])
  {
    var y := YearOfInstant(t);
    assert IsoFormat(t)[..4] == Digits(y, 4);
    DigitsFront(y, 4);
    DigitsFront(y / 10, 3);
    assert y / 10 / 10 == y / 100;
    assert Digits(y, 4)[..3][..2] == Digits(y, 4)[..2] == IsoFormat(t)[..2];
    DigitsAreDigits(y, 4);
    assert IsoFormat(t)[2] == Digits(y, 4)[2];
  }
}
