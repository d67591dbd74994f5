/** Times as stored text, `YYYY-MM-DD HH:MM:SS` in UTC: the text is read back exactly, and its order is the order
    of time (src/lumi/experiment/db.py, lines 21-84 and 456-464). */
module TimeText {
  import opened Common
  import opened Timestamps

  // ----- digits ------------------------------------------------------------------------------

  /** `w` decimal digits, the last of `n`. */
  function Pad(n: nat, w: nat): (text: string)
    ensures |text| == w
  {
    if w == 0 then "" else Pad(n / 10, w - 1) + [Digit(n % 10)]
  }

  function Power(w: nat): nat {
    if w == 0 then 1 else 10 * Power(w - 1)
  }

  function DigitValue(c: char): Option<nat> {
    if '0' <= c <= '9' then Some((c as int - '0' as int) as nat) else None
  }

  function Number(text: string): Option<nat> {
    if text == "" then Some(0)
    else
      match (Number(text[..|text| - 1]), DigitValue(text[|text| - 1]))
      case (Some(n), Some(d)) => Some(n * 10 + d)
      case _ => None
  }

  lemma {:induction false} PadIsRead(n: nat, w: nat)
    requires n < Power(w)
    ensures Number(Pad(n, w)) == Some(n)
  {
    if w > 0 {
      var text := Pad(n, w);
      PadIsRead(n / 10, w - 1);
      assert text[..w - 1] == Pad(n / 10, w - 1) && text[w - 1] == Digit(n % 10);
    }
  }

  lemma {:induction false} NumberIsPadded(text: string)
    requires Number(text).Some?
    ensures Number(text).value < Power(|text|) && Pad(Number(text).value, |text|) == text
  {
    if text != "" {
      var before, d := text[..|text| - 1], DigitValue(text[|text| - 1]).value;
      NumberIsPadded(before);
      var n := Number(before).value;
      assert (n * 10 + d) / 10 == n && (n * 10 + d) % 10 == d && Digit(d) == text[|text| - 1];
      assert text == before + [text[|text| - 1]];
    }
  }

  // ----- order of texts ----------------------------------------------------------------------

  lemma {:induction false} BeforeExtends(a: string, b: string, x: string, y: string)
    requires |a| == |b| && Before(a, b)
    ensures Before(a + x, b + y)
  {
    assert (a + x)[0] == a[0] && (b + y)[0] == b[0];
    if a[0] == b[0] {
      BeforeExtends(a[1..], b[1..], x, y);
      assert (a + x)[1..] == a[1..] + x && (b + y)[1..] == b[1..] + y;
    }
  }

  lemma {:induction false} BeforeAfterSame(a: string, x: string, y: string)
    requires Before(x, y)
    ensures Before(a + x, a + y)
  {
    if a == "" {
      assert a + x == x && a + y == y;
    } else {
      BeforeAfterSame(a[1..], x, y);
      assert (a + x)[1..] == a[1..] + x && (a + y)[1..] == a[1..] + y;
    }
  }

  lemma {:induction false} BeforeIsStrict(a: string, b: string)
    requires Before(a, b)
    ensures a != b && !Before(b, a)
  {
    if a != "" && a[0] == b[0] {
      BeforeIsStrict(a[1..], b[1..]);
    }
  }

  lemma {:induction false} NeverBeforeItself(a: string)
    ensures !Before(a, a)
  {
    if a != "" {
      NeverBeforeItself(a[1..]);
    }
  }

  lemma {:induction false} PadsAreOrdered(m: nat, n: nat, w: nat)
    requires m < n < Power(w)
    ensures Before(Pad(m, w), Pad(n, w))
  {
    if m / 10 < n / 10 {
      PadsAreOrdered(m / 10, n / 10, w - 1);
      BeforeExtends(Pad(m / 10, w - 1), Pad(n / 10, w - 1), [Digit(m % 10)], [Digit(n % 10)]);
    } else {
      assert m / 10 == n / 10 && m % 10 < n % 10;
      BeforeAfterSame(Pad(m / 10, w - 1), [Digit(m % 10)], [Digit(n % 10)]);
    }
  }

  // ----- three numbers with separators -----------------------------------------------------------

  datatype Three = Three(a: nat, b: nat, c: nat)

  /** The first number has `w` digits, the others two. */
  function ThreeText(t: Three, sep: char, w: nat): (text: string)
    ensures |text| == w + 6
  {
    Pad(t.a, w) + ([sep] + (Pad(t.b, 2) + ([sep] + Pad(t.c, 2))))
  }

  function ReadThree(text: string, sep: char, w: nat): Option<Three> {
    if |text| != w + 6 || text[w] != sep || text[w + 3] != sep then None
    else
      match (Number(text[..w]), Number(text[w + 1..w + 3]), Number(text[w + 4..]))
      case (Some(a), Some(b), Some(c)) => Some(Three(a, b, c))
      case _ => None
  }

  predicate Fits(t: Three, w: nat) {
    t.a < Power(w) && t.b < 100 && t.c < 100
  }

  lemma PowerOfTwo()
    ensures Power(2) == 100
  {
    assert Power(1) == 10;
  }

  lemma ThreeIsRead(t: Three, sep: char, w: nat)
    requires Fits(t, w)
    ensures ReadThree(ThreeText(t, sep, w), sep, w) == Some(t)
  {
    var text := ThreeText(t, sep, w);
    PowerOfTwo();
    PadIsRead(t.a, w);
    PadIsRead(t.b, 2);
    PadIsRead(t.c, 2);
    assert text[..w] == Pad(t.a, w) && text[w + 1..w + 3] == Pad(t.b, 2) && text[w + 4..] == Pad(t.c, 2);
  }

  lemma Pieces(text: string, w: nat)
    requires |text| == w + 6
    ensures text == text[..w] + ([text[w]] + (text[w + 1..w + 3] + ([text[w + 3]] + text[w + 4..])))
  {
  }

  lemma ReadThreeIsText(text: string, sep: char, w: nat)
    requires ReadThree(text, sep, w).Some?
    ensures ThreeText(ReadThree(text, sep, w).value, sep, w) == text
  {
    var a, b, c := text[..w], text[w + 1..w + 3], text[w + 4..];
    NumberIsPadded(a);
    NumberIsPadded(b);
    NumberIsPadded(c);
    Pieces(text, w);
  }

  predicate ThreeBefore(t: Three, u: Three) {
    t.a < u.a || (t.a == u.a && (t.b < u.b || (t.b == u.b && t.c < u.c)))
  }

  lemma ThreesAreOrdered(t: Three, u: Three, sep: char, w: nat)
    requires Fits(t, w) && Fits(u, w) && ThreeBefore(t, u)
    ensures Before(ThreeText(t, sep, w), ThreeText(u, sep, w))
  {
    PowerOfTwo();
    var endT, endU := [sep] + Pad(t.c, 2), [sep] + Pad(u.c, 2);
    var restT, restU := [sep] + (Pad(t.b, 2) + endT), [sep] + (Pad(u.b, 2) + endU);
    if t.a < u.a {
      PadsAreOrdered(t.a, u.a, w);
      BeforeExtends(Pad(t.a, w), Pad(u.a, w), restT, restU);
    } else {
      if t.b < u.b {
        PadsAreOrdered(t.b, u.b, 2);
        BeforeExtends(Pad(t.b, 2), Pad(u.b, 2), endT, endU);
      } else {
        PadsAreOrdered(t.c, u.c, 2);
        BeforeAfterSame([sep], Pad(t.c, 2), Pad(u.c, 2));
        BeforeAfterSame(Pad(t.b, 2), endT, endU);
      }
      BeforeAfterSame([sep], Pad(t.b, 2) + endT, Pad(u.b, 2) + endU);
      BeforeAfterSame(Pad(t.a, w), restT, restU);
    }
  }

  // ----- the stored text ------------------------------------------------------------------------------

  function DateOf(t: Stamp): Three {
    Three(t.year, t.month, t.day)
  }

  function TimeOf(t: Stamp): Three {
    Three(t.hour, t.minute, t.second)
  }

  function TextOf(t: Stamp): (text: string)
    ensures |text| == 19
  {
    ThreeText(DateOf(t), '-', 4) + (" " + ThreeText(TimeOf(t), ':', 2))
  }

  function ReadStamp(text: string): Option<Stamp> {
    if |text| != 19 || text[10] != ' ' then None
    else
      match (ReadThree(text[..10], '-', 4), ReadThree(text[11..], ':', 2))
      case (Some(d), Some(t)) =>
        var stamp := Stamp(d.a, d.b, d.c, t.a, t.b, t.c);
        if IsValid(stamp) then Some(stamp) else None
      case _ => None
  }

  /** Whole epoch seconds as stored, and stored text as epoch seconds. */
  function FromEpoch(s: nat): string {
    TextOf(StampOf(s))
  }

  function ToEpoch(text: string): Option<nat> {
    match ReadStamp(text)
    case None => None
    case Some(t) => Some(Epoch(t))
  }

  lemma StampFits(t: Stamp)
    requires IsValid(t)
    ensures Fits(DateOf(t), 4) && Fits(TimeOf(t), 2)
  {
    PowerOfTwo();
    assert Power(4) == 10 * Power(3) && Power(3) == 10 * Power(2);
  }

  lemma TextIsRead(t: Stamp)
    requires IsValid(t)
    ensures ReadStamp(TextOf(t)) == Some(t)
  {
    StampFits(t);
    ThreeIsRead(DateOf(t), '-', 4);
    ThreeIsRead(TimeOf(t), ':', 2);
    var text := TextOf(t);
    assert text[..10] == ThreeText(DateOf(t), '-', 4) && text[11..] == ThreeText(TimeOf(t), ':', 2);
  }

  lemma ReadIsText(text: string)
    requires ReadStamp(text).Some?
    ensures TextOf(ReadStamp(text).value) == text && IsValid(ReadStamp(text).value)
  {
    ReadThreeIsText(text[..10], '-', 4);
    ReadThreeIsText(text[11..], ':', 2);
    assert text == text[..10] + (" " + text[11..]);
  }

  /** Reading the stored text of a second gives that second. */
  lemma EpochRoundTrip(s: nat)
    requires InRange(s)
    ensures ToEpoch(FromEpoch(s)) == Some(s)
  {
    StampIsOfSecond(s);
    TextIsRead(StampOf(s));
  }

  lemma EpochsAreInRange(t: Stamp)
    requires IsValid(t)
    ensures InRange(Epoch(t))
  {
    MonthsGrow(IsLeap(t.year), t.month, 13);
    DaysBeforeGrows(t.year, 10000);
    assert DayOf(t) < DaysBefore(10000);
    assert Epoch(t) / 86400 == DayOf(t);
  }

  /** Every text of this form that is read is the stored text of the second it is read as. */
  lemma TextRoundTrip(text: string)
    requires ToEpoch(text).Some?
    ensures InRange(ToEpoch(text).value) && FromEpoch(ToEpoch(text).value) == text
  {
    var t := ReadStamp(text).value;
    ReadIsText(text);
    EpochsAreInRange(t);
    StampIsOfSecond(Epoch(t));
    StampsDiffer(StampOf(Epoch(t)), t);
  }

  lemma TextFollowsStamps(t: Stamp, u: Stamp)
    requires IsValid(t) && IsValid(u) && StampBefore(t, u)
    ensures Before(TextOf(t), TextOf(u))
  {
    StampFits(t);
    StampFits(u);
    var restT, restU := " " + ThreeText(TimeOf(t), ':', 2), " " + ThreeText(TimeOf(u), ':', 2);
    if DateBefore(t, u) {
      ThreesAreOrdered(DateOf(t), DateOf(u), '-', 4);
      BeforeExtends(ThreeText(DateOf(t), '-', 4), ThreeText(DateOf(u), '-', 4), restT, restU);
    } else {
      ThreesAreOrdered(TimeOf(t), TimeOf(u), ':', 2);
      BeforeAfterSame(" ", ThreeText(TimeOf(t), ':', 2), ThreeText(TimeOf(u), ':', 2));
      BeforeAfterSame(ThreeText(DateOf(t), '-', 4), restT, restU);
    }
  }

  lemma EarlierIsBefore(s: nat, s': nat)
    requires InRange(s) && InRange(s') && s < s'
    ensures Before(FromEpoch(s), FromEpoch(s'))
  {
    StampIsOfSecond(s);
    StampIsOfSecond(s');
    StampsAreOrdered(StampOf(s), StampOf(s'));
    if StampBefore(StampOf(s'), StampOf(s)) { EpochFollowsStamps(StampOf(s'), StampOf(s)); }
    TextFollowsStamps(StampOf(s), StampOf(s'));
  }

  lemma OrdersAgree(a: string, b: string, s: nat, s': nat)
    requires s < s' ==> Before(a, b)
    requires s' < s ==> Before(b, a)
    requires s == s' ==> a == b
    ensures Before(a, b) <==> s < s'
  {
    if s' < s {
      BeforeIsStrict(b, a);
    } else if s == s' {
      NeverBeforeItself(a);
    }
  }

  /** Stored texts are in the order of their seconds. */
  lemma TextOrderIsTimeOrder(s: nat, s': nat)
    requires InRange(s) && InRange(s')
    ensures Before(FromEpoch(s), FromEpoch(s')) <==> s < s'
  {
    if s < s' {
      EarlierIsBefore(s, s');
    } else if s' < s {
      EarlierIsBefore(s', s);
    }
    OrdersAgree(FromEpoch(s), FromEpoch(s'), s, s');
  }

  // ----- the time window ----------------------------------------------------------------------------------

  /** SQLite's comparison of texts. */
  predicate NotAfter(a: string, b: string) {
    !Before(b, a)
  }

  /** A bound in epoch seconds as it is stored: rounded to microseconds, then cut to the second. */
  function BoundSecond(v: real): int {
    (RoundHalfEven(v * 1000000.0) as real / 1000000.0).Floor
  }

  /** Whether a stored text passes the window's conditions, as the filter writes them. */
  predicate InWindow(text: string, since: Option<nat>, until: Option<nat>) {
    (since.None? || NotAfter(FromEpoch(since.value), text)) && (until.None? || NotAfter(text, FromEpoch(until.value)))
  }

  /** With whole-second bounds, comparing texts selects exactly the rows whose second lies in the window. */
  lemma WindowSelectsExactly(text: string, since: Option<nat>, until: Option<nat>)
    requires ToEpoch(text).Some? && (since.Some? ==> InRange(since.value)) && (until.Some? ==> InRange(until.value))
    ensures InWindow(text, since, until) <==>
            (since.None? || since.value <= ToEpoch(text).value) && (until.None? || ToEpoch(text).value <= until.value)
  {
    var s := ToEpoch(text).value;
    TextRoundTrip(text);
    if since.Some? { TextOrderIsTimeOrder(s, since.value); }
    if until.Some? { TextOrderIsTimeOrder(until.value, s); }
  }

  /** The bound is a whole second. */
  predicate IsWhole(v: real) {
    v.Floor as real == v
  }

  /** The fraction is so near the next second that rounding to microseconds reaches it. */
  predicate RoundsUp(v: real) {
    RoundHalfEven(v * 1000000.0) >= (v.Floor + 1) * 1000000
  }

  lemma BoundIsFloorOrNext(v: real)
    ensures BoundSecond(v) == if RoundsUp(v) then v.Floor + 1 else v.Floor
  {
    var n := RoundHalfEven(v * 1000000.0);
    var lo := v.Floor * 1000000;
    assert lo as real <= v * 1000000.0 < lo as real + 1000000.0;
    assert lo <= n <= lo + 1000000;
    QuotientFloor(n, v.Floor);
  }

  lemma QuotientFloor(n: int, q: int)
    requires q * 1000000 <= n <= q * 1000000 + 1000000
    ensures (n as real / 1000000.0).Floor == if n == q * 1000000 + 1000000 then q + 1 else q
  {
    var x := n as real / 1000000.0;
    assert q as real <= x <= q as real + 1.0;
    if n == q * 1000000 + 1000000 {
      assert x == (q + 1) as real;
    } else {
      assert x < q as real + 1.0;
    }
  }

  lemma WholeDoesNotRoundUp(v: real)
    requires IsWhole(v)
    ensures !RoundsUp(v)
  {
    assert v * 1000000.0 == (v.Floor * 1000000) as real;
  }

  predicate SinceAgrees(v: real, s: int) {
    BoundSecond(v) <= s <==> v <= s as real
  }

  predicate UntilAgrees(v: real, s: int) {
    s <= BoundSecond(v) <==> s as real <= v
  }

  /** A fractional lower bound selects exactly the seconds not before it if and only if it is whole or rounds up;
      otherwise it also selects the second it falls in. */
  lemma FractionalSinceExactly(v: real)
    ensures (forall s :: SinceAgrees(v, s)) <==> IsWhole(v) || RoundsUp(v)
  {
    BoundIsFloorOrNext(v);
    if !IsWhole(v) && !RoundsUp(v) {
      var s := v.Floor;
      assert !SinceAgrees(v, s);
    }
    if IsWhole(v) { WholeDoesNotRoundUp(v); }
  }

  /** A fractional upper bound selects exactly the seconds not after it if and only if it does not round up;
      otherwise it also selects the next second. */
  lemma FractionalUntilExactly(v: real)
    ensures (forall s :: UntilAgrees(v, s)) <==> !RoundsUp(v)
  {
    BoundIsFloorOrNext(v);
    if RoundsUp(v) {
      var s := v.Floor + 1;
      assert !UntilAgrees(v, s);
    }
  }

  // ----- what the texts are ------------------------------------------------------------------------------

  /** The first `n` characters are the same and then the first text ends or has the lesser character. */
  predicate GoesBeforeAt(a: string, b: string, n: nat) {
    n <= |a| && n < |b| && a[..n] == b[..n] && (n == |a| || a[n] < b[n])
  }

  /** One text is before another exactly when it is so at their first difference. */
  lemma {:induction false} BeforeExactly(a: string, b: string)
    ensures Before(a, b) <==> exists n: nat :: GoesBeforeAt(a, b, n)
  {
    if a == "" && b != "" {
      assert GoesBeforeAt(a, b, 0);
    } else if a != "" && b != "" && a[0] == b[0] {
      BeforeExactly(a[1..], b[1..]);
      if n: nat :| GoesBeforeAt(a[1..], b[1..], n) {
        assert a[..n + 1] == [a[0]] + a[1..][..n] && b[..n + 1] == [b[0]] + b[1..][..n];
        assert GoesBeforeAt(a, b, n + 1);
      }
      if n: nat :| GoesBeforeAt(a, b, n) {
        assert n > 0;
        assert a[1..][..n - 1] == a[..n][1..] && b[1..][..n - 1] == b[..n][1..];
        assert GoesBeforeAt(a[1..], b[1..], n - 1);
      }
    } else if a != "" && b != "" {
      if a[0] < b[0] { assert GoesBeforeAt(a, b, 0); }
      if n: nat :| GoesBeforeAt(a, b, n) {
        if n > 0 { assert a[..n][0] == b[..n][0]; }
      }
    }
  }

  /** The stored text of a second is year, month and day with hyphens, a space, and hour, minute and second with
      colons. */
  lemma StoredForm(s: nat)
    requires InRange(s)
    ensures var text, t := FromEpoch(s), StampOf(s);
            && |text| == 19 && text[4] == text[7] == '-' && text[10] == ' ' && text[13] == text[16] == ':'
            && Number(text[..4]) == Some(t.year) && Number(text[5..7]) == Some(t.month) && Number(text[8..10]) == Some(t.day)
            && Number(text[11..13]) == Some(t.hour) && Number(text[14..16]) == Some(t.minute) && Number(text[17..]) == Some(t.second)
  {
    var t := StampOf(s);
    StampIsOfSecond(s);
    StampFits(t);
    PowerOfTwo();
    var date, time := ThreeText(DateOf(t), '-', 4), ThreeText(TimeOf(t), ':', 2);
    ThreeParts(DateOf(t), '-', 4);
    ThreeParts(TimeOf(t), ':', 2);
    DateThenTime(date, time);
  }

  lemma DateThenTime(date: string, time: string)
    requires |date| == 10 && |time| == 8
    ensures var text := date + (" " + time);
            && text[4] == date[4] && text[7] == date[7] && text[10] == ' ' && text[13] == time[2] && text[16] == time[5]
            && text[..4] == date[..4] && text[5..7] == date[5..7] && text[8..10] == date[8..]
            && text[11..13] == time[..2] && text[14..16] == time[3..5] && text[17..] == time[6..]
  {
  }

  lemma ThreeParts(t: Three, sep: char, w: nat)
    requires Fits(t, w)
    ensures var text := ThreeText(t, sep, w);
            && text[w] == text[w + 3] == sep
            && Number(text[..w]) == Some(t.a) && Number(text[w + 1..w + 3]) == Some(t.b) && Number(text[w + 4..]) == Some(t.c)
  {
    var text := ThreeText(t, sep, w);
    PowerOfTwo();
    PadIsRead(t.a, w);
    PadIsRead(t.b, 2);
    PadIsRead(t.c, 2);
    assert text[..w] == Pad(t.a, w) && text[w + 1..w + 3] == Pad(t.b, 2) && text[w + 4..] == Pad(t.c, 2);
  }
}
