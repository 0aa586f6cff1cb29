/** `Operation.validate_date` (Operation.py): `datetime.strptime(date_str, "%Y-%m-%d")`
    succeeds. The model follows CPython's `_strptime`: the format becomes the regular
    expression `(\d\d\d\d)-(1[0-2]|0[1-9]|[1-9])-(3[01]|[12]\d|0[1-9]|[1-9]| [1-9])`, matched
    at the start of the text with alternatives tried in order; text left after the match is an
    error, and so is a date the calendar does not have. Digits are the ASCII digits. */
module Dates {
  import opened Common

  datatype Date = Date(year: int, month: int, day: int)

  predicate IsLeap(y: int) {
    y % 4 == 0 && (y % 100 != 0 || y % 400 == 0)
  }

  function DaysInMonth(y: int, m: int): int {
    if m == 2 then (if IsLeap(y) then 29 else 28)
    else if m == 4 || m == 6 || m == 9 || m == 11 then 30
    else 31
  }

  /** A date `datetime` accepts: years 1 to 9999, and a day the month has. */
  predicate ValidDate(d: Date) {
    1 <= d.year <= 9999 && 1 <= d.month <= 12 && 1 <= d.day <= DaysInMonth(d.year, d.month)
  }

  // ---------------------------------------------------------------------------
  // The strptime pattern
  // ---------------------------------------------------------------------------

  predicate IsDigit(c: char) { '0' <= c <= '9' }

  function Val(c: char): int { c as int - '0' as int }

  /** What one alternative of a group reads: its value and how many characters it takes. */
  datatype Piece = Piece(value: int, len: nat)

  /** `%Y`: four digits. */
  function YearAt(s: string): (r: Option<Piece>)
    ensures r.Some? ==> 0 <= r.value.value <= 9999 && r.value.len == 4
  {
    if |s| >= 4 && IsDigit(s[0]) && IsDigit(s[1]) && IsDigit(s[2]) && IsDigit(s[3])
    then Some(Piece(1000 * Val(s[0]) + 100 * Val(s[1]) + 10 * Val(s[2]) + Val(s[3]), 4))
    else None
  }

  /** `%m`'s alternatives `1[0-2]`, `0[1-9]`, `[1-9]` that match at the start of `t`, in the
      order the regular expression tries them. */
  function MonthAlternatives(t: string): (r: seq<Piece>)
    ensures forall m :: m in r ==> 1 <= m.value <= 12 && 1 <= m.len <= 2
  {
    (if |t| >= 2 && t[0] == '1' && '0' <= t[1] <= '2' then [Piece(10 + Val(t[1]), 2)] else [])
    + (if |t| >= 2 && t[0] == '0' && '1' <= t[1] <= '9' then [Piece(Val(t[1]), 2)] else [])
    + (if |t| >= 1 && '1' <= t[0] <= '9' then [Piece(Val(t[0]), 1)] else [])
  }

  /** `%d`: the first of `3[01]`, `[12]\d`, `0[1-9]`, `[1-9]`, ` [1-9]` that matches at the
      start of `t`. Nothing follows `%d` in the pattern, so the first match is the one kept. */
  function DayAt(t: string): (r: Option<Piece>)
    ensures r.Some? ==> 1 <= r.value.value <= 31 && 1 <= r.value.len <= 2 && r.value.len <= |t|
  {
    if |t| >= 2 && t[0] == '3' && (t[1] == '0' || t[1] == '1') then Some(Piece(30 + Val(t[1]), 2))
    else if |t| >= 2 && (t[0] == '1' || t[0] == '2') && IsDigit(t[1]) then Some(Piece(10 * Val(t[0]) + Val(t[1]), 2))
    else if |t| >= 2 && t[0] == '0' && '1' <= t[1] <= '9' then Some(Piece(Val(t[1]), 2))
    else if |t| >= 1 && '1' <= t[0] <= '9' then Some(Piece(Val(t[0]), 1))
    else if |t| >= 2 && t[0] == ' ' && '1' <= t[1] <= '9' then Some(Piece(Val(t[1]), 2))
    else None
  }

  /** The month alternative the matcher settles on: the first one followed by `-` and a day. */
  function MatchMonthDay(t: string, months: seq<Piece>): (r: Option<(Piece, Piece)>)
    ensures r.Some? ==> r.value.0 in months && 1 <= r.value.1.value <= 31 && 1 <= r.value.1.len <= 2
    decreases |months|
  {
    if |months| == 0 then None
    else
      var m := months[0];
      if m.len < |t| && t[m.len] == '-' && DayAt(t[m.len + 1..]).Some? then Some((m, DayAt(t[m.len + 1..]).value))
      else MatchMonthDay(t, months[1..])
  }

  /** `datetime.strptime(s, "%Y-%m-%d")`: the date read, or `None` where it raises. */
  function ParseDate(s: string): (r: Option<Date>)
    ensures r.Some? ==> ValidDate(r.value)
    ensures r.Some? ==> 8 <= |s| <= 10 && s[4] == '-' && IsDigit(s[0]) && IsDigit(s[1]) && IsDigit(s[2]) && IsDigit(s[3])
  {
    if |s| < 5 || YearAt(s).None? || s[4] != '-' then None
    else
      var t := s[5..];
      match MatchMonthDay(t, MonthAlternatives(t))
      case None => None
      case Some((m, d)) =>
        var y := YearAt(s).value.value;
        if 5 + m.len + 1 + d.len != |s| then None
        else if y < 1 || d.value > DaysInMonth(y, m.value) then None
        else Some(Date(y, m.value, d.value))
  }

  /** `validate_date`: the text parses as a calendar date. What it accepts is at least eight and at
      most ten characters long, with a four-digit year and a dash after it. */
  function ValidateDate(s: string): (r: bool)
    ensures r ==> 8 <= |s| <= 10 && s[4] == '-' && forall k :: 0 <= k < 4 ==> IsDigit(s[k])
    ensures r ==> ParseDate(s).Some? && ValidDate(ParseDate(s).value)
  {
    ParseDate(s).Some?
  }

  // ---------------------------------------------------------------------------
  // The canonical text of a date
  // ---------------------------------------------------------------------------

  function DigitChar(k: int): char
    requires 0 <= k < 10
  {
    ('0' as int + k) as char
  }

  /** Two digits, zero-padded. */
  function Pad2(n: int): string
    requires 0 <= n < 100
  {
    [DigitChar(n / 10), DigitChar(n % 10)]
  }

  /** Four digits, zero-padded. */
  function Pad4(n: int): string
    requires 0 <= n < 10000
  {
    Pad2(n / 100) + Pad2(n % 100)
  }

  /** `YYYY-MM-DD`, the form `date.isoformat()` writes. */
  function IsoText(d: Date): (r: string)
    requires ValidDate(d)
    ensures |r| == 10 && r[4] == '-' && r[7] == '-'
  {
    Pad4(d.year) + "-" + Pad2(d.month) + "-" + Pad2(d.day)
  }

  /** Every valid date written `YYYY-MM-DD` passes `validate_date` and reads back as itself. */
  lemma ParseIsoText(d: Date)
    requires ValidDate(d)
    ensures ParseDate(IsoText(d)) == Some(d)
  {
    var s := IsoText(d);
    var y := d.year;
    assert s[0] == DigitChar(y / 100 / 10) && s[1] == DigitChar(y / 100 % 10);
    assert s[2] == DigitChar(y % 100 / 10) && s[3] == DigitChar(y % 100 % 10);
    assert YearAt(s) == Some(Piece(y, 4));
    var t := s[5..];
    assert t == Pad2(d.month) + "-" + Pad2(d.day);
    var m := Piece(d.month, 2);
    assert MonthAlternatives(t)[0] == m;
    var rest := t[3..];
    assert rest == Pad2(d.day);
    assert DayAt(rest) == Some(Piece(d.day, 2));
    assert MatchMonthDay(t, MonthAlternatives(t)) == Some((m, Piece(d.day, 2)));
  }

  // ---------------------------------------------------------------------------
  // String order of canonical dates
  // ---------------------------------------------------------------------------

  function Sign(k: int): int {
    if k < 0 then -1 else if k == 0 then 0 else 1
  }

  /** Chronological comparison, as a three-way result. */
  function DateCmp(a: Date, b: Date): int {
    if a.year != b.year then Sign(a.year - b.year)
    else if a.month != b.month then Sign(a.month - b.month)
    else Sign(a.day - b.day)
  }

  /** Comparing two texts whose first parts have the same length: the first parts decide
      unless they are equal. */
  lemma {:induction false} StrCmpConcat(a1: string, a2: string, b1: string, b2: string)
    requires |a1| == |b1|
    ensures StrCmp(a1 + a2, b1 + b2) == if StrCmp(a1, b1) != 0 then StrCmp(a1, b1) else StrCmp(a2, b2)
    decreases |a1|
  {
    if |a1| > 0 {
      assert (a1 + a2)[0] == a1[0] && (b1 + b2)[0] == b1[0];
      assert (a1 + a2)[1..] == a1[1..] + a2 && (b1 + b2)[1..] == b1[1..] + b2;
      StrCmpConcat(a1[1..], a2, b1[1..], b2);
    } else {
      assert a1 + a2 == a2 && b1 + b2 == b2;
    }
  }

  lemma Pad2Cmp(x: int, y: int)
    requires 0 <= x < 100 && 0 <= y < 100
    ensures StrCmp(Pad2(x), Pad2(y)) == Sign(x - y)
  {
    var a, b := Pad2(x), Pad2(y);
    assert a == [a[0]] + [a[1]] && b == [b[0]] + [b[1]];
    StrCmpConcat([a[0]], [a[1]], [b[0]], [b[1]]);
    assert StrCmp([a[1]], [b[1]]) == Sign(x % 10 - y % 10) by {
      assert [a[1]][1..] == [] && [b[1]][1..] == [];
    }
  }

  lemma Pad4Cmp(x: int, y: int)
    requires 0 <= x < 10000 && 0 <= y < 10000
    ensures StrCmp(Pad4(x), Pad4(y)) == Sign(x - y)
  {
    StrCmpConcat(Pad2(x / 100), Pad2(x % 100), Pad2(y / 100), Pad2(y % 100));
    Pad2Cmp(x / 100, y / 100);
    Pad2Cmp(x % 100, y % 100);
  }

  /** For dates written `YYYY-MM-DD`, text order is chronological order. */
  lemma {:induction false} IsoOrderIsChronological(a: Date, b: Date)
    requires ValidDate(a) && ValidDate(b)
    ensures StrCmp(IsoText(a), IsoText(b)) == DateCmp(a, b)
  {
    var dash := "-";
    StrCmpConcat(Pad4(a.year), dash + Pad2(a.month) + dash + Pad2(a.day), Pad4(b.year), dash + Pad2(b.month) + dash + Pad2(b.day));
    assert IsoText(a) == Pad4(a.year) + (dash + Pad2(a.month) + dash + Pad2(a.day));
    assert IsoText(b) == Pad4(b.year) + (dash + Pad2(b.month) + dash + Pad2(b.day));
    Pad4Cmp(a.year, b.year);
    StrCmpConcat(dash, Pad2(a.month) + dash + Pad2(a.day), dash, Pad2(b.month) + dash + Pad2(b.day));
    assert dash + Pad2(a.month) + dash + Pad2(a.day) == dash + (Pad2(a.month) + dash + Pad2(a.day));
    assert dash + Pad2(b.month) + dash + Pad2(b.day) == dash + (Pad2(b.month) + dash + Pad2(b.day));
    StrCmpZero(dash, dash);
    StrCmpConcat(Pad2(a.month), dash + Pad2(a.day), Pad2(b.month), dash + Pad2(b.day));
    assert Pad2(a.month) + dash + Pad2(a.day) == Pad2(a.month) + (dash + Pad2(a.day));
    assert Pad2(b.month) + dash + Pad2(b.day) == Pad2(b.month) + (dash + Pad2(b.day));
    Pad2Cmp(a.month, b.month);
    StrCmpConcat(dash, Pad2(a.day), dash, Pad2(b.day));
    Pad2Cmp(a.day, b.day);
  }

  // ---------------------------------------------------------------------------
  // Accepted texts that are not in YYYY-MM-DD form
  // ---------------------------------------------------------------------------

  /** The check the rest of the ledger needs: the text is a valid date written exactly
      `YYYY-MM-DD`, so that text comparison and `date[:7]` mean what they are used for. */
  predicate ValidateIsoDate(s: string) {
    ParseDate(s).Some? && s == IsoText(ParseDate(s).value)
  }

  /** Texts the stricter check accepts are ordered as their dates are. */
  lemma IsoDatesCompareChronologically(s1: string, s2: string)
    requires ValidateIsoDate(s1) && ValidateIsoDate(s2)
    ensures StrCmp(s1, s2) == DateCmp(ParseDate(s1).value, ParseDate(s2).value)
    ensures StrLe(s1, s2) <==> DateCmp(ParseDate(s1).value, ParseDate(s2).value) <= 0
  {
    IsoOrderIsChronological(ParseDate(s1).value, ParseDate(s2).value);
  }

  /** Texts the stricter check accepts are ten characters long, so never blank. */
  lemma IsoDateLength(s: string)
    requires ValidateIsoDate(s)
    ensures |s| == 10
  {
    assert s == IsoText(ParseDate(s).value);
  }

  /** The stricter check accepts exactly the canonical texts of valid dates. */
  lemma ValidateIsoDateExactly(d: Date)
    requires ValidDate(d)
    ensures ValidateIsoDate(IsoText(d))
  {
    ParseIsoText(d);
  }

  /** `validate_date` accepts "2024-1-5" (5 January 2024), which is not the canonical text of
      that date; its first seven characters, the month key of the reports, are "2024-1-", not
      "2024-01". */
  lemma UnpaddedDateAccepted()
    ensures ValidateDate("2024-1-5") && ParseDate("2024-1-5") == Some(Date(2024, 1, 5))
    ensures !ValidateIsoDate("2024-1-5")
    ensures "2024-1-5"[..7] == "2024-1-" && "2024-1-5"[..7] != "2024-01"
  {
    var s := "2024-1-5";
    var t := s[5..];
    assert t == "1-5";
    assert YearAt(s) == Some(Piece(2024, 4));
    assert MonthAlternatives(t) == [Piece(1, 1)];
    assert t[2..] == "5";
    assert DayAt(t[2..]) == Some(Piece(5, 1));
    assert MatchMonthDay(t, MonthAlternatives(t)) == Some((Piece(1, 1), Piece(5, 1)));
    assert ParseDate(s) == Some(Date(2024, 1, 5));
    assert |IsoText(Date(2024, 1, 5))| == 10;
  }

  /** Compared as text, the accepted "2024-1-5" falls between "2024-06-01" and
      "2024-12-31", though 5 January comes before 1 June. */
  lemma UnpaddedDateMisordered()
    ensures StrLe("2024-06-01", "2024-1-5") && StrLe("2024-1-5", "2024-12-31")
    ensures DateCmp(Date(2024, 1, 5), Date(2024, 6, 1)) < 0
  {
    var s := "2024-1-5";
    assert StrCmp("2024-06-01", s) == -1 by {
      assert "2024-06-01"[1..] == "024-06-01" && s[1..] == "024-1-5";
      assert "024-06-01"[1..] == "24-06-01" && "024-1-5"[1..] == "24-1-5";
      assert "24-06-01"[1..] == "4-06-01" && "24-1-5"[1..] == "4-1-5";
      assert "4-06-01"[1..] == "-06-01" && "4-1-5"[1..] == "-1-5";
      assert "-06-01"[1..] == "06-01" && "-1-5"[1..] == "1-5";
    }
    assert StrCmp(s, "2024-12-31") == -1 by {
      assert s[1..] == "024-1-5" && "2024-12-31"[1..] == "024-12-31";
      assert "024-1-5"[1..] == "24-1-5" && "024-12-31"[1..] == "24-12-31";
      assert "24-1-5"[1..] == "4-1-5" && "24-12-31"[1..] == "4-12-31";
      assert "4-1-5"[1..] == "-1-5" && "4-12-31"[1..] == "-12-31";
      assert "-1-5"[1..] == "1-5" && "-12-31"[1..] == "12-31";
      assert "1-5"[1..] == "-5" && "12-31"[1..] == "2-31";
    }
  }

  /** There is no 30 February. */
  lemma Feb30Rejected()
    ensures !ValidateDate("2024-02-30")
  {
    var a := "2024-02-30";
    assert YearAt(a) == Some(Piece(2024, 4));
    assert a[5..] == "02-30" && "02-30"[3..] == "30";
    assert MonthAlternatives("02-30") == [Piece(2, 2)];
    assert DayAt("30") == Some(Piece(30, 2));
  }

  /** 29 February does not exist in a common year. */
  lemma Feb29RejectedInCommonYear()
    ensures !ValidateDate("2023-02-29")
  {
    var b := "2023-02-29";
    assert YearAt(b) == Some(Piece(2023, 4));
    assert b[5..] == "02-29" && "02-29"[3..] == "29";
    assert MonthAlternatives("02-29") == [Piece(2, 2)];
    assert DayAt("29") == Some(Piece(29, 2));
  }

  /** 29 February exists in a leap year. */
  lemma Feb29AcceptedInLeapYear()
    ensures ValidateDate("2024-02-29")
  {
    ParseIsoText(Date(2024, 2, 29));
    assert IsoText(Date(2024, 2, 29)) == "2024-02-29";
  }
}
