/**
 * The field rules of the student-timetable form (frontend/src/components/
 * CreateStudentTimetable.js, `handleChange`): each regular expression or
 * membership test is a predicate over the whole field value.
 */
module SlotValidation {
  import opened Text

  // ---------------------------------------------------------------------------
  // Time: /^(0?[1-9]|1[0-2]):[0-5][0-9] ?[AP]M\s*-\s*(0?[1-9]|1[0-2]):[0-5][0-9] ?[AP]M$/i
  // ---------------------------------------------------------------------------

  /** `0?[1-9]|1[0-2]` as the first `len` characters of `c`. */
  predicate HourAt(c: string, len: nat)
  {
    || (len == 1 && |c| >= 1 && '1' <= c[0] <= '9')
    || (len == 2 && |c| >= 2 && c[0] == '0' && '1' <= c[1] <= '9')
    || (len == 2 && |c| >= 2 && c[0] == '1' && '0' <= c[1] <= '2')
  }

  /** `[AP]M` under the `i` flag, at index `i` of `c`. */
  predicate MeridiemAt(c: string, i: nat)
  {
    && i + 2 <= |c|
    && (c[i] == 'A' || c[i] == 'a' || c[i] == 'P' || c[i] == 'p')
    && (c[i + 1] == 'M' || c[i + 1] == 'm')
  }

  /**
   * `c` is a clock time whose hour has `hourLen` characters and which has
   * `gap` spaces (the optional ` `) before the meridiem.
   */
  predicate ClockShape(c: string, hourLen: nat, gap: nat)
  {
    && |c| == hourLen + 5 + gap
    && HourAt(c, hourLen)
    && c[hourLen] == ':'
    && '0' <= c[hourLen + 1] <= '5' && IsDigit(c[hourLen + 2])
    && (gap == 1 ==> c[hourLen + 3] == ' ')
    && MeridiemAt(c, hourLen + 3 + gap)
  }

  /** `(0?[1-9]|1[0-2]):[0-5][0-9] ?[AP]M` against all of `c`. */
  predicate IsClock(c: string)
  {
    ClockShape(c, 1, 0) || ClockShape(c, 1, 1) || ClockShape(c, 2, 0) || ClockShape(c, 2, 1)
  }

  /** The declarative reading of the time pattern: clock, `\s*`, `-`, `\s*`, clock, split at `a`, `d` and `b`. */
  ghost predicate TimeRangeAt(v: string, a: int, d: int, b: int)
  {
    && 0 <= a <= d && d + 1 <= b <= |v|
    && IsClock(v[..a])
    && AllSpace(v[a..d])
    && v[d] == '-'
    && AllSpace(v[d + 1..b])
    && IsClock(v[b..])
  }

  ghost predicate TimeRangePattern(v: string)
  {
    exists a, d, b :: TimeRangeAt(v, a, d, b)
  }

  /** The first clock of a time value: everything before the first `-`, without trailing `\s`. */
  function StartClock(v: string): (c: string)
    ensures c <= v
  {
    ClockBefore(v, IndexOf(v, '-'))
  }

  /** Everything before index `d`, without trailing `\s`. */
  function ClockBefore(v: string, d: nat): (c: string)
    requires d <= |v|
    ensures c <= v
  {
    v[..TrailingSpaceStart(v[..d])]
  }

  /** The second clock of a time value: everything after the first `-`, without leading `\s`. */
  function EndClock(v: string): string
  {
    ClockAfter(v, IndexOf(v, '-'))
  }

  /** Everything after index `d`, without leading `\s` (nothing when `d` is past the end). */
  function ClockAfter(v: string, d: nat): string
    requires d <= |v|
  {
    if d < |v| then v[d + 1 + LeadingSpace(v[d + 1..])..] else ""
  }

  /** `timeRegex.test(value)`, scanning for the `-` that separates the two clocks. */
  predicate IsValidTime(v: string)
  {
    IndexOf(v, '-') < |v| && IsClock(StartClock(v)) && IsClock(EndClock(v))
  }

  lemma ClockFacts(c: string)
    requires IsClock(c)
    ensures 6 <= |c| <= 8
    ensures IsDigit(c[0]) && !IsSpace(c[0])
    ensures c[|c| - 1] == 'M' || c[|c| - 1] == 'm'
    ensures !IsSpace(c[|c| - 1])
    ensures forall i :: 0 <= i < |c| ==> c[i] != '-'
  {
  }

  /** The scanning test finds the pattern's split whenever the pattern matches. */
  lemma TimeRangeSound(v: string)
    requires IsValidTime(v)
    ensures TimeRangePattern(v)
  {
    var d := IndexOf(v, '-');
    var a := TrailingSpaceStart(v[..d]);
    var n := LeadingSpace(v[d + 1..]);
    var b := d + 1 + n;
    assert 0 <= a <= d < |v| && b <= |v| && v[d] == '-';
    assert v[..a] == StartClock(v) && v[b..] == EndClock(v);
    assert v[a..d] == v[..d][a..];
    assert v[d + 1..b] == v[d + 1..][..n];
    assert IsClock(v[..a]) && IsClock(v[b..]);
    assert AllSpace(v[a..d]) && AllSpace(v[d + 1..b]);
    assert TimeRangeAt(v, a, d, b);
  }

  lemma StartClockAt(v: string, d: nat, a: nat)
    requires IndexOf(v, '-') == d && TrailingSpaceStart(v[..d]) == a
    ensures StartClock(v) == v[..a]
  {
  }

  lemma EndClockAt(v: string, d: nat, n: nat)
    requires IndexOf(v, '-') == d < |v| && LeadingSpace(v[d + 1..]) == n
    ensures EndClock(v) == v[d + 1 + n..]
  {
  }

  /** The first `-` of a matching value is the one between the clocks. */
  lemma DashAt(v: string, a: int, d: int, b: int)
    requires TimeRangeAt(v, a, d, b)
    ensures IndexOf(v, '-') == d
  {
    var start := v[..a];
    ClockFacts(start);
    assert forall i :: 0 <= i < a ==> v[i] == start[i];
    assert forall i :: a <= i < d ==> v[i] == v[a..d][i - a];
  }

  /** Any split the pattern allows is the one the scan finds. */
  lemma TimeRangeComplete(v: string, a: int, d: int, b: int)
    requires TimeRangeAt(v, a, d, b)
    ensures IndexOf(v, '-') == d
    ensures StartClock(v) == v[..a] && EndClock(v) == v[b..]
    ensures IsValidTime(v)
  {
    var start, end := v[..a], v[b..];
    ClockFacts(start);
    ClockFacts(end);
    DashAt(v, a, d, b);
    var left := v[..d];
    assert left[..a] == start && left[a..] == v[a..d];
    assert left[a - 1] == start[a - 1];
    TrailingSpaceExact(left, a);
    StartClockAt(v, d, a);
    var tail := v[d + 1..];
    assert tail[..b - d - 1] == v[d + 1..b];
    assert tail[b - d - 1] == end[0];
    LeadingSpaceExact(tail, b - d - 1);
    EndClockAt(v, d, b - d - 1);
  }

  /**
   * Wherever a start without `-` that ends in a non-space is followed by `\s*`,
   * `-`, `\s*` and an end that starts with a non-space, the scan takes that
   * start and that end as the two clocks.
   */
  lemma ClocksOf(start: string, sep: string, before: string, after: string, end: string)
    requires sep == before + "-" + after && AllSpace(before) && AllSpace(after)
    requires start != [] && !IsSpace(start[|start| - 1]) && forall i :: 0 <= i < |start| ==> start[i] != '-'
    requires end != [] && !IsSpace(end[0])
    ensures IndexOf(start + sep + end, '-') == |start| + |before|
    ensures StartClock(start + sep + end) == start && EndClock(start + sep + end) == end
    ensures IsValidTime(start + sep + end) <==> IsClock(start) && IsClock(end)
  {
    var v := start + sep + end;
    var a := |start|;
    var d := a + |before|;
    assert forall i :: 0 <= i < a ==> v[i] == start[i];
    assert forall i :: a <= i < d ==> v[i] == before[i - a];
    assert v[d] == '-';
    IndexOfExact(v, '-', d);
    var left := v[..d];
    assert left[a..] == before;
    assert left[a - 1] == start[a - 1];
    TrailingSpaceExact(left, a);
    StartClockAt(v, d, a);
    assert v[..a] == start;
    var tail := v[d + 1..];
    assert tail[..|after|] == after;
    assert tail[|after|] == end[0];
    LeadingSpaceExact(tail, |after|);
    EndClockAt(v, d, |after|);
    assert v[d + 1 + |after|..] == end;
  }

  /** The scanning test accepts exactly the values the pattern describes. */
  lemma TimeRangeCorrect(v: string)
    ensures IsValidTime(v) <==> TimeRangePattern(v)
  {
    if IsValidTime(v) {
      TimeRangeSound(v);
    }
    if TimeRangePattern(v) {
      var a, d, b :| TimeRangeAt(v, a, d, b);
      TimeRangeComplete(v, a, d, b);
    }
  }

  /** Any clocks joined by `-` with any `\s` around it form a valid time. */
  lemma TimeFromClocks(start: string, before: string, after: string, end: string)
    requires IsClock(start) && IsClock(end) && AllSpace(before) && AllSpace(after)
    ensures IsValidTime(start + before + "-" + after + end)
    ensures StartClock(start + before + "-" + after + end) == start
    ensures EndClock(start + before + "-" + after + end) == end
  {
    var v := start + before + "-" + after + end;
    var a := |start|;
    var d := a + |before|;
    var b := d + 1 + |after|;
    assert v[..a] == start && v[a..d] == before && v[d + 1..b] == after && v[b..] == end;
    TimeRangeComplete(v, a, d, b);
  }

  /** A one- or two-digit decimal's value, digit by digit. */
  lemma DecimalValueShort(s: string)
    requires 1 <= |s| <= 2 && AllDigits(s)
    ensures |s| == 1 ==> DecimalValue(s) == s[0] as int - '0' as int
    ensures |s| == 2 ==> DecimalValue(s) == 10 * (s[0] as int - '0' as int) + (s[1] as int - '0' as int)
  {
    assert s[..|s| - 1][..0] == [];
    if |s| == 2 {
      assert s[..1][..0] == [];
    }
  }

  /** The numeric hour of a clock. */
  function ClockHour(c: string): nat
    requires IsClock(c)
  {
    var h := if c[1] == ':' then 1 else 2;
    DecimalValue(c[..h])
  }

  /** The numeric minute of a clock. */
  function ClockMinute(c: string): nat
    requires IsClock(c)
  {
    var h := if c[1] == ':' then 1 else 2;
    DecimalValue(c[h + 1..h + 3])
  }

  /** A clock's hour is 1 to 12 and its minute 0 to 59. */
  lemma ClockBounds(c: string)
    requires IsClock(c)
    ensures 1 <= ClockHour(c) <= 12
    ensures ClockMinute(c) <= 59
  {
    var h := if c[1] == ':' then 1 else 2;
    DecimalValueShort(c[..h]);
    DecimalValueShort(c[h + 1..h + 3]);
  }

  /** Both clocks of an accepted time are in range. */
  lemma TimeBounds(v: string)
    requires IsValidTime(v)
    ensures 1 <= ClockHour(StartClock(v)) <= 12 && ClockMinute(StartClock(v)) <= 59
    ensures 1 <= ClockHour(EndClock(v)) <= 12 && ClockMinute(EndClock(v)) <= 59
  {
    ClockBounds(StartClock(v));
    ClockBounds(EndClock(v));
  }

  lemma ClockLower(c: string)
    ensures IsClock(Lower(c)) <==> IsClock(c)
  {
  }

  lemma StartClockLower(v: string)
    ensures StartClock(Lower(v)) == Lower(StartClock(v))
  {
    IndexOfLower(v, '-');
    var d := IndexOf(v, '-');
    LowerSlice(v, 0, d);
    TrailingSpaceLower(v[..d]);
    var a := TrailingSpaceStart(v[..d]);
    LowerSlice(v, 0, a);
    StartClockAt(Lower(v), d, a);
  }

  lemma EndClockLower(v: string)
    requires IndexOf(v, '-') < |v|
    ensures EndClock(Lower(v)) == Lower(EndClock(v))
  {
    IndexOfLower(v, '-');
    var d := IndexOf(v, '-');
    LeadingSpaceLowerFrom(v, d + 1);
    var n := LeadingSpace(v[d + 1..]);
    EndClockAt(Lower(v), d, n);
    EndClockAt(v, d, n);
    LeadingSpaceLowerFrom(v, d + 1 + n);
  }

  /** The `i` flag: upper and lower case letters are accepted alike. */
  lemma TimeIgnoresCase(v: string)
    ensures IsValidTime(Lower(v)) <==> IsValidTime(v)
  {
    IndexOfLower(v, '-');
    StartClockLower(v);
    ClockLower(StartClock(v));
    if IndexOf(v, '-') < |v| {
      EndClockLower(v);
      ClockLower(EndClock(v));
    }
  }

  lemma TimeAcceptedSpaced(start: string, end: string)
    requires start == "10:00 AM" && end == "11:00 AM"
    ensures IsValidTime(start + " - " + end)
  {
    assert ClockShape(start, 2, 1) && ClockShape(end, 2, 1);
    ClocksOf(start, " - ", " ", " ", end);
  }

  lemma TimeAcceptedCompact(start: string, end: string)
    requires start == "9:30am" && end == "10:15pm"
    ensures IsValidTime(start + "-" + end)
  {
    ClocksOf(start, "-", "", "", end);
  }

  lemma TimeRejectedHour(start: string, end: string)
    requires start == "25:00 AM" && end == "26:00 AM"
    ensures !IsValidTime(start + " - " + end)
  {
    ClocksOf(start, " - ", " ", " ", end);
  }

  lemma TimeRejectedMinute(start: string, end: string)
    requires start == "10:60 AM" && end == "11:00 AM"
    ensures !IsValidTime(start + " - " + end)
  {
    ClocksOf(start, " - ", " ", " ", end);
  }

  lemma TimeRejectedNoDash(v: string)
    requires v == "10:00 AM"
    ensures !IsValidTime(v)
  {
    assert forall i :: 0 <= i < |v| ==> v[i] != '-';
  }

  /** The start and end are not compared: a range that ends before it starts is accepted. */
  lemma TimeEndpointsNotCompared(start: string, end: string)
    requires start == "11:00 AM" && end == "10:00 AM"
    ensures IsValidTime(start + " - " + end)
    ensures ClockHour(StartClock(start + " - " + end)) == 11
    ensures ClockHour(EndClock(start + " - " + end)) == 10
  {
    ClocksOf(start, " - ", " ", " ", end);
    DecimalValueShort(start[..2]);
    DecimalValueShort(end[..2]);
  }

  // ---------------------------------------------------------------------------
  // Day: days.includes(value.toLowerCase())
  // ---------------------------------------------------------------------------

  const Weekdays: seq<string> := ["monday", "tuesday", "wednesday", "thursday", "friday", "saturday", "sunday"]

  predicate IsValidDay(v: string)
  {
    Lower(v) in Weekdays
  }

  /** A day is accepted whatever the case of its letters, and only at one of its seven spellings' lengths. */
  lemma DayIgnoresCase(v: string)
    ensures IsValidDay(Lower(v)) <==> IsValidDay(v)
    ensures IsValidDay(v) ==> 6 <= |v| <= 9
  {
    LowerIdempotent(v);
  }

  /** Surrounding whitespace is not trimmed: a padded day is rejected. */
  lemma DayNotTrimmed(v: string)
    ensures !IsValidDay(" " + v) && !IsValidDay(v + " ")
  {
    assert Lower(" " + v)[0] == ' ';
    assert Lower(v + " ")[|v|] == ' ';
  }

  lemma DayExamples()
    ensures IsValidDay("Monday") && IsValidDay("SUNDAY") && IsValidDay("wEdNeSdAy")
    ensures !IsValidDay("Mon") && !IsValidDay("Funday")
  {
    assert Lower("Monday") == "monday";
    assert Lower("SUNDAY") == "sunday";
    assert Lower("wEdNeSdAy") == "wednesday";
    assert Lower("Mon") == "mon";
    assert Lower("Funday") == "funday";
  }

  // ---------------------------------------------------------------------------
  // Teacher /^[A-Za-z\s]{2,}$/; subject, venue, course /^[A-Za-z0-9\s]{2,}$/
  // ---------------------------------------------------------------------------

  predicate IsValidTeacher(v: string) { IsLetterSpaceText(v) }
  predicate IsValidSubject(v: string) { IsAlnumSpaceText(v) }
  predicate IsValidVenue(v: string) { IsAlnumSpaceText(v) }
  predicate IsValidCourse(v: string) { IsAlnumSpaceText(v) }

  /** Every accepted teacher name would also be an accepted subject, venue or course. */
  lemma TeacherIsWord(v: string)
    requires IsValidTeacher(v)
    ensures IsValidSubject(v) && IsValidVenue(v) && IsValidCourse(v)
  {
  }

  lemma WordExamples()
    ensures IsValidTeacher("Ann Lee") && !IsValidTeacher("R2 D2") && !IsValidTeacher("A")
    ensures IsValidTeacher("  ")
    ensures IsValidSubject("IT 3040") && IsValidVenue("F1") && !IsValidCourse("C++")
  {
    assert "R2 D2"[1] == '2' && !IsLetter('2');
    assert !IsSpace('+') && !IsLetter('+') && !IsDigit('+');
    assert "C++"[1] == '+';
  }

  // ---------------------------------------------------------------------------
  // Grade: /^year\s[1-4]\ssemester\s[1-2]$/
  // ---------------------------------------------------------------------------

  predicate IsValidGrade(v: string)
  {
    && |v| == 17
    && v[..4] == "year"
    && IsSpace(v[4])
    && '1' <= v[5] <= '4'
    && IsSpace(v[6])
    && v[7..15] == "semester"
    && IsSpace(v[15])
    && '1' <= v[16] <= '2'
  }

  /** `year Y semester S` written with single spaces. */
  function GradeText(year: nat, semester: nat): string
    requires year < 10 && semester < 10
  {
    "year " + [DigitChar(year)] + " semester " + [DigitChar(semester)]
  }

  /** The written grade is accepted exactly for years 1 to 4 and semesters 1 and 2. */
  lemma GradeTextValid(year: nat, semester: nat)
    requires year < 10 && semester < 10
    ensures IsValidGrade(GradeText(year, semester)) <==> 1 <= year <= 4 && 1 <= semester <= 2
  {
    var g := GradeText(year, semester);
    assert g[..4] == "year" && g[7..15] == "semester";
    assert g[5] == DigitChar(year) && g[16] == DigitChar(semester);
  }

  /** Every accepted grade with plain spaces is the written form of its year and semester. */
  lemma GradeIsText(v: string)
    requires IsValidGrade(v) && v[4] == ' ' && v[6] == ' ' && v[15] == ' '
    ensures v == GradeText(v[5] as int - '0' as int, v[16] as int - '0' as int)
  {
    var g := GradeText(v[5] as int - '0' as int, v[16] as int - '0' as int);
    assert forall i :: 0 <= i < 4 ==> v[i] == v[..4][i];
    assert forall i :: 7 <= i < 15 ==> v[i] == v[7..15][i - 7];
    assert forall i :: 0 <= i < 17 ==> v[i] == g[i];
  }

  lemma GradeExamples()
    ensures IsValidGrade("year 1 semester 1") && IsValidGrade("year 4 semester 2")
    ensures !IsValidGrade("year 5 semester 1") && !IsValidGrade("Year 1 semester 1")
    ensures !IsValidGrade("year  1 semester 1")
  {
    GradeTextValid(1, 1);
    GradeTextValid(4, 2);
    assert GradeText(1, 1) == "year 1 semester 1";
    assert GradeText(4, 2) == "year 4 semester 2";
    assert "Year 1 semester 1"[..4] != "year" by {
      assert "Year 1 semester 1"[..4][0] == 'Y';
    }
  }

  // ---------------------------------------------------------------------------
  // Batch: /^batch\s+[0-9]+(\.[0-9]+)?$/
  // ---------------------------------------------------------------------------

  /** `n` is digits, a `.` at `k`, and digits, each run non-empty. */
  ghost predicate FractionAt(n: string, k: int)
  {
    0 < k < |n| - 1 && AllDigits(n[..k]) && n[k] == '.' && AllDigits(n[k + 1..])
  }

  /** `[0-9]+(\.[0-9]+)?` read declaratively. */
  ghost predicate NumberPattern(n: string)
  {
    (|n| > 0 && AllDigits(n)) || exists k :: FractionAt(n, k)
  }

  /** `[0-9]+(\.[0-9]+)?` against all of `n`, splitting at the first `.`. */
  predicate IsBatchNumber(n: string)
  {
    var k := IndexOf(n, '.');
    if k == |n| then |n| > 0 && AllDigits(n)
    else 0 < k < |n| - 1 && AllDigits(n[..k]) && AllDigits(n[k + 1..])
  }

  lemma BatchNumberCorrect(n: string)
    ensures IsBatchNumber(n) <==> NumberPattern(n)
  {
    var k := IndexOf(n, '.');
    if k < |n| && IsBatchNumber(n) {
      assert FractionAt(n, k);
    }
    if k == |n| {
      forall j ensures !FractionAt(n, j) {
      }
    }
    if NumberPattern(n) && k < |n| {
      assert !AllDigits(n) by {
        assert !IsDigit(n[k]);
      }
      var j :| FractionAt(n, j);
      assert forall i :: 0 <= i < j ==> n[i] == n[..j][i];
      assert forall i :: j < i < |n| ==> n[i] == n[j + 1..][i - j - 1];
      assert k == j;
    }
  }

  /** The declarative reading of the batch pattern, with the `\s+` run ending at `w`. */
  ghost predicate BatchAt(v: string, w: int)
  {
    5 < w <= |v| && v[..5] == "batch" && AllSpace(v[5..w]) && NumberPattern(v[w..])
  }

  ghost predicate BatchPattern(v: string)
  {
    exists w :: BatchAt(v, w)
  }

  /** `batchRegex.test(value)`: `batch`, a non-empty run of `\s`, then the number. */
  predicate IsValidBatch(v: string)
  {
    |v| >= 5 && v[..5] == "batch" && LeadingSpace(v[5..]) > 0 && IsBatchNumber(v[5 + LeadingSpace(v[5..])..])
  }

  lemma BatchCorrect(v: string)
    ensures IsValidBatch(v) <==> BatchPattern(v)
  {
    if IsValidBatch(v) {
      var w := 5 + LeadingSpace(v[5..]);
      assert v[5..w] == v[5..][..w - 5];
      BatchNumberCorrect(v[w..]);
      assert BatchAt(v, w);
    }
    if BatchPattern(v) {
      var w :| BatchAt(v, w);
      BatchNumberCorrect(v[w..]);
      assert IsDigit(v[w..][0]) by {
        if exists k :: FractionAt(v[w..], k) {
          var k :| FractionAt(v[w..], k);
          assert v[w..][..k][0] == v[w..][0];
        }
      }
      var tail := v[5..];
      assert tail[..w - 5] == v[5..w];
      assert tail[w - 5] == v[w..][0];
      LeadingSpaceExact(tail, w - 5);
      assert v[5 + LeadingSpace(tail)..] == v[w..];
    }
  }

  /** A batch is `batch`, spaces, and a number; only the number decides. */
  lemma BatchFrom(gap: string, n: string)
    requires |gap| > 0 && AllSpace(gap) && |n| > 0 && !IsSpace(n[0])
    ensures IsValidBatch("batch" + gap + n) <==> IsBatchNumber(n)
  {
    var v := "batch" + gap + n;
    assert v[..5] == "batch";
    var tail := v[5..];
    assert tail == gap + n;
    assert tail[..|gap|] == gap && tail[|gap|] == n[0];
    LeadingSpaceExact(tail, |gap|);
    assert v[5 + |gap|..] == n;
  }

  lemma BatchNumberExamples()
    ensures IsBatchNumber("1") && IsBatchNumber("12") && IsBatchNumber("1.1")
    ensures !IsBatchNumber("1.") && !IsBatchNumber("1.1.1") && !IsBatchNumber(".5")
  {
    assert IndexOf("1.1", '.') == 1;
    assert "1.1"[..1] == "1" && "1.1"[2..] == "1";
    assert IndexOf("1.1.1", '.') == 1;
    assert "1.1.1"[2..] == "1.1" && !IsDigit("1.1"[1]);
  }

  lemma BatchAccepted(gap: string, n: string)
    requires gap == " " || gap == " \t"
    requires n == "1" || n == "12" || n == "1.1"
    ensures IsValidBatch("batch" + gap + n)
  {
    BatchNumberExamples();
    BatchFrom(gap, n);
  }

  lemma BatchRejected(gap: string, n: string)
    requires gap == " " || gap == " \t"
    requires n == "1." || n == "1.1.1"
    ensures !IsValidBatch("batch" + gap + n)
  {
    BatchNumberExamples();
    BatchFrom(gap, n);
  }

  /** The space after `batch` is required, and `batch` is matched case-sensitively. */
  lemma BatchNeedsSpace()
    ensures !IsValidBatch("batch1") && !IsValidBatch("Batch 1")
  {
    assert "batch1"[..5] == "batch" && "batch1"[5..] == "1";
    assert "Batch 1"[..5][0] == 'B';
  }
}
