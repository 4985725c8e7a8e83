/**
 * Character classes and string operations that the validators and search
 * filters of the application rely on: the ECMAScript regular-expression classes
 * `[A-Za-z]`, `\d` and `\s`, `String.prototype.toLowerCase` on ASCII letters,
 * `String.prototype.includes`, and decimal rendering of a number as `${n}` does.
 */
module Text {

  /** `[A-Za-z]` */
  predicate IsLetter(c: char)
  {
    'A' <= c <= 'Z' || 'a' <= c <= 'z'
  }

  /** `\d` and `[0-9]` (ASCII digits only, as in ECMAScript). */
  predicate IsDigit(c: char)
  {
    '0' <= c <= '9'
  }

  /**
   * `\s` of an ECMAScript regular expression: the WhiteSpace code points
   * (tab, vertical tab, form feed, space, no-break space, the byte order mark
   * and the Space_Separator category) and the LineTerminator code points.
   */
  predicate IsSpace(c: char)
  {
    || c == '\t' || c == '\n' || c == '\U{000B}' || c == '\U{000C}' || c == '\r'
    || c == ' ' || c == '\U{00A0}' || c == '\U{1680}'
    || ('\U{2000}' <= c <= '\U{200A}')
    || c == '\U{2028}' || c == '\U{2029}' || c == '\U{202F}' || c == '\U{205F}'
    || c == '\U{3000}' || c == '\U{FEFF}'
  }

  predicate AllSpace(s: string)
  {
    forall i :: 0 <= i < |s| ==> IsSpace(s[i])
  }

  predicate AllDigits(s: string)
  {
    forall i :: 0 <= i < |s| ==> IsDigit(s[i])
  }

  /** `[A-Za-z\s]{2,}` matched against a whole string. */
  predicate IsLetterSpaceText(s: string)
  {
    |s| >= 2 && forall i :: 0 <= i < |s| ==> IsLetter(s[i]) || IsSpace(s[i])
  }

  /** `[A-Za-z0-9\s]{2,}` matched against a whole string. */
  predicate IsAlnumSpaceText(s: string)
  {
    |s| >= 2 && forall i :: 0 <= i < |s| ==> IsLetter(s[i]) || IsDigit(s[i]) || IsSpace(s[i])
  }

  /** The index of the first `c` in `s`, or `|s|` when there is none (`indexOf`, with -1 read as `|s|`). */
  function IndexOf(s: string, c: char): (k: nat)
    ensures k <= |s|
    ensures k < |s| ==> s[k] == c
    ensures forall i :: 0 <= i < k ==> s[i] != c
  {
    if s == [] then 0 else if s[0] == c then 0 else 1 + IndexOf(s[1..], c)
  }

  /** The first `c` is the one with no `c` before it. */
  lemma IndexOfExact(s: string, c: char, k: nat)
    requires k < |s| && s[k] == c
    requires forall i :: 0 <= i < k ==> s[i] != c
    ensures IndexOf(s, c) == k
  {
  }

  /** The length of the longest run of `\s` at the start of `s`. */
  function LeadingSpace(s: string): (n: nat)
    ensures n <= |s| && AllSpace(s[..n])
    ensures n < |s| ==> !IsSpace(s[n])
  {
    if s == [] || !IsSpace(s[0]) then 0 else 1 + LeadingSpace(s[1..])
  }

  /** Where the longest run of `\s` at the end of `s` begins. */
  function TrailingSpaceStart(s: string): (n: nat)
    ensures n <= |s| && AllSpace(s[n..])
    ensures n > 0 ==> !IsSpace(s[n - 1])
  {
    if s == [] || !IsSpace(s[|s| - 1]) then |s| else TrailingSpaceStart(s[..|s| - 1])
  }

  /** A run of spaces followed by a non-space is the whole leading run. */
  lemma {:induction false} LeadingSpaceExact(s: string, n: nat)
    requires n < |s| && AllSpace(s[..n]) && !IsSpace(s[n])
    ensures LeadingSpace(s) == n
  {
    if 0 < n {
      assert s[..n][0] == s[0];
      var t := s[1..];
      assert forall i :: 0 < i < n ==> s[..n][i] == t[..n - 1][i - 1];
      assert t[n - 1] == s[n];
      LeadingSpaceExact(t, n - 1);
    }
  }

  /** A run of spaces preceded by a non-space is the whole trailing run. */
  lemma {:induction false} TrailingSpaceExact(s: string, n: nat)
    requires 0 < n <= |s| && AllSpace(s[n..]) && !IsSpace(s[n - 1])
    ensures TrailingSpaceStart(s) == n
  {
    if n < |s| {
      assert s[n..][|s| - 1 - n] == s[|s| - 1];
      var t := s[..|s| - 1];
      assert forall i :: 0 <= i < |t| - n ==> t[n..][i] == s[n..][i];
      assert t[n - 1] == s[n - 1];
      TrailingSpaceExact(t, n);
    }
  }

  /** `toLowerCase` on one character, for the ASCII letters. */
  function LowerChar(c: char): (r: char)
    ensures IsLetter(c) <==> IsLetter(r)
    ensures IsLetter(c) ==> 'a' <= r <= 'z'
    ensures !('A' <= c <= 'Z') ==> r == c
  {
    if 'A' <= c <= 'Z' then (c as int + 32) as char else c
  }

  /** `toLowerCase` on a string, character by character. */
  function Lower(s: string): (r: string)
    ensures |r| == |s|
    ensures forall i :: 0 <= i < |s| ==> r[i] == LowerChar(s[i])
  {
    seq(|s|, i requires 0 <= i < |s| => LowerChar(s[i]))
  }

  lemma LowerIdempotent(s: string)
    ensures Lower(Lower(s)) == Lower(s)
  {
  }

  lemma LowerSlice(s: string, i: int, j: int)
    requires 0 <= i <= j <= |s|
    ensures Lower(s)[i..j] == Lower(s[i..j])
  {
  }

  /** Lower-casing leaves every character that is not an ASCII capital where it was. */
  lemma IndexOfLower(s: string, c: char)
    requires !('A' <= c <= 'Z') && !('a' <= c <= 'z')
    ensures IndexOf(Lower(s), c) == IndexOf(s, c)
  {
    assert forall i :: 0 <= i < |s| ==> (Lower(s)[i] == c <==> s[i] == c);
  }

  lemma {:induction false} LeadingSpaceLower(s: string)
    ensures LeadingSpace(Lower(s)) == LeadingSpace(s)
  {
    if s != [] {
      assert Lower(s)[1..] == Lower(s[1..]);
      LeadingSpaceLower(s[1..]);
    }
  }

  lemma LeadingSpaceLowerFrom(s: string, i: nat)
    requires i <= |s|
    ensures Lower(s)[i..] == Lower(s[i..])
    ensures LeadingSpace(Lower(s)[i..]) == LeadingSpace(s[i..])
  {
    LowerSlice(s, i, |s|);
    assert Lower(s)[i..] == Lower(s)[i..|s|];
    LeadingSpaceLower(s[i..]);
  }

  lemma {:induction false} TrailingSpaceLower(s: string)
    ensures TrailingSpaceStart(Lower(s)) == TrailingSpaceStart(s)
  {
    if s != [] {
      assert Lower(s)[..|s| - 1] == Lower(s[..|s| - 1]);
      TrailingSpaceLower(s[..|s| - 1]);
    }
  }

  /** `haystack.includes(needle)` read as: some window of `haystack` equals `needle`. */
  ghost predicate Occurs(needle: string, haystack: string)
  {
    exists i :: OccursAt(needle, haystack, i)
  }

  /** `needle` stands in `haystack` starting at index `i`. */
  predicate OccursAt(needle: string, haystack: string, i: int)
  {
    0 <= i <= |haystack| - |needle| && haystack[i..i + |needle|] == needle
  }

  /** `haystack.includes(needle)`, searching from the left. */
  function Includes(haystack: string, needle: string): bool
    decreases |haystack|
  {
    if needle <= haystack then true
    else if |haystack| == 0 then false
    else Includes(haystack[1..], needle)
  }

  /** A string is what comes before index `i`, the character at `i`, and what comes after. */
  lemma Around(s: string, i: nat)
    requires i < |s|
    ensures s == s[..i] + [s[i]] + s[i + 1..]
  {
  }

  /** A window of the tail is the window one place further right. */
  lemma DropSlice(s: string, i: int, j: int)
    requires 0 <= i <= j < |s|
    ensures s[1..][i..j] == s[i + 1..j + 1]
  {
    assert forall k :: 0 <= k < j - i ==> s[1..][i..j][k] == s[i + 1 + k];
  }

  /** The search agrees with the window reading, in both directions. */
  lemma {:induction false} IncludesIsOccurs(haystack: string, needle: string)
    ensures Includes(haystack, needle) <==> Occurs(needle, haystack)
    decreases |haystack|
  {
    if needle <= haystack {
      assert OccursAt(needle, haystack, 0);
    } else if |haystack| == 0 {
      forall i ensures !OccursAt(needle, haystack, i) {
      }
    } else {
      IncludesIsOccurs(haystack[1..], needle);
      var tail := haystack[1..];
      if Occurs(needle, tail) {
        var i :| OccursAt(needle, tail, i);
        DropSlice(haystack, i, i + |needle|);
        assert OccursAt(needle, haystack, i + 1);
      }
      if Occurs(needle, haystack) {
        var i :| OccursAt(needle, haystack, i);
        assert i != 0;
        DropSlice(haystack, i - 1, i - 1 + |needle|);
        assert OccursAt(needle, tail, i - 1);
      }
    }
  }

  /** A string occurs in any text built around it. */
  lemma OccursIn(a: string, needle: string, b: string)
    ensures Occurs(needle, a + needle + b)
  {
    assert (a + needle + b)[|a|..|a| + |needle|] == needle;
    assert OccursAt(needle, a + needle + b, |a|);
  }

  /** An occurrence stays an occurrence when text is added on either side. */
  lemma OccursWithin(needle: string, a: string, haystack: string, b: string)
    requires Occurs(needle, haystack)
    ensures Occurs(needle, a + haystack + b)
  {
    var i :| OccursAt(needle, haystack, i);
    assert (a + haystack + b)[|a| + i..|a| + i + |needle|] == haystack[i..i + |needle|];
    assert OccursAt(needle, a + haystack + b, |a| + i);
  }

  /** A string that holds `a + b` holds `a`: lengthening a search term can only lose matches. */
  lemma IncludesPrefix(haystack: string, a: string, b: string)
    ensures Includes(haystack, a + b) ==> Includes(haystack, a)
  {
    IncludesIsOccurs(haystack, a + b);
    IncludesIsOccurs(haystack, a);
    if Includes(haystack, a + b) {
      var i :| OccursAt(a + b, haystack, i);
      assert haystack[i..i + |a|] == (a + b)[..|a|] == a;
      assert OccursAt(a, haystack, i);
    }
  }

  /** Lower-casing works character by character, so it distributes over concatenation. */
  lemma LowerAppend(a: string, b: string)
    ensures Lower(a + b) == Lower(a) + Lower(b)
  {
  }

  /** The empty string occurs in every string, so an empty search term matches everything. */
  lemma IncludesEmpty(haystack: string)
    ensures Includes(haystack, "")
  {
  }

  /** The decimal digit of `d`. */
  function DigitChar(d: nat): (c: char)
    requires d < 10
    ensures IsDigit(c)
  {
    (('0' as int) + d) as char
  }

  /** `${n}` for a non-negative integer: its decimal digits, without leading zeros. */
  function Decimal(n: nat): (s: string)
    ensures |s| > 0 && AllDigits(s)
    ensures |s| > 1 ==> s[0] != '0'
  {
    if n < 10 then [DigitChar(n)] else Decimal(n / 10) + [DigitChar(n % 10)]
  }

  /** The number written by a string of decimal digits. */
  function DecimalValue(s: string): nat
    requires AllDigits(s)
  {
    if |s| == 0 then 0 else 10 * DecimalValue(s[..|s| - 1]) + (s[|s| - 1] as int - '0' as int)
  }

  /** Reading back the decimal rendering gives the number again. */
  lemma {:induction false} DecimalRoundTrip(n: nat)
    ensures DecimalValue(Decimal(n)) == n
  {
    if n >= 10 {
      DecimalRoundTrip(n / 10);
      var s := Decimal(n);
      assert s[..|s| - 1] == Decimal(n / 10);
    }
  }
}
