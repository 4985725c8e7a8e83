/**
 * The field rules of the ticket form (frontend/src/components/CreateTicket.js,
 * `handleChange` and `handleFileChange`): each regular expression, length test
 * or MIME-type test is a predicate over the whole field value.
 */
module TicketValidation {
  import opened Text
  import opened Wrappers

  // ---------------------------------------------------------------------------
  // Name and department: /^[A-Za-z\s]{2,}$/
  // ---------------------------------------------------------------------------

  predicate IsValidName(v: string) { IsLetterSpaceText(v) }
  predicate IsValidDepartment(v: string) { IsLetterSpaceText(v) }

  lemma NameExamples()
    ensures IsValidName("Ann Perera") && IsValidDepartment("Computing")
    ensures !IsValidName("A") && !IsValidName("Ann2") && !IsValidDepartment("")
  {
    assert "Ann2"[3] == '2';
  }

  // ---------------------------------------------------------------------------
  // University id /^\d{9}$/ and contact number /^\d{10}$/
  // ---------------------------------------------------------------------------

  predicate IsValidUniversityId(v: string) { |v| == 9 && AllDigits(v) }
  predicate IsValidContactNumber(v: string) { |v| == 10 && AllDigits(v) }

  /** The digit counts are exact: one digit more or one less is rejected. */
  lemma DigitCountExact(v: string, c: char)
    requires AllDigits(v) && IsDigit(c)
    ensures IsValidUniversityId(v) ==> !IsValidUniversityId(v + [c]) && !IsValidUniversityId(v[1..])
    ensures IsValidContactNumber(v) ==> !IsValidContactNumber(v + [c]) && !IsValidContactNumber(v[1..])
    ensures IsValidUniversityId(v) <==> IsValidContactNumber(v + [c])
  {
    assert forall i :: 0 <= i < |v| ==> (v + [c])[i] == v[i];
  }

  lemma IdExamples()
    ensures IsValidUniversityId("123456789") && !IsValidUniversityId("12345678")
    ensures !IsValidUniversityId("12345678a") && !IsValidUniversityId("IT2345678")
    ensures IsValidContactNumber("0771234567") && !IsValidContactNumber("077 123 4567")
  {
    assert "12345678a"[8] == 'a';
    assert "IT2345678"[0] == 'I';
  }

  // ---------------------------------------------------------------------------
  // Email: /^[^\s@]+@[^\s@]+\.[^\s@]+$/
  // ---------------------------------------------------------------------------

  /** `[^\s@]+` against all of `s`. */
  predicate IsEmailWord(s: string)
  {
    |s| > 0 && forall i :: 0 <= i < |s| ==> !IsSpace(s[i]) && s[i] != '@'
  }

  /** The declarative reading of the email pattern, split at the `@` at `k` and a `.` at `j`. */
  ghost predicate EmailAt(v: string, k: int, j: int)
  {
    && 0 < k < j < |v|
    && IsEmailWord(v[..k])
    && v[k] == '@'
    && IsEmailWord(v[k + 1..j])
    && v[j] == '.'
    && IsEmailWord(v[j + 1..])
  }

  ghost predicate EmailPattern(v: string)
  {
    exists k, j :: EmailAt(v, k, j)
  }

  /** The domain (after `@`) holds a `.` that is neither its first nor its last character. */
  predicate HasInnerDot(d: string)
  {
    |d| >= 3 && IndexOf(d[1..], '.') < |d| - 2
  }

  /** `emailRegex.test(value)`, splitting at the first `@`. */
  predicate IsValidEmail(v: string)
  {
    EmailSplitAt(v, IndexOf(v, '@'))
  }

  /** The local part is the text before index `k` and the domain the text after it. */
  predicate EmailSplitAt(v: string, k: nat)
  {
    && 0 < k < |v|
    && IsEmailWord(v[..k])
    && IsEmailWord(v[k + 1..])
    && HasInnerDot(v[k + 1..])
  }

  lemma EmailSound(v: string)
    requires IsValidEmail(v)
    ensures EmailPattern(v)
  {
    var k := IndexOf(v, '@');
    var d := v[k + 1..];
    var p := IndexOf(d[1..], '.');
    var j := k + 2 + p;
    assert d[1..][p] == v[j];
    assert v[k + 1..j] == d[..p + 1];
    assert v[j + 1..] == d[p + 2..];
    assert EmailAt(v, k, j);
  }

  /** Two words joined by a `.` form a domain with an inner dot. */
  lemma DomainJoin(left: string, right: string)
    requires IsEmailWord(left) && IsEmailWord(right)
    ensures IsEmailWord(left + "." + right) && HasInnerDot(left + "." + right)
  {
    var d := left + "." + right;
    assert forall i :: 0 <= i < |left| ==> d[i] == left[i];
    assert forall i :: |left| < i < |d| ==> d[i] == right[i - |left| - 1];
    assert d[1..][|left| - 1] == '.';
  }

  lemma EmailComplete(v: string, k: int, j: int)
    requires EmailAt(v, k, j)
    ensures IndexOf(v, '@') == k
    ensures IsValidEmail(v)
  {
    var local := v[..k];
    assert forall i :: 0 <= i < k ==> v[i] == local[i];
    IndexOfExact(v, '@', k);
    var left, right := v[k + 1..j], v[j + 1..];
    DomainJoin(left, right);
    var d := v[k + 1..];
    Around(d, j - k - 1);
    assert d[..j - k - 1] == left && d[j - k..] == right && d[j - k - 1] == '.';
    assert EmailSplitAt(v, k);
  }

  /** The scanning test accepts exactly the values the pattern describes. */
  lemma EmailCorrect(v: string)
    ensures IsValidEmail(v) <==> EmailPattern(v)
  {
    if IsValidEmail(v) {
      EmailSound(v);
    }
    if EmailPattern(v) {
      var k, j :| EmailAt(v, k, j);
      EmailComplete(v, k, j);
    }
  }

  /** An accepted email has no whitespace and exactly one `@`, with something before it. */
  lemma EmailShape(v: string)
    requires IsValidEmail(v)
    ensures forall i :: 0 <= i < |v| ==> !IsSpace(v[i])
    ensures exists k :: 0 < k < |v| && v[k] == '@' && forall i :: 0 <= i < |v| && v[i] == '@' ==> i == k
  {
    var k := IndexOf(v, '@');
    var local, d := v[..k], v[k + 1..];
    assert forall i :: 0 <= i < k ==> v[i] == local[i];
    assert forall i :: k < i < |v| ==> v[i] == d[i - k - 1];
  }

  lemma EmailAccepted(v: string)
    requires v == "ann@uni.lk"
    ensures IsValidEmail(v)
  {
    assert EmailAt(v, 3, 7) by {
      assert v[..3] == "ann" && v[4..7] == "uni" && v[8..] == "lk";
    }
    EmailComplete(v, 3, 7);
  }

  /** Without an `@`, or with nothing before it, an email is rejected. */
  lemma EmailNeedsLocalPart(noAt: string, atFirst: string)
    requires noAt == "ann.uni.lk" && atFirst == "@uni.lk"
    ensures !IsValidEmail(noAt) && !IsValidEmail(atFirst)
  {
    assert forall i :: 0 <= i < |noAt| ==> noAt[i] != '@';
  }

  /** The domain needs a `.` with something on both sides. */
  lemma EmailNeedsInnerDot(v: string)
    requires v == "ann@unilk" || v == "ann@.lk" || v == "ann@uni."
    ensures !IsValidEmail(v)
  {
    IndexOfExact(v, '@', 3);
    var d := v[4..];
    assert d == "unilk" || d == ".lk" || d == "uni.";
    assert d[1..] == "nilk" || d[1..] == "lk" || d[1..] == "ni.";
  }

  // ---------------------------------------------------------------------------
  // Message: value.length >= 10
  // ---------------------------------------------------------------------------

  /**
   * A string's `length` in JavaScript counts UTF-16 code units: a character
   * beyond the Basic Multilingual Plane counts twice.
   */
  function Utf16Length(s: string): nat
  {
    if s == [] then 0 else (if s[0] as int > 0xFFFF then 2 else 1) + Utf16Length(s[1..])
  }

  lemma {:induction false} Utf16LengthBounds(s: string)
    ensures |s| <= Utf16Length(s) <= 2 * |s|
    ensures (forall i :: 0 <= i < |s| ==> s[i] as int <= 0xFFFF) ==> Utf16Length(s) == |s|
  {
    if s != [] {
      Utf16LengthBounds(s[1..]);
      assert forall i :: 0 <= i < |s| - 1 ==> s[1..][i] == s[i + 1];
    }
  }

  predicate IsValidMessage(v: string) { Utf16Length(v) >= 10 }

  /** Ten characters always suffice; five never do. */
  lemma MessageLength(v: string)
    ensures |v| >= 10 ==> IsValidMessage(v)
    ensures |v| < 5 ==> !IsValidMessage(v)
  {
    Utf16LengthBounds(v);
  }

  // ---------------------------------------------------------------------------
  // Attachment: file && file.type === 'application/pdf'
  // ---------------------------------------------------------------------------

  /** A chosen file: its name on the client and the MIME type the browser reports. */
  datatype File = File(name: string, mimeType: string)

  const PdfType := "application/pdf"

  predicate IsPdf(file: Option<File>)
  {
    file.Some? && file.value.mimeType == PdfType
  }

  lemma PdfExamples()
    ensures IsPdf(Some(File("notes.pdf", "application/pdf")))
    ensures !IsPdf(None) && !IsPdf(Some(File("notes.pdf", "application/PDF")))
    ensures !IsPdf(Some(File("notes.pdf", "text/plain")))
  {
    assert "application/PDF"[12] != PdfType[12];
  }
}
