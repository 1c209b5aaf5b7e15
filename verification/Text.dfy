/** C strings in fixed buffers, and their sanitisation. */
module Text {

  const NUL := '\0'

  /** The C string a buffer holds: everything before the first NUL. */
  function CString(buffer: seq<char>): (s: string)
    ensures |s| <= |buffer| && NUL !in s
    ensures s == buffer[..|s|]
    ensures |s| < |buffer| ==> buffer[|s|] == NUL
  {
    if buffer == [] || buffer[0] == NUL then "" else [buffer[0]] + CString(buffer[1..])
  }

  predicate EndsLine(c: char) {
    c == '\n' || c == '\r'
  }

  function Dotted(c: char): char {
    if c == ':' || c == ' ' then '.' else c
  }

  /** Cut at the first line end, with every colon and blank before it turned into a dot. */
  function Sanitize(s: string): (r: string)
    ensures |r| <= |s|
    ensures forall c :: c in r ==> !EndsLine(c) && c != ':' && c != ' '
    ensures NUL !in s ==> NUL !in r
  {
    if s == "" || EndsLine(s[0]) then "" else [Dotted(s[0])] + Sanitize(s[1..])
  }

  /** Client and server both sanitise what the user typed; the second time changes nothing. */
  lemma {:induction false} SanitizeIsIdempotent(s: string)
    ensures Sanitize(Sanitize(s)) == Sanitize(s)
  {
    if s != "" && !EndsLine(s[0]) {
      SanitizeIsIdempotent(s[1..]);
      assert Sanitize(s)[1..] == Sanitize(s[1..]);
    }
  }

  /** Character by character: up to the first line end, or the end of the string, colons and blanks become dots and all
      other characters stay. */
  lemma {:induction false} SanitizeAt(s: string, n: nat)
    requires n <= |s| && (forall i :: 0 <= i < n ==> s[i] != '\n' && s[i] != '\r')
    requires n < |s| ==> s[n] == '\n' || s[n] == '\r'
    ensures |Sanitize(s)| == n
    ensures forall i :: 0 <= i < n ==> Sanitize(s)[i] == if s[i] == ':' || s[i] == ' ' then '.' else s[i]
  {
    if n > 0 {
      SanitizeAt(s[1..], n - 1);
      assert forall i :: 1 <= i < n ==> Sanitize(s)[i] == Sanitize(s[1..])[i - 1] && s[i] == s[1..][i - 1];
    }
  }

  lemma CStringIs(buffer: seq<char>, n: nat)
    requires n < |buffer| && NUL !in buffer[..n] && buffer[n] == NUL
    ensures CString(buffer) == buffer[..n]
  {}

  lemma {:induction false} SanitizeIs(s: string, n: nat, r: string)
    requires n <= |s| && |r| == n
    requires forall i :: 0 <= i < n ==> !EndsLine(s[i]) && r[i] == Dotted(s[i])
    requires n == |s| || EndsLine(s[n])
    ensures Sanitize(s) == r
  {
    if n > 0 { SanitizeIs(s[1..], n - 1, r[1..]); }
  }

  lemma CStringOfFull(buffer: seq<char>)
    requires NUL !in buffer
    ensures CString(buffer) == buffer
  {}

  /** `strnlen`. */
  method LengthUpTo(str: array<char>, maxLength: nat) returns (length: nat)
    requires maxLength <= str.Length
    ensures length <= maxLength && str[..length] == CString(str[..maxLength])
    ensures length == maxLength ==> NUL !in str[..maxLength]
  {
    length := 0;
    while length < maxLength && str[length] != NUL
      invariant length <= maxLength && NUL !in str[..length]
    {
      length := length + 1;
    }
    if length < maxLength { CStringIs(str[..maxLength], length); } else { CStringOfFull(str[..maxLength]); }
    assert str[..maxLength][..length] == str[..length];
  }

  /** `str` is the memory from the start of the buffer on.  A buffer without a terminator is terminated just behind its
      end, which must be memory of the program, too. */
  method SanitizeString(str: array<char>, maxLength: nat)
    requires maxLength <= str.Length && (NUL in str[..maxLength] || maxLength < str.Length)
    modifies str
    ensures CString(str[..]) == Sanitize(old(CString(str[..maxLength])))
    ensures forall j :: maxLength < j < str.Length ==> str[j] == old(str[j])
  {
    ghost var text := CString(str[..maxLength]);
    var length := LengthUpTo(str, maxLength);
    assert forall j :: 0 <= j < length ==> str[j] == text[j];
    str[length] := NUL;
    var i := 0;
    while i < length
      invariant i <= length == |text| < str.Length && str[length] == NUL
      invariant forall j :: 0 <= j < i ==> !EndsLine(text[j]) && str[j] == Dotted(text[j]) != NUL
      invariant forall j :: i <= j < length ==> str[j] == text[j]
      invariant forall j :: length < j < str.Length ==> str[j] == old(str[j])
    {
      if str[i] == '\n' || str[i] == '\r' {
        str[i] := NUL;
        break;
      }
      if str[i] == ':' || str[i] == ' ' {
        str[i] := '.';
      }
      i := i + 1;
    }
    SanitizeIs(text, i, str[..i]);
    CStringIs(str[..], i);
  }
}
