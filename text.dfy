/** String predicates used by the disaster report canister: JavaScript's
    `trim`-based blank check, the UUID shape check and the email pattern.
    Strings are sequences of Unicode scalar values; every character these
    checks care about lies in the Basic Multilingual Plane, so the verdicts
    agree with JavaScript's UTF-16 strings. */
module Text {

  /** ECMAScript WhiteSpace and LineTerminator code points: the characters
      `String.prototype.trim` removes. */
  predicate IsJsSpace(c: char) {
    || c == '\t' || c == '\U{B}' || c == '\U{C}' || c == ' '
    || c == '\U{A0}' || c == '\U{FEFF}' || c == '\U{1680}'
    || ('\U{2000}' <= c <= '\U{200A}')
    || c == '\U{202F}' || c == '\U{205F}' || c == '\U{3000}'
    || c == '\n' || c == '\r' || c == '\U{2028}' || c == '\U{2029}'
  }

  /** `trimStart`: drops leading whitespace. */
  function TrimStart(s: string): string {
    if s != [] && IsJsSpace(s[0]) then TrimStart(s[1..]) else s
  }

  /** `trimEnd`: drops trailing whitespace. */
  function TrimEnd(s: string): string {
    if s != [] && IsJsSpace(s[|s| - 1]) then TrimEnd(s[..|s| - 1]) else s
  }

  /** `str.trim()`: the string with its leading and trailing whitespace
      removed; TrimSpec says which slice of the string that is. */
  function Trim(s: string): (r: string)
    ensures |r| <= |s|
    ensures r != [] ==> !IsJsSpace(r[0]) && !IsJsSpace(r[|r| - 1])
  {
    TrimStartSpec(s);
    TrimEndSpec(TrimStart(s));
    TrimEnd(TrimStart(s))
  }

  /** The trimmed string is the slice of `s` that starts after the leading
      whitespace; everything before and after that slice is whitespace. */
  lemma TrimSpec(s: string)
    ensures var a, r := |s| - |TrimStart(s)|, Trim(s);
      && 0 <= a && a + |r| <= |s| && r == s[a..a + |r|]
      && (forall i :: 0 <= i < a ==> IsJsSpace(s[i]))
      && (forall i :: a + |r| <= i < |s| ==> IsJsSpace(s[i]))
  {
    var t := TrimStart(s);
    TrimStartSpec(s);
    TrimEndSpec(t);
    var r := Trim(s);
    var a := |s| - |t|;
    assert r == s[a..a + |r|] by {
      forall i | 0 <= i < |r| ensures r[i] == s[a + i] {
        assert r[i] == t[i];
      }
    }
    forall i | a + |r| <= i < |s| ensures IsJsSpace(s[i]) {
      assert t[i - a] == s[i];
    }
  }

  /** `isInvalidString`: nothing but whitespace, which is what an empty
      trimmed string means (see TrimmedEmptyIffInvalid). */
  predicate IsInvalidString(s: string) {
    forall i :: 0 <= i < |s| ==> IsJsSpace(s[i])
  }

  /** Trimming the start leaves a suffix of the string, everything it drops
      is whitespace, and what is left does not start with whitespace. */
  lemma {:induction false} TrimStartSpec(s: string)
    ensures |TrimStart(s)| <= |s|
    ensures forall i :: 0 <= i < |TrimStart(s)| ==> TrimStart(s)[i] == s[|s| - |TrimStart(s)| + i]
    ensures forall i :: 0 <= i < |s| - |TrimStart(s)| ==> IsJsSpace(s[i])
    ensures TrimStart(s) != [] ==> !IsJsSpace(TrimStart(s)[0])
  {
    if s != [] && IsJsSpace(s[0]) {
      var rest := s[1..];
      TrimStartSpec(rest);
      var t := TrimStart(rest);
      assert TrimStart(s) == t;
      forall i | 0 <= i < |t| ensures t[i] == s[|s| - |t| + i] {
        assert rest[|rest| - |t| + i] == s[|s| - |t| + i];
      }
      forall i | 0 < i < |s| - |t| ensures IsJsSpace(s[i]) {
        assert rest[i - 1] == s[i];
      }
    }
  }

  /** Trimming the end leaves a prefix of the string, everything it drops is
      whitespace, and what is left does not end with whitespace. */
  lemma {:induction false} TrimEndSpec(s: string)
    ensures |TrimEnd(s)| <= |s|
    ensures forall i :: 0 <= i < |TrimEnd(s)| ==> TrimEnd(s)[i] == s[i]
    ensures forall i :: |TrimEnd(s)| <= i < |s| ==> IsJsSpace(s[i])
    ensures TrimEnd(s) != [] ==> !IsJsSpace(TrimEnd(s)[|TrimEnd(s)| - 1])
  {
    if s != [] && IsJsSpace(s[|s| - 1]) {
      TrimEndSpec(s[..|s| - 1]);
    }
  }

  /** `str.trim().length === 0` holds exactly when every character of the
      string is whitespace. */
  lemma TrimmedEmptyIffInvalid(s: string)
    ensures |Trim(s)| == 0 <==> IsInvalidString(s)
  {
    var t := TrimStart(s);
    TrimStartSpec(s);
    TrimEndSpec(t);
    if !forall i :: 0 <= i < |s| ==> IsJsSpace(s[i]) {
      var k :| 0 <= k < |s| && !IsJsSpace(s[k]);
      assert t[k - (|s| - |t|)] == s[k];
    }
  }

  /** ASCII hexadecimal digit, either case (`[0-9a-fA-F]` under the `i` flag). */
  predicate IsHexDigit(c: char) {
    ('0' <= c <= '9') || ('a' <= c <= 'f') || ('A' <= c <= 'F')
  }

  predicate AllHex(s: string) {
    forall i :: 0 <= i < |s| ==> IsHexDigit(s[i])
  }

  /** `isValidUuid`: the anchored pattern of five hex groups of 8, 4, 4, 4
      and 12 digits joined by dashes, read group by group. The word-boundary
      assertions before each dash always hold (a hex digit is a word
      character and `-` is not), and the pattern object is built afresh on
      every call, so its global flag never carries a match position over. */
  predicate IsValidUuid(s: string) {
    && |s| == 36
    && AllHex(s[0..8]) && s[8] == '-'
    && AllHex(s[9..13]) && s[13] == '-'
    && AllHex(s[14..18]) && s[18] == '-'
    && AllHex(s[19..23]) && s[23] == '-'
    && AllHex(s[24..36])
  }

  /** Positions of the dashes in the canonical identifier form. */
  predicate IsDashPosition(i: int) {
    i == 8 || i == 13 || i == 18 || i == 23
  }

  /** The group-wise reading of the pattern agrees with the positional one:
      length 36, `-` at 8, 13, 18 and 23, a hex digit everywhere else. */
  lemma ValidUuidPositions(s: string)
    ensures IsValidUuid(s) <==>
      |s| == 36 && forall i :: 0 <= i < 36 ==> if IsDashPosition(i) then s[i] == '-' else IsHexDigit(s[i])
  {
    if |s| == 36 && forall i :: 0 <= i < 36 ==> if IsDashPosition(i) then s[i] == '-' else IsHexDigit(s[i]) {
      assert AllHex(s[0..8]) by {
        forall i | 0 <= i < 8 ensures IsHexDigit(s[0..8][i]) { assert !IsDashPosition(i); }
      }
      assert AllHex(s[9..13]) by {
        forall i | 0 <= i < 4 ensures IsHexDigit(s[9..13][i]) { assert !IsDashPosition(9 + i); }
      }
      assert AllHex(s[14..18]) by {
        forall i | 0 <= i < 4 ensures IsHexDigit(s[14..18][i]) { assert !IsDashPosition(14 + i); }
      }
      assert AllHex(s[19..23]) by {
        forall i | 0 <= i < 4 ensures IsHexDigit(s[19..23][i]) { assert !IsDashPosition(19 + i); }
      }
      assert AllHex(s[24..36]) by {
        forall i | 0 <= i < 12 ensures IsHexDigit(s[24..36][i]) { assert !IsDashPosition(24 + i); }
      }
    }
    if IsValidUuid(s) {
      forall i | 0 <= i < 36 ensures if IsDashPosition(i) then s[i] == '-' else IsHexDigit(s[i]) {
        if i < 8 { assert s[i] == s[0..8][i]; }
        else if 8 < i < 13 { assert s[i] == s[9..13][i - 9]; }
        else if 13 < i < 18 { assert s[i] == s[14..18][i - 14]; }
        else if 18 < i < 23 { assert s[i] == s[19..23][i - 19]; }
        else if 23 < i { assert s[i] == s[24..36][i - 24]; }
      }
    }
  }

  /** A well-formed identifier is never blank, so the image validator's
      `disasterId` check can never fire after the identifier check passed. */
  lemma ValidUuidIsNotBlank(s: string)
    requires IsValidUuid(s)
    ensures !IsInvalidString(s)
  {
    assert s[8] == '-';
  }

  /** `\w` without the `u` flag: `[A-Za-z0-9_]`. */
  predicate IsWordChar(c: char) {
    ('a' <= c <= 'z') || ('A' <= c <= 'Z') || ('0' <= c <= '9') || c == '_'
  }

  predicate IsSeparator(c: char) {
    c == '.' || c == '-'
  }

  /** The language of the pattern "one or more word characters, then any
      number of groups of an optional `.` or `-` followed by one or more word
      characters": word characters with single `.` or `-` separators,
      starting and ending with a word character. */
  predicate IsDottedWord(s: string) {
    && |s| > 0
    && IsWordChar(s[0]) && IsWordChar(s[|s| - 1])
    && (forall i :: 0 <= i < |s| ==> IsWordChar(s[i]) || IsSeparator(s[i]))
    && (forall i :: 0 < i < |s| ==> IsWordChar(s[i - 1]) || IsWordChar(s[i]))
  }

  /** The domain side of the email pattern: a dotted word followed by one or
      more groups of `.` and two or three word characters. As a language this
      is a dotted word whose last two or three characters are word
      characters preceded by a `.`. */
  predicate IsEmailDomain(d: string) {
    var n := |d|;
    && IsDottedWord(d)
    && (|| (n >= 3 && d[n - 3] == '.' && IsWordChar(d[n - 2]) && IsWordChar(d[n - 1]))
        || (n >= 4 && d[n - 4] == '.' && IsWordChar(d[n - 3]) && IsWordChar(d[n - 2]) && IsWordChar(d[n - 1])))
  }

  /** The anchored email pattern (dotted word, `@`, domain) as a recognizer
      of the language it denotes, not of its backtracking search. */
  predicate EmailOk(s: string) {
    exists i :: 0 <= i < |s| && s[i] == '@' && IsDottedWord(s[..i]) && IsEmailDomain(s[i + 1..])
  }

  /** Neither side of an accepted address contains `@`, so the split point
      is the one and only `@` of the string. */
  lemma EmailHasOneAt(s: string, i: int)
    requires EmailOk(s)
    requires 0 <= i < |s| && s[i] == '@'
    ensures IsDottedWord(s[..i]) && IsEmailDomain(s[i + 1..])
    ensures forall j :: 0 <= j < |s| && j != i ==> s[j] != '@'
  {
    var k :| 0 <= k < |s| && s[k] == '@' && IsDottedWord(s[..k]) && IsEmailDomain(s[k + 1..]);
    forall j | 0 <= j < |s| && j != k ensures s[j] != '@' {
      if j < k {
        assert s[..k][j] == s[j];
      } else {
        assert s[k + 1..][j - k - 1] == s[j];
      }
    }
  }

  /** A plain address is accepted. */
  lemma PlainEmailAccepted()
    ensures EmailOk("amy@example.com")
  {
    var s := "amy@example.com";
    assert s[..3] == "amy";
    assert s[4..] == "example.com";
    assert s[3] == '@';
  }

  /** No `@`, no address. */
  lemma EmailWithoutAtRejected(s: string)
    requires forall i :: 0 <= i < |s| ==> s[i] != '@'
    ensures !EmailOk(s)
  {
  }

  /** A domain without a final `.` group of two or three characters is rejected. */
  lemma EmailWithoutTopLevelDomainRejected()
    ensures !EmailOk("amy@example")
  {
    var s := "amy@example";
    forall i | 0 <= i < |s| && s[i] == '@' ensures !IsEmailDomain(s[i + 1..]) {
      assert i == 3;
      assert s[4..] == "example";
    }
  }

  /** `Array.prototype.toString`: the parts separated by commas. */
  function JoinWithCommas(parts: seq<string>): string {
    if |parts| == 0 then ""
    else if |parts| == 1 then parts[0]
    else parts[0] + "," + JoinWithCommas(parts[1..])
  }
}
