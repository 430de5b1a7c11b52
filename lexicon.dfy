/**
  The lexical part of the SFZ grammar table: the character classes, the
  macros `name`, `int` and `frac`, and the ordered list of lexer rules, each
  read as a predicate on one whole lexeme. The lexer takes the first rule of
  the list that matches, so `Classify` searches the table in order.
 */
module Lexicon {
  import opened Wrappers

  // ---------------------------------------------------------------------
  // Character classes
  // ---------------------------------------------------------------------

  predicate IsDigit(c: char) { '0' <= c <= '9' }

  predicate IsNonZeroDigit(c: char) { '1' <= c <= '9' }

  /** `[a-zA-Z_]` */
  predicate IsNameStart(c: char) { 'a' <= c <= 'z' || 'A' <= c <= 'Z' || c == '_' }

  /** `[a-zA-Z0-9_]` */
  predicate IsNameChar(c: char) { IsNameStart(c) || IsDigit(c) }

  /** The characters of the regular-expression class `\s`. */
  predicate IsSpace(c: char)
  {
    || c == ' ' || c == '\t' || c == '\n' || c == '\r'
    || c == '\U{000B}' || c == '\U{000C}' || c == '\U{00A0}' || c == '\U{1680}'
    || ('\U{2000}' <= c <= '\U{200A}')
    || c == '\U{2028}' || c == '\U{2029}' || c == '\U{202F}' || c == '\U{205F}'
    || c == '\U{3000}' || c == '\U{FEFF}'
  }

  /** The characters that the regular-expression `.` does not match. */
  predicate IsLineTerminator(c: char)
  {
    c == '\n' || c == '\r' || c == '\U{2028}' || c == '\U{2029}'
  }

  /** `[^<>:"/\\|?*]`, the characters a file name may contain. */
  predicate IsFilenameChar(c: char) { c !in "<>:\"/\\|?*" }

  /** `[^<>:"/|?*]`, the characters a path may contain (a backslash is allowed). */
  predicate IsPathChar(c: char) { c !in "<>:\"/|?*" }

  // ---------------------------------------------------------------------
  // Macros
  // ---------------------------------------------------------------------

  /** `name`: a letter or `_`, then letters, digits or `_`. */
  predicate IsName(s: string)
  {
    |s| >= 1 && IsNameStart(s[0]) && forall i :: 1 <= i < |s| ==> IsNameChar(s[i])
  }

  predicate IsDigits(s: string)
  {
    forall i :: 0 <= i < |s| ==> IsDigit(s[i])
  }

  /** `[0-9]|[1-9][0-9]+`: one digit, or several without a leading zero. */
  predicate IsUnsignedInt(s: string)
  {
    || (|s| == 1 && IsDigit(s[0]))
    || (|s| >= 2 && IsNonZeroDigit(s[0]) && IsDigits(s[1..]))
  }

  /** `int`: an optional minus sign before an unsigned integer. */
  predicate IsInt(s: string)
  {
    IsUnsignedInt(s) || (|s| >= 1 && s[0] == '-' && IsUnsignedInt(s[1..]))
  }

  /** `frac`: a dot and one or more digits. */
  predicate IsFrac(s: string)
  {
    |s| >= 2 && s[0] == '.' && IsDigits(s[1..])
  }

  // ---------------------------------------------------------------------
  // Rules, one predicate per entry of the rule list
  // ---------------------------------------------------------------------

  /** `\s+` (skipped, produces no token) */
  predicate IsWhitespace(s: string)
  {
    |s| >= 1 && forall i :: 0 <= i < |s| ==> IsSpace(s[i])
  }

  /** `//.*\n` */
  predicate IsComment(s: string)
  {
    && |s| >= 3 && s[0] == '/' && s[1] == '/' && s[|s| - 1] == '\n'
    && forall i :: 2 <= i < |s| - 1 ==> !IsLineTerminator(s[i])
  }

  /** `{int}{frac}?`: an integer, optionally followed by a fraction. */
  predicate IsNumber(s: string)
  {
    IsInt(s) || exists k :: 0 < k < |s| && IsInt(s[..k]) && IsFrac(s[k..])
  }

  /** `<{name}>` */
  predicate IsHeader(s: string)
  {
    |s| >= 3 && s[0] == '<' && s[|s| - 1] == '>' && IsName(s[1..|s| - 1])
  }

  /** `{name}=` */
  predicate IsProperty(s: string)
  {
    |s| >= 2 && s[|s| - 1] == '=' && IsName(s[..|s| - 1])
  }

  predicate IsTrue(s: string) { s == "true" }

  predicate IsFalse(s: string) { s == "false" }

  predicate IsFilenameStem(s: string)
  {
    |s| >= 1 && forall i :: 0 <= i < |s| ==> IsFilenameChar(s[i])
  }

  /**
    The file-name rule as it is written, `[^<>:"/\\|?*]+.wav`: its `.` is not
    escaped, so any character other than a line terminator may stand before
    `wav`.
   */
  predicate IsFilenameAsWritten(s: string)
  {
    && |s| >= 5 && IsFilenameStem(s[..|s| - 4])
    && !IsLineTerminator(s[|s| - 4]) && s[|s| - 3..] == "wav"
  }

  /** The file-name rule as intended: a stem followed by the extension `.wav`. */
  predicate IsFilename(s: string)
  {
    |s| >= 5 && IsFilenameStem(s[..|s| - 4]) && s[|s| - 4..] == ".wav"
  }

  /** `[^<>:"/|?*]*\n`: the rest of a line, newline included. */
  predicate IsPath(s: string)
  {
    |s| >= 1 && s[|s| - 1] == '\n' && forall i :: 0 <= i < |s| - 1 ==> IsPathChar(s[i])
  }

  // ---------------------------------------------------------------------
  // The ordered rule table and the first-match classifier
  // ---------------------------------------------------------------------

  datatype TokenKind = Comment | Number | Header | Property | True | False | Filename | Path

  /** A lexer rule either skips its text or returns a token of some kind. */
  datatype Rule = Skip | Emit(kind: TokenKind)

  /** The rules in table order, which is their priority. */
  const Rules: seq<Rule> :=
    [Skip, Emit(Comment), Emit(Number), Emit(Header), Emit(Property),
     Emit(True), Emit(False), Emit(Filename), Emit(Path)]

  predicate Matches(r: Rule, s: string)
  {
    match r
    case Skip => IsWhitespace(s)
    case Emit(k) =>
      match k
      case Comment => IsComment(s)
      case Number => IsNumber(s)
      case Header => IsHeader(s)
      case Property => IsProperty(s)
      case True => IsTrue(s)
      case False => IsFalse(s)
      case Filename => IsFilenameAsWritten(s)
      case Path => IsPath(s)
  }

  /** The index of the first rule in `rules` that matches `s`, if any. */
  function FirstMatch(rules: seq<Rule>, s: string): (r: Option<nat>)
    ensures r.Some? ==> r.value < |rules| && Matches(rules[r.value], s)
    ensures r.Some? ==> forall j :: 0 <= j < r.value ==> !Matches(rules[j], s)
    ensures r.None? <==> forall j :: 0 <= j < |rules| ==> !Matches(rules[j], s)
  {
    if |rules| == 0 then None
    else if Matches(rules[0], s) then Some(0)
    else
      match FirstMatch(rules[1..], s)
      case None => None
      case Some(i) => Some(i + 1)
  }

  /**
    The rule that claims the lexeme `s`, or `None` when no rule matches it
    (a lexical error).
   */
  function Classify(s: string): (r: Option<Rule>)
    ensures r.Some? ==> r.value in Rules && Matches(r.value, s)
    ensures r.None? <==> forall j :: 0 <= j < |Rules| ==> !Matches(Rules[j], s)
  {
    match FirstMatch(Rules, s)
    case None => None
    case Some(i) => Some(Rules[i])
  }

  // ---------------------------------------------------------------------
  // The shape of each rule's lexemes
  // ---------------------------------------------------------------------

  lemma {:induction false} NumberEnds(s: string)
    requires IsNumber(s)
    ensures |s| >= 1 && (IsDigit(s[0]) || s[0] == '-') && IsDigit(s[|s| - 1])
  {
    if !IsInt(s) {
      var k :| 0 < k < |s| && IsInt(s[..k]) && IsFrac(s[k..]);
      assert s[0] == s[..k][0];
      assert s[|s| - 1] == s[k..][|s| - k - 1];
    }
  }

  /** A number has no leading zero: after a `0` (signed or not) only the fraction may follow. */
  lemma {:induction false} NumberHasNoLeadingZero(s: string, z: nat)
    requires IsNumber(s)
    requires z + 1 < |s| && s[z] == '0' && (z == 0 || (z == 1 && s[0] == '-'))
    ensures s[z + 1] == '.'
  {
    if !IsInt(s) {
      var k :| 0 < k < |s| && IsInt(s[..k]) && IsFrac(s[k..]);
      assert s[k] == s[k..][0];
    }
  }

  /** The samples of the NUMBER rule: what it takes and what it refuses. */
  lemma NumberSamples()
    ensures IsNumber("-3.5") && IsNumber("36") && IsNumber("0") && IsNumber("-0.25")
    ensures !IsNumber("05") && !IsNumber("1.") && !IsNumber(".5") && !IsNumber("-")
  {
    assert IsInt("-3") && IsFrac(".5") && "-3.5"[..2] == "-3" && "-3.5"[2..] == ".5";
    assert IsInt("-0") && IsFrac(".25") && "-0.25"[..2] == "-0" && "-0.25"[2..] == ".25";
    if IsNumber("05") { NumberHasNoLeadingZero("05", 0); }
    if IsNumber("1.") { NumberEnds("1."); }
    if IsNumber(".5") { NumberEnds(".5"); }
  }

  // ---------------------------------------------------------------------
  // The file-name rule: as written and as intended
  // ---------------------------------------------------------------------

  /** As written, the file-name rule takes `kick_wav`, which has no `.wav` extension. */
  lemma FilenameAsWrittenTakesAnySeparator()
    ensures IsFilenameAsWritten("kick_wav") && !IsFilename("kick_wav")
    ensures Classify("kick_wav") == Some(Emit(Filename))
  {
    assert "kick_wav"[..4] == "kick" && "kick_wav"[5..] == "wav";
    assert "kick_wav"[4..][0] == '_';
    ClassifyFindsTheRule("kick_wav", Emit(Filename));
  }

  /** The intended rule is exactly a stem of file-name characters followed by `.wav`. */
  lemma FilenameIsStemWithExtension(s: string)
    ensures IsFilename(s) <==> exists stem :: IsFilenameStem(stem) && s == stem + ".wav"
  {
    if IsFilename(s) {
      assert s == s[..|s| - 4] + ".wav";
    }
    if exists stem :: IsFilenameStem(stem) && s == stem + ".wav" {
      var stem :| IsFilenameStem(stem) && s == stem + ".wav";
      assert s[..|s| - 4] == stem;
      assert s[|s| - 4..] == ".wav";
    }
  }

  /** Every intended file name is also taken by the rule as written. */
  lemma FilenameIsFilenameAsWritten(s: string)
    requires IsFilename(s)
    ensures IsFilenameAsWritten(s)
  {
    assert s[|s| - 4] == s[|s| - 4..][0];
    assert s[|s| - 3..] == s[|s| - 4..][1..];
  }

  // ---------------------------------------------------------------------
  // Priority: which lexemes two rules both describe
  // ---------------------------------------------------------------------

  lemma FilenameEnds(s: string)
    requires IsFilenameAsWritten(s)
    ensures IsFilenameChar(s[0]) && s[|s| - 1] == 'v'
  {
    assert s[0] == s[..|s| - 4][0];
    assert s[|s| - 1] == s[|s| - 3..][2];
  }

  lemma SpaceIsPathChar(c: char)
    requires IsSpace(c)
    ensures IsPathChar(c)
  {
  }

  /**
    No two rules of the table describe the same lexeme, except whitespace and
    PATH: a blank line, whitespace ending in a newline, fits both.
   */
  lemma {:induction false} RulesAreDisjoint(s: string, i: nat, j: nat)
    requires i < j < |Rules|
    requires !(Rules[i] == Skip && Rules[j] == Emit(Path))
    ensures !(Matches(Rules[i], s) && Matches(Rules[j], s))
  {
    if IsNumber(s) { NumberEnds(s); }
    if IsFilenameAsWritten(s) { FilenameEnds(s); }
    if IsHeader(s) { assert IsNameChar(s[1..|s| - 1][0]); }
    if IsProperty(s) { assert IsNameStart(s[..|s| - 1][0]); }
  }

  /** A lexeme made of whitespace and ending in a newline also fits PATH, but whitespace takes it. */
  lemma BlankLineIsSkipped(s: string)
    requires IsWhitespace(s) && s[|s| - 1] == '\n'
    ensures IsPath(s) && Classify(s) == Some(Skip)
  {
    forall i | 0 <= i < |s| - 1 ensures IsPathChar(s[i]) {
      SpaceIsPathChar(s[i]);
    }
    assert Matches(Rules[0], s);
  }

  /**
    Every lexeme that a rule describes is classified as that rule, except a
    blank line, which whitespace claims before PATH.
   */
  lemma ClassifyFindsTheRule(s: string, r: Rule)
    requires r in Rules && Matches(r, s)
    requires !(r == Emit(Path) && IsWhitespace(s))
    ensures Classify(s) == Some(r)
  {
    var i :| 0 <= i < |Rules| && Rules[i] == r;
    var m := FirstMatch(Rules, s);
    assert m.Some?;
    var k := m.value;
    if k < i {
      RulesAreDisjoint(s, k, i);
    } else if i < k {
      assert false;
    }
  }

  /** A header lexeme is a name inside angle brackets, and is classified HEADER. */
  lemma HeaderLexeme(n: string)
    ensures IsHeader("<" + n + ">") <==> IsName(n)
    ensures IsName(n) ==> Classify("<" + n + ">") == Some(Emit(Header))
  {
    var s := "<" + n + ">";
    assert s[1..|s| - 1] == n;
    if IsName(n) {
      ClassifyFindsTheRule(s, Emit(Header));
    }
  }

  /** A property lexeme is a name followed by `=`, and is classified PROPERTY. */
  lemma PropertyLexeme(n: string)
    ensures IsProperty(n + "=") <==> IsName(n)
    ensures IsName(n) ==> Classify(n + "=") == Some(Emit(Property))
  {
    var s := n + "=";
    assert s[..|s| - 1] == n;
    if IsName(n) {
      ClassifyFindsTheRule(s, Emit(Property));
    }
  }

  /** A file name with a real `.wav` extension is still classified FILENAME. */
  lemma IntendedFilenameIsClassified(s: string)
    requires IsFilename(s)
    ensures Classify(s) == Some(Emit(Filename))
  {
    FilenameIsFilenameAsWritten(s);
    ClassifyFindsTheRule(s, Emit(Filename));
  }

  /** `true` and `false` are not names followed by `=`: the boolean rules take them. */
  lemma BooleanLexemes()
    ensures Classify("true") == Some(Emit(True))
    ensures Classify("false") == Some(Emit(False))
  {
    ClassifyFindsTheRule("true", Emit(True));
    ClassifyFindsTheRule("false", Emit(False));
  }
}
