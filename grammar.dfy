/**
  The grammar part of the SFZ table:

    SFZ             := SFZComment | SFZHeader | SFZPropertyList
                     | SFZ SFZComment | SFZ SFZHeader | SFZ SFZPropertyList
    SFZPropertyList := SFZProperty | SFZPropertyList SFZProperty
    SFZProperty     := PROPERTY SFZValue
    SFZValue        := TRUE | FALSE | PATH | NUMBER | FILENAME

  The grammar is ambiguous (a run of properties can be one list or several),
  but its language is simply one or more items, each a COMMENT, a HEADER, or a
  PROPERTY followed by one value token. `Parse` recognises that language over a
  token sequence (its end is the end of input) and yields the items as
  expressions, comments dropped.
 */
module Grammar {
  import opened Wrappers
  import opened Lexicon
  import opened Expressions

  datatype Token = Token(kind: TokenKind, lexeme: string)

  /** The token at `index` cannot continue the input, or the input ended too early. */
  datatype ParseError = UnexpectedToken(index: nat) | UnexpectedEnd

  /** The tokens `SFZValue` derives. */
  predicate IsValueKind(k: TokenKind)
  {
    k == Number || k == True || k == False || k == Filename || k == Path
  }

  /** The property name: the lexeme without its last character, the `=`. */
  function PropertyKey(lexeme: string): string
  {
    if |lexeme| == 0 then "" else lexeme[..|lexeme| - 1]
  }

  /**
    A value reaches the expression as the text it matched: no rule of the
    grammar converts it, so the value of every nonterminal is that of its
    first symbol.
   */
  function ValueOf(t: Token): Value
  {
    Str(t.lexeme)
  }

  /** The items from token `i` on, or the first token that cannot continue them. */
  function ParseFrom(ts: seq<Token>, i: nat): Result<seq<Expr>, ParseError>
    requires i <= |ts|
    decreases |ts| - i
  {
    if i == |ts| then Ok([])
    else
      match ts[i].kind
      case Comment => ParseFrom(ts, i + 1)
      case Header =>
        (match ParseFrom(ts, i + 1)
         case Ok(es) => Ok([HeaderExpr(ts[i].lexeme)] + es)
         case Err(e) => Err(e))
      case Property =>
        if i + 1 == |ts| then Err(UnexpectedEnd)
        else if !IsValueKind(ts[i + 1].kind) then Err(UnexpectedToken(i + 1))
        else
          (match ParseFrom(ts, i + 2)
           case Ok(es) => Ok([PropertyExpr(PropertyKey(ts[i].lexeme), ValueOf(ts[i + 1]))] + es)
           case Err(e) => Err(e))
      case _ => Err(UnexpectedToken(i))
  }

  /** `SFZ` has no empty alternative: empty input is an error at its end. */
  function Parse(ts: seq<Token>): Result<seq<Expr>, ParseError>
  {
    if |ts| == 0 then Err(UnexpectedEnd) else ParseFrom(ts, 0)
  }

  // ---------------------------------------------------------------------
  // The language, stated position by position
  // ---------------------------------------------------------------------

  /** From position `i` on, every PROPERTY is followed by a value and every value follows a PROPERTY. */
  predicate WellFormedFrom(ts: seq<Token>, i: nat)
  {
    && (forall j :: i <= j < |ts| && ts[j].kind == Property ==> j + 1 < |ts| && IsValueKind(ts[j + 1].kind))
    && (forall j :: i <= j < |ts| && IsValueKind(ts[j].kind) ==> j > 0 && ts[j - 1].kind == Property)
  }

  /** The sentences of `SFZ`: non-empty, values exactly after properties. */
  predicate WellFormed(ts: seq<Token>)
  {
    |ts| > 0 && WellFormedFrom(ts, 0)
  }

  /** The token at `j` breaks the pairing of properties and values. */
  predicate Violation(ts: seq<Token>, j: nat)
    requires j < |ts|
  {
    || (IsValueKind(ts[j].kind) && !(j > 0 && ts[j - 1].kind == Property))
    || (j > 0 && ts[j - 1].kind == Property && !IsValueKind(ts[j].kind))
  }

  /** Position `i` starts an item: the token before it, if any, is not a PROPERTY. */
  predicate ItemBoundary(ts: seq<Token>, i: nat)
    requires i <= |ts|
  {
    i == 0 || ts[i - 1].kind != Property
  }

  /** An item that is a single COMMENT or HEADER token leaves the pairing to the rest. */
  lemma SingleTokenItem(ts: seq<Token>, i: nat)
    requires i < |ts| && (ts[i].kind == Comment || ts[i].kind == Header)
    ensures WellFormedFrom(ts, i) <==> WellFormedFrom(ts, i + 1)
  {
  }

  /** A PROPERTY item needs its value next, and leaves the pairing to the rest. */
  lemma PropertyItem(ts: seq<Token>, i: nat)
    requires i < |ts| && ts[i].kind == Property
    ensures WellFormedFrom(ts, i) <==>
      i + 1 < |ts| && IsValueKind(ts[i + 1].kind) && WellFormedFrom(ts, i + 2)
  {
    if i + 1 < |ts| && IsValueKind(ts[i + 1].kind) && WellFormedFrom(ts, i + 2) {
      assert ts[i + 1].kind != Property;
    }
  }

  lemma {:induction false} ParseFromAccepts(ts: seq<Token>, i: nat)
    requires i <= |ts| && ItemBoundary(ts, i)
    ensures ParseFrom(ts, i).Ok? <==> WellFormedFrom(ts, i)
    decreases |ts| - i
  {
    if i < |ts| {
      var k := ts[i].kind;
      if k == Comment || k == Header {
        ParseFromAccepts(ts, i + 1);
        SingleTokenItem(ts, i);
      } else if k == Property {
        PropertyItem(ts, i);
        if i + 1 < |ts| && IsValueKind(ts[i + 1].kind) {
          ParseFromAccepts(ts, i + 2);
        }
      } else {
        assert IsValueKind(k);
      }
    }
  }

  /** The parser accepts exactly the well-formed token sequences. */
  lemma ParseAccepts(ts: seq<Token>)
    ensures Parse(ts).Ok? <==> WellFormed(ts)
  {
    if |ts| > 0 {
      ParseFromAccepts(ts, 0);
    }
  }

  lemma {:induction false} ParseFromFailsAtFirstViolation(ts: seq<Token>, i: nat)
    requires i <= |ts| && ItemBoundary(ts, i)
    ensures ParseFrom(ts, i).Err? && ParseFrom(ts, i).error.UnexpectedToken? ==>
      var x := ParseFrom(ts, i).error.index;
      i <= x < |ts| && Violation(ts, x) && forall j :: i <= j < x ==> !Violation(ts, j)
    ensures ParseFrom(ts, i) == Err(UnexpectedEnd) ==>
      && i < |ts| && ts[|ts| - 1].kind == Property
      && forall j :: i <= j < |ts| ==> !Violation(ts, j)
    decreases |ts| - i
  {
    if i < |ts| {
      match ts[i].kind
      case Comment => ParseFromFailsAtFirstViolation(ts, i + 1);
      case Header => ParseFromFailsAtFirstViolation(ts, i + 1);
      case Property =>
        if i + 1 < |ts| && IsValueKind(ts[i + 1].kind) {
          ParseFromFailsAtFirstViolation(ts, i + 2);
        }
      case _ =>
    }
  }

  /**
    A rejection names the first token that breaks the pairing of properties
    and values; when no token does, the input ended too early: it was empty
    or it ends with a PROPERTY.
   */
  lemma ParseFailsAtFirstViolation(ts: seq<Token>)
    ensures Parse(ts).Err? && Parse(ts).error.UnexpectedToken? ==>
      var x := Parse(ts).error.index;
      x < |ts| && Violation(ts, x) && forall j :: 0 <= j < x ==> !Violation(ts, j)
    ensures Parse(ts) == Err(UnexpectedEnd) ==>
      |ts| == 0 || (ts[|ts| - 1].kind == Property && forall j :: 0 <= j < |ts| ==> !Violation(ts, j))
  {
    if |ts| > 0 {
      ParseFromFailsAtFirstViolation(ts, 0);
    }
  }

  // ---------------------------------------------------------------------
  // What the expressions hold
  // ---------------------------------------------------------------------

  /** The lexemes of the HEADER tokens, in order. */
  function HeaderTokens(ts: seq<Token>): seq<string>
  {
    if |ts| == 0 then []
    else if ts[0].kind == Header then [ts[0].lexeme] + HeaderTokens(ts[1..])
    else HeaderTokens(ts[1..])
  }

  function PropertyTokenCount(ts: seq<Token>): nat
  {
    if |ts| == 0 then 0
    else (if ts[0].kind == Property then 1 else 0) + PropertyTokenCount(ts[1..])
  }

  lemma {:induction false} ParseFromYields(ts: seq<Token>, i: nat)
    requires i <= |ts|
    requires ParseFrom(ts, i).Ok?
    ensures HeaderLexemes(ParseFrom(ts, i).value) == HeaderTokens(ts[i..])
    ensures |ParseFrom(ts, i).value| == |HeaderTokens(ts[i..])| + PropertyTokenCount(ts[i..])
    decreases |ts| - i
  {
    if i < |ts| {
      var es := ParseFrom(ts, i).value;
      assert ts[i..][0] == ts[i] && ts[i..][1..] == ts[i + 1..];
      match ts[i].kind
      case Comment =>
        ParseFromYields(ts, i + 1);
      case Header =>
        ParseFromYields(ts, i + 1);
        assert es[1..] == ParseFrom(ts, i + 1).value;
      case Property =>
        ParseFromYields(ts, i + 2);
        assert es[1..] == ParseFrom(ts, i + 2).value;
        assert ts[i + 1..][0] == ts[i + 1] && ts[i + 1..][1..] == ts[i + 2..];
      case _ =>
    }
  }

  /**
    An accepted input yields one expression per HEADER and per PROPERTY
    token, and its header expressions are the HEADER tokens in order.
   */
  lemma ParseYields(ts: seq<Token>)
    requires Parse(ts).Ok?
    ensures HeaderLexemes(Parse(ts).value) == HeaderTokens(ts)
    ensures |Parse(ts).value| == |HeaderTokens(ts)| + PropertyTokenCount(ts)
  {
    ParseFromYields(ts, 0);
    assert ts[0..] == ts;
  }

  /** How many expressions the tokens `ts` yield: their HEADER and PROPERTY tokens. */
  function ItemCount(ts: seq<Token>): nat
  {
    |HeaderTokens(ts)| + PropertyTokenCount(ts)
  }

  lemma ItemCountStep(ts: seq<Token>, i: nat, j: nat)
    requires i < j <= |ts|
    ensures ItemCount(ts[i..j]) == (if ts[i].kind == Header || ts[i].kind == Property then 1 else 0) + ItemCount(ts[i + 1..j])
  {
    assert ts[i..j][0] == ts[i] && ts[i..j][1..] == ts[i + 1..j];
  }

  /** The expression a HEADER or PROPERTY token at `j` stands for. */
  predicate Yields(ts: seq<Token>, j: nat, e: Expr)
    requires j < |ts|
  {
    && (ts[j].kind == Header ==> e == HeaderExpr(ts[j].lexeme))
    && (ts[j].kind == Property ==>
          j + 1 < |ts| && e == PropertyExpr(PropertyKey(ts[j].lexeme), ValueOf(ts[j + 1])))
  }

  /**
    Comments dropped, expressions follow token order: a HEADER or PROPERTY
    token at `j` yields the expression whose index counts the HEADER and
    PROPERTY tokens from `i` up to `j`, and that expression holds the header
    lexeme, or the property's name and the value token after it.
   */
  lemma {:induction false} ParseFromPlaces(ts: seq<Token>, i: nat, j: nat)
    requires i <= j < |ts|
    requires ParseFrom(ts, i).Ok?
    requires ts[j].kind == Header || ts[j].kind == Property
    ensures ItemCount(ts[i..j]) < |ParseFrom(ts, i).value|
    ensures Yields(ts, j, ParseFrom(ts, i).value[ItemCount(ts[i..j])])
    decreases |ts| - i
  {
    var es := ParseFrom(ts, i).value;
    if i == j {
      assert ts[i..j] == [];
    } else {
      ItemCountStep(ts, i, j);
      var k := ts[i].kind;
      if k == Comment {
        ParseFromPlaces(ts, i + 1, j);
      } else if k == Header {
        ParseFromPlaces(ts, i + 1, j);
        assert es == [HeaderExpr(ts[i].lexeme)] + ParseFrom(ts, i + 1).value;
      } else {
        assert k == Property && IsValueKind(ts[i + 1].kind);
        ItemCountStep(ts, i + 1, j);
        ParseFromPlaces(ts, i + 2, j);
        assert es == [PropertyExpr(PropertyKey(ts[i].lexeme), ValueOf(ts[i + 1]))] + ParseFrom(ts, i + 2).value;
      }
    }
  }

  /**
    In an accepted input, the HEADER or PROPERTY token at `j` yields the
    expression whose index counts the HEADER and PROPERTY tokens before it:
    its header lexeme, or its name and the value token that follows it.
   */
  lemma ParsePlaces(ts: seq<Token>, j: nat)
    requires Parse(ts).Ok? && j < |ts|
    requires ts[j].kind == Header || ts[j].kind == Property
    ensures ItemCount(ts[..j]) < |Parse(ts).value|
    ensures Yields(ts, j, Parse(ts).value[ItemCount(ts[..j])])
  {
    ParseFromPlaces(ts, 0, j);
    assert ts[0..j] == ts[..j];
  }

  /** Every token's kind is the one the lexer's first-match rule gives its lexeme. */
  predicate Lexed(ts: seq<Token>)
  {
    forall j :: 0 <= j < |ts| ==> Classify(ts[j].lexeme) == Some(Emit(ts[j].kind))
  }

  /** Header expressions hold header lexemes; property expressions hold names and text. */
  predicate WellShaped(es: seq<Expr>)
  {
    forall e :: e in es ==>
      match e
      case HeaderExpr(h) => IsHeader(h)
      case PropertyExpr(k, v) => IsName(k) && v.Str?
  }

  /** A shaped expression followed by shaped expressions. */
  lemma ShapedCons(e: Expr, es: seq<Expr>)
    requires WellShaped([e]) && WellShaped(es)
    ensures WellShaped([e] + es)
  {
    forall x | x in [e] + es ensures x in [e] || x in es {
    }
  }

  /** HEADER tokens hold header lexemes, PROPERTY tokens property lexemes. */
  predicate KindsFitLexemes(ts: seq<Token>)
  {
    forall j :: 0 <= j < |ts| ==>
      (ts[j].kind == Header ==> IsHeader(ts[j].lexeme)) && (ts[j].kind == Property ==> IsProperty(ts[j].lexeme))
  }

  lemma LexedKindsFit(ts: seq<Token>)
    requires Lexed(ts)
    ensures KindsFitLexemes(ts)
  {
    forall j | 0 <= j < |ts|
      ensures (ts[j].kind == Header ==> IsHeader(ts[j].lexeme)) && (ts[j].kind == Property ==> IsProperty(ts[j].lexeme))
    {
      assert Matches(Emit(ts[j].kind), ts[j].lexeme);
    }
  }

  lemma {:induction false} ParseFromShapes(ts: seq<Token>, i: nat)
    requires i <= |ts| && KindsFitLexemes(ts)
    ensures ParseFrom(ts, i).Ok? ==> WellShaped(ParseFrom(ts, i).value)
    decreases |ts| - i
  {
    if i < |ts| && ParseFrom(ts, i).Ok? {
      var es := ParseFrom(ts, i).value;
      var t := ts[i];
      if t.kind == Comment {
        ParseFromShapes(ts, i + 1);
      } else if t.kind == Header {
        ParseFromShapes(ts, i + 1);
        assert es == [HeaderExpr(t.lexeme)] + ParseFrom(ts, i + 1).value;
        ShapedCons(HeaderExpr(t.lexeme), ParseFrom(ts, i + 1).value);
      } else {
        assert t.kind == Property && IsProperty(t.lexeme);
        ParseFromShapes(ts, i + 2);
        var e := PropertyExpr(PropertyKey(t.lexeme), ValueOf(ts[i + 1]));
        assert es == [e] + ParseFrom(ts, i + 2).value;
        ShapedCons(e, ParseFrom(ts, i + 2).value);
      }
    }
  }

  /** Parsing lexed tokens gives headers that are `<name>` and keys that are names. */
  lemma ParseShapes(ts: seq<Token>)
    requires Lexed(ts)
    ensures Parse(ts).Ok? ==> WellShaped(Parse(ts).value)
  {
    if |ts| > 0 {
      LexedKindsFit(ts);
      ParseFromShapes(ts, 0);
    }
  }

  /** The property name is recovered from the lexeme `name=`. */
  lemma PropertyKeyRoundTrip(n: string)
    requires IsName(n)
    ensures IsProperty(n + "=") && PropertyKey(n + "=") == n
  {
    PropertyLexeme(n);
    assert (n + "=")[..|n|] == n;
  }

  /** Sample inputs: a region with its sample, and three rejected inputs. */
  lemma ParseSamples()
    ensures Parse([Token(Header, "<region>"), Token(Property, "sample="), Token(Filename, "kick.wav")])
         == Ok([HeaderExpr("<region>"), PropertyExpr("sample", Str("kick.wav"))])
    ensures Parse([Token(Property, "foo=")]) == Err(UnexpectedEnd)
    ensures Parse([]) == Err(UnexpectedEnd)
    ensures Parse([Token(Header, "<group>"), Token(Number, "36")]) == Err(UnexpectedToken(1))
    ensures Parse([Token(Property, "a="), Token(Property, "b="), Token(Number, "1")]) == Err(UnexpectedToken(1))
  {
    var ts := [Token(Header, "<region>"), Token(Property, "sample="), Token(Filename, "kick.wav")];
    assert ParseFrom(ts, 3) == Ok([]);
    var r := ParseFrom(ts, 1);
    assert PropertyKey("sample=") == "sample";
    assert r.value == [PropertyExpr("sample", Str("kick.wav"))];
    var e := [HeaderExpr("<region>"), PropertyExpr("sample", Str("kick.wav"))];
    assert ParseFrom(ts, 0).value == e;
    assert Parse(ts) == Ok(e);
  }
}
