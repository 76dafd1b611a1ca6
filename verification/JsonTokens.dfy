/** The tokens a record is written as, and why each reader finds exactly its own token. */
module JsonTokens {
  import opened Wrappers
  import opened TextLines
  import opened JsonText

  /** Pieces of a written line: a bracket or comma, a field's key, a quoted string, or a bare
      number or `null`. */
  datatype Token = Mark(c: char) | Key(name: string) | Quoted(s: string) | Bare(text: string)

  function Text(token: Token): string {
    match token
    case Mark(c) => [c]
    case Key(name) => KeyText(name)
    case Quoted(s) => [QUOTE] + Escape(s) + [QUOTE]
    case Bare(text) => text
  }

  function Render(tokens: seq<Token>): string {
    if tokens == [] then [] else Text(tokens[0]) + Render(tokens[1..])
  }

  lemma {:induction false} RenderBoth(a: seq<Token>, b: seq<Token>)
    ensures Render(a + b) == Render(a) + Render(b)
  {
    if a == [] {
      assert a + b == b;
    } else {
      assert (a + b)[0] == a[0] && (a + b)[1..] == a[1..] + b;
      RenderBoth(a[1..], b);
    }
  }

  lemma RenderOne(token: Token)
    ensures Render([token]) == Text(token)
  {
    assert [token][1..] == [];
    assert Text(token) + Render([]) == Text(token);
  }

  // ---------------------------------------------------------------- well-formed token lists

  predicate PlainChar(c: char) {
    c != QUOTE && c != BACKSLASH && c != '{' && c != '}' && c != '[' && c != ']' && c != ',' && !IsAsciiWhitespace(c)
    && !IsWhitespace(c) && c as int < 128
  }

  predicate PlainText(s: string) {
    s != [] && forall i :: 0 <= i < |s| ==> PlainChar(s[i])
  }

  predicate TokenOk(token: Token) {
    match token
    case Mark(c) => c == '{' || c == '}' || c == '[' || c == ']' || c == ','
    case Key(name) => PlainText(name) && name[0] != ':'
    case Quoted(_) => true
    case Bare(text) => PlainText(text)
  }

  /** A value is followed by a comma or a closing bracket. */
  predicate Ends(tokens: seq<Token>) {
    tokens != [] && tokens[0].Mark? && EndsValue(tokens[0].c)
  }

  predicate WellFormed(tokens: seq<Token>) {
    tokens == [] ||
    (TokenOk(tokens[0]) && (tokens[0].Quoted? || tokens[0].Bare? ==> Ends(tokens[1..])) && WellFormed(tokens[1..]))
  }

  predicate TokensOk(tokens: seq<Token>) {
    forall i :: 0 <= i < |tokens| ==> TokenOk(tokens[i])
  }

  lemma {:induction false} WellFormedTokens(tokens: seq<Token>)
    requires WellFormed(tokens)
    ensures TokensOk(tokens)
  {
    hide TokenOk;
    if tokens != [] {
      WellFormedTokens(tokens[1..]);
      assert forall i :: 0 < i < |tokens| ==> tokens[i] == tokens[1..][i - 1];
    }
  }

  lemma {:induction false} WellFormedBoth(a: seq<Token>, b: seq<Token>)
    requires WellFormed(a) && WellFormed(b)
    ensures WellFormed(a + b)
  {
    if a == [] {
      assert a + b == b;
    } else {
      assert (a + b)[0] == a[0] && (a + b)[1..] == a[1..] + b;
      WellFormedBoth(a[1..], b);
    }
  }

  // ---------------------------------------------------------------- searching for a key

  predicate FieldName(field: string) {
    PlainText(field) && field[0] != ':'
  }

  /** Nothing starts a match inside a text without quotes. */
  lemma {:induction false} NoQuoteNoMatch(text: string, u: string, field: string)
    requires QUOTE !in text
    ensures After(text + u, KeyText(field)) == After(u, KeyText(field))
    ensures After(u, KeyText(field)).Some? ==> After(text + u, KeyText(field)).Some?
  {
    if text == [] {
      assert text + u == u;
    } else {
      assert (text + u)[1..] == text[1..] + u;
      assert KeyText(field)[0] == QUOTE;
      NoQuoteNoMatch(text[1..], u, field);
    }
  }

  /** One step past a character that does not start a match. */
  lemma AfterStep(c: char, u: string, field: string)
    requires !(KeyText(field) <= [c] + u)
    ensures After([c] + u, KeyText(field)) == After(u, KeyText(field))
  {
    assert ([c] + u)[1..] == u;
  }

  /** A key is the prefix of another key's text only if they are the same. */
  lemma {:induction false} KeysDiffer(field: string, name: string, u: string)
    requires QUOTE !in field && QUOTE !in name
    requires field + [QUOTE, ':'] <= name + [QUOTE, ':'] + u
    ensures field == name
  {
    var left, right := field + [QUOTE, ':'], name + [QUOTE, ':'] + u;
    assert left[0] == right[0];
    if field != [] && name != [] {
      assert left[1..] == field[1..] + [QUOTE, ':'] && right[1..] == name[1..] + [QUOTE, ':'] + u;
      assert left[1..] <= right[1..];
      KeysDiffer(field[1..], name[1..], u);
    }
  }

  lemma KeySkipped(name: string, u: string, field: string)
    requires FieldName(field) && FieldName(name) && name != field
    ensures After(KeyText(name) + u, KeyText(field)) == After(u, KeyText(field))
  {
    NoQuotesInPlain(field);
    NoQuotesInPlain(name);
    var inner := name + [QUOTE, ':'] + u;
    assert KeyText(name) + u == [QUOTE] + inner;
    if KeyText(field) <= [QUOTE] + inner {
      assert KeyText(field)[1..] == field + [QUOTE, ':'] && ([QUOTE] + inner)[1..] == inner;
      KeysDiffer(field, name, u);
    }
    AfterStep(QUOTE, inner, field);
    var colon := [QUOTE, ':'] + u;
    assert inner == name + colon;
    NoQuoteNoMatch(name, colon, field);
    assert colon == [QUOTE] + ([':'] + u);
    assert KeyText(field)[1] == field[0] && colon[1] == ':';
    AfterStep(QUOTE, [':'] + u, field);
    NoQuoteNoMatch([':'], u, field);
  }

  lemma NoQuotesInPlain(s: string)
    requires PlainText(s)
    ensures QUOTE !in s && BACKSLASH !in s
  {
  }

  lemma KeyFound(u: string, field: string)
    ensures After(KeyText(field) + u, KeyText(field)) == Some(u)
  {
    assert (KeyText(field) + u)[|KeyText(field)|..] == u;
  }

  /** A key's text never begins inside an escaped string: an escaped quote follows a backslash,
      and the closing quote is not followed by a colon. */
  lemma {:induction false} EscapedIsNoKey(field: string, s: string, u: string)
    requires QUOTE !in field && BACKSLASH !in field
    requires u != [] && u[0] != ':'
    ensures !(field + [QUOTE, ':'] <= Escape(s) + [QUOTE] + u)
  {
    var left, right := field + [QUOTE, ':'], Escape(s) + [QUOTE] + u;
    assert s == [] ==> right[1] == u[0];
    assert field == [] ==> left[1] == ':';
    if left <= right {
      assert left[0] == right[0];
      if s != [] {
        assert right[0] == EscapeChar(s[0])[0];
        if field != [] {
          assert EscapeChar(s[0]) == [s[0]];
          assert right == [s[0]] + (Escape(s[1..]) + [QUOTE] + u);
          assert left[1..] == field[1..] + [QUOTE, ':'] && right[1..] == Escape(s[1..]) + [QUOTE] + u;
          assert left[1..] <= right[1..];
          EscapedIsNoKey(field[1..], s[1..], u);
        }
      }
    }
  }

  /** The search runs past an escaped string, from its first character to its closing quote. */
  lemma {:induction false} EscapedSkipped(s: string, u: string, field: string)
    requires FieldName(field) && u != [] && EndsValue(u[0])
    ensures After(Escape(s) + [QUOTE] + u, KeyText(field)) == After(u, KeyText(field))
  {
    NoQuotesInPlain(field);
    if s == [] {
      assert Escape(s) + [QUOTE] + u == [QUOTE] + u;
      assert KeyText(field)[1] == field[0] && PlainChar(field[0]) && ([QUOTE] + u)[1] == u[0];
      AfterStep(QUOTE, u, field);
    } else {
      var c, others := s[0], Escape(s[1..]) + [QUOTE] + u;
      assert Escape(s) + [QUOTE] + u == EscapeChar(c) + others;
      EscapeCharSkipped(c, s[1..], u, field);
      EscapedSkipped(s[1..], u, field);
    }
  }

  lemma EscapeCharSkipped(c: char, s: string, u: string, field: string)
    requires FieldName(field) && u != [] && EndsValue(u[0])
    ensures After(EscapeChar(c) + (Escape(s) + [QUOTE] + u), KeyText(field))
         == After(Escape(s) + [QUOTE] + u, KeyText(field))
  {
    NoQuotesInPlain(field);
    var others := Escape(s) + [QUOTE] + u;
    if c == QUOTE {
      assert EscapeChar(c) + others == [BACKSLASH] + ([QUOTE] + others);
      NoQuoteNoMatch([BACKSLASH], [QUOTE] + others, field);
      if KeyText(field) <= [QUOTE] + others {
        assert KeyText(field)[1..] == field + [QUOTE, ':'] && ([QUOTE] + others)[1..] == others;
        EscapedIsNoKey(field, s, u);
      }
      AfterStep(QUOTE, others, field);
    } else {
      hide After;
      NoQuoteEscaped(c);
      NoQuoteNoMatch(EscapeChar(c), others, field);
    }
  }

  lemma NoQuoteEscaped(c: char)
    requires c != QUOTE
    ensures QUOTE !in EscapeChar(c)
  {
  }

  lemma QuotedSkipped(s: string, u: string, field: string)
    requires FieldName(field) && u != [] && EndsValue(u[0])
    ensures After(Text(Quoted(s)) + u, KeyText(field)) == After(u, KeyText(field))
  {
    NoQuotesInPlain(field);
    var others := Escape(s) + [QUOTE] + u;
    assert Text(Quoted(s)) + u == [QUOTE] + others;
    if KeyText(field) <= [QUOTE] + others {
      assert KeyText(field)[1..] == field + [QUOTE, ':'] && ([QUOTE] + others)[1..] == others;
      EscapedIsNoKey(field, s, u);
    }
    AfterStep(QUOTE, others, field);
    EscapedSkipped(s, u, field);
  }

  lemma TokenSkipped(token: Token, u: string, field: string)
    requires FieldName(field) && TokenOk(token) && token != Key(field)
    requires token.Quoted? || token.Bare? ==> u != [] && EndsValue(u[0])
    ensures After(Text(token) + u, KeyText(field)) == After(u, KeyText(field))
  {
    match token {
      case Mark(_) => NoQuoteNoMatch(Text(token), u, field);
      case Key(name) => KeySkipped(name, u, field);
      case Quoted(s) => QuotedSkipped(s, u, field);
      case Bare(_) => NoQuoteNoMatch(Text(token), u, field);
    }
  }

  lemma EndsText(tokens: seq<Token>, u: string)
    requires Ends(tokens)
    ensures Render(tokens) + u != [] && EndsValue((Render(tokens) + u)[0])
  {
  }

  /** The search for a key that does not occur among some tokens runs past all of them. */
  lemma {:induction false} TokensSkipped(tokens: seq<Token>, u: string, field: string)
    requires FieldName(field) && WellFormed(tokens) && Key(field) !in tokens
    ensures After(Render(tokens) + u, KeyText(field)) == After(u, KeyText(field))
  {
    hide After, Text, TokenOk, KeyText;
    if tokens == [] {
      assert Render(tokens) + u == u;
    } else {
      var token, others := tokens[0], tokens[1..];
      if token.Quoted? || token.Bare? {
        EndsText(others, u);
      }
      assert Render(tokens) + u == Text(token) + (Render(others) + u);
      TokenSkipped(token, Render(others) + u, field);
      TokensSkipped(others, u, field);
    }
  }

  /** The search finds the first token that is this key. */
  lemma KeyOfTokens(before: seq<Token>, field: string, u: string)
    requires FieldName(field) && WellFormed(before) && Key(field) !in before
    ensures After(Render(before) + KeyText(field) + u, KeyText(field)) == Some(u)
  {
    hide After, KeyText;
    assert Render(before) + KeyText(field) + u == Render(before) + (KeyText(field) + u);
    TokensSkipped(before, KeyText(field) + u, field);
    KeyFound(u, field);
  }
}
