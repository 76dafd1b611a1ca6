/** Reading values, objects and arrays out of rendered tokens. */
module JsonObjects {
  import opened Wrappers
  import opened Sorting
  import opened TextLines
  import opened JsonText
  import opened JsonArrays
  import opened JsonTokens

  // ---------------------------------------------------------------- values

  lemma SkipNothing(s: string)
    requires s != [] && !IsAsciiWhitespace(s[0])
    ensures SkipWhitespace(s) == s
  {
  }

  /** The field of a string token reads as the string that was written, in bytes. */
  lemma StringFieldReads(before: seq<Token>, field: string, s: string, u: string)
    requires FieldName(field) && WellFormed(before) && Key(field) !in before
    ensures StringField(Render(before) + KeyText(field) + (Text(Quoted(s)) + u), field) == Success(Some(FieldText(s)))
  {
    hide After, KeyText, StringFrom, Escape, FieldText;
    var found := Text(Quoted(s)) + u;
    KeyOfTokens(before, field, found);
    SkipNothing(found);
    assert found[1..] == Escape(s) + [QUOTE] + u;
    UnescapeEscape(s, u, []);
    assert [] + FieldText(s) == FieldText(s);
  }

  lemma {:induction false} UntilEndOfPlain(text: string, u: string)
    requires (forall i :: 0 <= i < |text| ==> PlainChar(text[i])) && u != [] && EndsValue(u[0])
    ensures UntilEnd(text + u) == text
  {
    if text == [] {
      assert text + u == u;
    } else {
      assert (text + u)[1..] == text[1..] + u;
      UntilEndOfPlain(text[1..], u);
    }
  }

  lemma PlainIsTrimmed(text: string)
    requires PlainText(text)
    ensures Trim(text) == text
  {
    assert PlainChar(text[0]) && PlainChar(text[|text| - 1]);
  }

  /** The field of a bare token is its text. */
  lemma RawFieldReads(before: seq<Token>, field: string, text: string, u: string)
    requires FieldName(field) && WellFormed(before) && Key(field) !in before && PlainText(text)
    requires u != [] && EndsValue(u[0])
    ensures RawField(Render(before) + KeyText(field) + (text + u), field) == Some(text)
    ensures StringField(Render(before) + KeyText(field) + (text + u), field) == Success(None)
  {
    hide After, KeyText, StringFrom, Trim;
    KeyOfTokens(before, field, text + u);
    assert PlainChar(text[0]);
    SkipNothing(text + u);
    UntilEndOfPlain(text, u);
    PlainIsTrimmed(text);
  }

  // ---------------------------------------------------------------- scanning inside an object

  function DepthOf(token: Token, depth: int): int {
    match token
    case Mark(c) => if c == '{' then depth + 1 else if c == '}' then depth - 1 else depth
    case _ => depth
  }

  function DepthAfter(tokens: seq<Token>, depth: int): int {
    if tokens == [] then depth else DepthAfter(tokens[1..], DepthOf(tokens[0], depth))
  }

  /** The tokens never close the object they are in. */
  predicate Inside(tokens: seq<Token>, depth: int) {
    depth >= 1 && (tokens == [] || Inside(tokens[1..], DepthOf(tokens[0], depth)))
  }

  function InObject(depth: int, current: string, objects: seq<string>): Scan {
    Scan(depth, false, false, Some(current), objects)
  }

  lemma ItemsStep(c: char, u: string, scan: Scan)
    requires !Stops(scan, c)
    ensures ItemsFrom([c] + u, scan) == ItemsFrom(u, Next(scan, c))
  {
    assert ([c] + u)[1..] == u;
  }

  /** Characters that mean nothing to the scan are taken over as they are. */
  lemma {:induction false} ScanPlain(
    text: string, u: string, depth: int, inString: bool, current: string, objects: seq<string>)
    requires depth >= 1
    requires forall i :: 0 <= i < |text| ==> text[i] != QUOTE && text[i] != BACKSLASH
    requires !inString ==> forall i :: 0 <= i < |text| ==> text[i] != '{' && text[i] != '}'
    ensures ItemsFrom(text + u, Scan(depth, inString, false, Some(current), objects))
         == ItemsFrom(u, Scan(depth, inString, false, Some(current + text), objects))
  {
    if text == [] {
      assert text + u == u && current + text == current;
    } else {
      assert text + u == [text[0]] + (text[1..] + u);
      ItemsStep(text[0], text[1..] + u, Scan(depth, inString, false, Some(current), objects));
      ScanPlain(text[1..], u, depth, inString, current + [text[0]], objects);
      assert current + [text[0]] + text[1..] == current + text;
    }
  }

  lemma ScanEscapeChar(c: char, u: string, depth: int, current: string, objects: seq<string>)
    requires depth >= 1
    ensures ItemsFrom(EscapeChar(c) + u, Scan(depth, true, false, Some(current), objects))
         == ItemsFrom(u, Scan(depth, true, false, Some(current + EscapeChar(c)), objects))
  {
    var text, scan := EscapeChar(c), Scan(depth, true, false, Some(current), objects);
    if text[0] == BACKSLASH {
      EscapePairThenPlain(c);
      var pair := text[..2];
      assert text + u == [text[0]] + ([text[1]] + (text[2..] + u));
      ItemsStep(text[0], [text[1]] + (text[2..] + u), scan);
      ItemsStep(text[1], text[2..] + u, Next(scan, text[0]));
      assert current + [text[0]] + [text[1]] == current + pair;
      ScanPlain(text[2..], u, depth, true, current + pair, objects);
      assert current + pair + text[2..] == current + text;
    } else {
      ScanPlain(text, u, depth, true, current, objects);
    }
  }

  lemma EscapePairThenPlain(c: char)
    ensures EscapeChar(c)[0] == BACKSLASH ==> |EscapeChar(c)| >= 2
    ensures
      var text := EscapeChar(c);
      forall i :: 2 <= i < |text| ==> text[i] != QUOTE && text[i] != BACKSLASH
    ensures EscapeChar(c)[0] != BACKSLASH ==> EscapeChar(c) == [c] && c != QUOTE
  {
  }

  lemma {:induction false} ScanEscaped(s: string, u: string, depth: int, current: string, objects: seq<string>)
    requires depth >= 1
    ensures ItemsFrom(Escape(s) + u, Scan(depth, true, false, Some(current), objects))
         == ItemsFrom(u, Scan(depth, true, false, Some(current + Escape(s)), objects))
  {
    hide EscapeChar, ItemsFrom;
    if s == [] {
      assert Escape(s) + u == u && current + Escape(s) == current;
    } else {
      assert Escape(s) + u == EscapeChar(s[0]) + (Escape(s[1..]) + u);
      ScanEscapeChar(s[0], Escape(s[1..]) + u, depth, current, objects);
      ScanEscaped(s[1..], u, depth, current + EscapeChar(s[0]), objects);
      assert current + EscapeChar(s[0]) + Escape(s[1..]) == current + Escape(s);
    }
  }

  lemma ScanQuoted(s: string, u: string, depth: int, current: string, objects: seq<string>)
    requires depth >= 1
    ensures ItemsFrom(Text(Quoted(s)) + u, InObject(depth, current, objects))
         == ItemsFrom(u, InObject(depth, current + Text(Quoted(s)), objects))
  {
    hide ItemsFrom;
    var others := Escape(s) + ([QUOTE] + u);
    assert Text(Quoted(s)) + u == [QUOTE] + others;
    ItemsStep(QUOTE, others, InObject(depth, current, objects));
    ScanEscaped(s, [QUOTE] + u, depth, current + [QUOTE], objects);
    var closing := Scan(depth, true, false, Some(current + [QUOTE] + Escape(s)), objects);
    ItemsStep(QUOTE, u, closing);
    assert current + [QUOTE] + Escape(s) + [QUOTE] == current + Text(Quoted(s));
  }

  lemma ScanToken(token: Token, u: string, depth: int, current: string, objects: seq<string>)
    requires TokenOk(token) && depth >= 1 && DepthOf(token, depth) >= 1
    ensures ItemsFrom(Text(token) + u, InObject(depth, current, objects))
         == ItemsFrom(u, InObject(DepthOf(token, depth), current + Text(token), objects))
  {
    hide ItemsFrom;
    match token {
      case Mark(c) => ItemsStep(c, u, InObject(depth, current, objects));
      case Key(name) => ScanKey(name, u, depth, current, objects);
      case Quoted(s) => ScanQuoted(s, u, depth, current, objects);
      case Bare(text) =>
        assert forall i :: 0 <= i < |text| ==> PlainChar(text[i]);
        ScanPlain(text, u, depth, false, current, objects);
    }
  }

  lemma ScanKey(name: string, u: string, depth: int, current: string, objects: seq<string>)
    requires PlainText(name) && depth >= 1
    ensures ItemsFrom(KeyText(name) + u, InObject(depth, current, objects))
         == ItemsFrom(u, InObject(depth, current + KeyText(name), objects))
  {
    hide ItemsFrom;
    var colon := [':'] + u;
    var others := name + ([QUOTE] + colon);
    assert KeyText(name) + u == [QUOTE] + others;
    ItemsStep(QUOTE, others, InObject(depth, current, objects));
    assert forall i :: 0 <= i < |name| ==> PlainChar(name[i]);
    ScanPlain(name, [QUOTE] + colon, depth, true, current + [QUOTE], objects);
    var closing := Scan(depth, true, false, Some(current + [QUOTE] + name), objects);
    ItemsStep(QUOTE, colon, closing);
    ItemsStep(':', u, InObject(depth, current + [QUOTE] + name + [QUOTE], objects));
    assert current + [QUOTE] + name + [QUOTE] + [':'] == current + KeyText(name);
  }

  lemma {:induction false} ScanTokens(tokens: seq<Token>, u: string, depth: int, current: string, objects: seq<string>)
    requires TokensOk(tokens) && Inside(tokens, depth)
    ensures ItemsFrom(Render(tokens) + u, InObject(depth, current, objects))
         == ItemsFrom(u, InObject(DepthAfter(tokens, depth), current + Render(tokens), objects))
    decreases |tokens|
  {
    hide ItemsFrom, Text, TokenOk;
    if tokens == [] {
      assert Render(tokens) + u == u && current + Render(tokens) == current;
    } else {
      var token, others := tokens[0], tokens[1..];
      assert Inside(others, DepthOf(token, depth));
      assert forall i :: 0 <= i < |others| ==> others[i] == tokens[i + 1];
      assert Render(tokens) + u == Text(token) + (Render(others) + u);
      ScanToken(token, Render(others) + u, depth, current, objects);
      ScanTokens(others, u, DepthOf(token, depth), current + Text(token), objects);
      assert current + Text(token) + Render(others) == current + Render(tokens);
    }
  }

  // ---------------------------------------------------------------- balanced tokens

  /** Tokens that stay inside and come back to the depth they started from. */
  ghost predicate Balanced(tokens: seq<Token>) {
    forall depth :: depth >= 1 ==> Inside(tokens, depth) && DepthAfter(tokens, depth) == depth
  }

  lemma {:induction false} DepthBoth(a: seq<Token>, b: seq<Token>, depth: int)
    requires Inside(a, depth) && Inside(b, DepthAfter(a, depth))
    ensures Inside(a + b, depth) && DepthAfter(a + b, depth) == DepthAfter(b, DepthAfter(a, depth))
    decreases |a|
  {
    if a == [] {
      assert a + b == b;
    } else {
      assert (a + b)[0] == a[0] && (a + b)[1..] == a[1..] + b;
      DepthBoth(a[1..], b, DepthOf(a[0], depth));
    }
  }

  lemma BalancedBoth(a: seq<Token>, b: seq<Token>)
    requires Balanced(a) && Balanced(b)
    ensures Balanced(a + b)
  {
    forall depth | depth >= 1
      ensures Inside(a + b, depth) && DepthAfter(a + b, depth) == depth
    {
      DepthBoth(a, b, depth);
    }
  }

  lemma BalancedOne(token: Token)
    requires !(token.Mark? && (token.c == '{' || token.c == '}'))
    ensures Balanced([token]) && Balanced([])
  {
    assert [token][1..] == [];
  }

  function Object(inner: seq<Token>): seq<Token> {
    [Mark('{')] + inner + [Mark('}')]
  }

  lemma BraceDepth(c: char, depth: int)
    requires depth >= 1 && DepthOf(Mark(c), depth) >= 1
    ensures Inside([Mark(c)], depth) && DepthAfter([Mark(c)], depth) == DepthOf(Mark(c), depth)
  {
    var tokens: seq<Token> := [Mark(c)];
    assert tokens[1..] == [];
    assert DepthAfter(tokens, depth) == DepthAfter(tokens[1..], DepthOf(tokens[0], depth));
  }

  lemma BalancedObject(inner: seq<Token>)
    requires Balanced(inner)
    ensures Balanced(Object(inner))
  {
    forall depth | depth >= 1
      ensures Inside(Object(inner), depth) && DepthAfter(Object(inner), depth) == depth
    {
      var open, close := [Mark('{')], [Mark('}')];
      BraceDepth('{', depth);
      BraceDepth('}', depth + 1);
      assert Inside(inner, depth + 1);
      DepthBoth(open, inner, depth);
      DepthBoth(open + inner, close, depth);
    }
  }

  // ---------------------------------------------------------------- arrays of objects

  function Between(objects: seq<string>): Scan {
    SCAN_START.(objects := objects)
  }

  lemma OpenObject(u: string, objects: seq<string>)
    ensures ItemsFrom(['{'] + u, Between(objects)) == ItemsFrom(u, InObject(1, ['{'], objects))
  {
    ItemsStep('{', u, Between(objects));
  }

  lemma CloseObject(u: string, current: string, objects: seq<string>)
    ensures ItemsFrom(['}'] + u, InObject(1, current, objects))
         == ItemsFrom(u, Between(objects + [current + ['}']]))
  {
    hide ItemsFrom;
    ItemsStep('}', u, InObject(1, current, objects));
  }

  lemma SkipComma(u: string, objects: seq<string>)
    ensures ItemsFrom([','] + u, Between(objects)) == ItemsFrom(u, Between(objects))
  {
    ItemsStep(',', u, Between(objects));
  }

  lemma BalancedInside(tokens: seq<Token>)
    requires Balanced(tokens)
    ensures Inside(tokens, 1) && DepthAfter(tokens, 1) == 1
  {
  }

  /** The scan takes one object at a time, whole. */
  lemma ScanObject(inner: seq<Token>, u: string, objects: seq<string>)
    requires TokensOk(inner) && Balanced(inner)
    ensures ItemsFrom(Render(Object(inner)) + u, Between(objects))
         == ItemsFrom(u, Between(objects + [Render(Object(inner))]))
  {
    hide ItemsFrom, TokensOk, Balanced, Inside, DepthAfter, InObject, Render, Object, Between;
    var text, closing := Render(inner), ['}'] + u;
    RenderObject(inner);
    assert ['{'] + text + ['}'] + u == ['{'] + (text + closing);
    OpenObject(text + closing, objects);
    BalancedInside(inner);
    ScanTokens(inner, closing, 1, ['{'], objects);
    CloseObject(u, ['{'] + text, objects);
  }

  lemma RenderObject(inner: seq<Token>)
    ensures Render(Object(inner)) == ['{'] + Render(inner) + ['}']
  {
    RenderBoth([Mark('{')] + inner, [Mark('}')]);
    RenderBoth([Mark('{')], inner);
    RenderOne(Mark('{'));
    RenderOne(Mark('}'));
  }

  /** Token lists separated by commas. */
  function Listed(parts: seq<seq<Token>>): seq<Token> {
    if parts == [] then []
    else if |parts| == 1 then parts[0]
    else parts[0] + [Mark(',')] + Listed(parts[1..])
  }

  lemma ListedFirst(parts: seq<seq<Token>>)
    requires |parts| > 1
    ensures Render(Listed(parts)) == Render(parts[0]) + ([','] + Render(Listed(parts[1..])))
  {
    hide Render;
    var comma: seq<Token> := [Mark(',')];
    assert Listed(parts) == parts[0] + comma + Listed(parts[1..]);
    RenderBoth(parts[0] + comma, Listed(parts[1..]));
    RenderBoth(parts[0], comma);
    RenderOne(Mark(','));
    ThreeParts(Render(parts[0]), Render(comma), Render(Listed(parts[1..])));
  }

  lemma ThreeParts(a: string, b: string, c: string)
    ensures a + b + c == a + (b + c)
  {
  }

  lemma {:induction false} RenderListed(parts: seq<seq<Token>>)
    ensures Render(Listed(parts)) == Join(Map(Render, parts), ',')
  {
    if |parts| > 1 {
      RenderListed(parts[1..]);
      ListedFirst(parts);
      assert Map(Render, parts)[1..] == Map(Render, parts[1..]);
    }
  }

  function Objects(inners: seq<seq<Token>>): seq<seq<Token>> {
    Map(Object, inners)
  }

  lemma {:induction false} ScanObjects(inners: seq<seq<Token>>, u: string, objects: seq<string>)
    requires forall i :: 0 <= i < |inners| ==> TokensOk(inners[i]) && Balanced(inners[i])
    ensures ItemsFrom(Render(Listed(Objects(inners))) + ([']'] + u), Between(objects))
         == objects + Map(Render, Objects(inners))
    decreases |inners|
  {
    hide ItemsFrom, TokensOk, Balanced, Object, Render, Between, Map, Listed;
    var closing := [']'] + u;
    ListedEnds(Objects(inners));
    if inners == [] {
      NothingRendered(closing);
      StopsAtBracket(u, objects);
      assert objects + Map(Render, Objects(inners)) == objects;
    } else {
      var first, others := Render(Object(inners[0])), Objects(inners[1..]);
      var more := objects + [first];
      MapFirst(inners);
      if |inners| == 1 {
        ScanObject(inners[0], closing, objects);
        StopsAtBracket(u, more);
        assert objects + Map(Render, Objects(inners)) == more;
      } else {
        var rest := Render(Listed(others)) + closing;
        ListedFirst(Objects(inners));
        assert first + ([','] + Render(Listed(others))) + closing == first + ([','] + rest);
        ScanObject(inners[0], [','] + rest, objects);
        SkipComma(rest, more);
        ScanObjects(inners[1..], u, more);
        assert objects + ([first] + Map(Render, others)) == more + Map(Render, others);
      }
    }
  }

  lemma ListedEnds(parts: seq<seq<Token>>)
    ensures parts == [] ==> Listed(parts) == []
    ensures |parts| == 1 ==> Listed(parts) == parts[0]
  {
  }

  lemma MapFirst(inners: seq<seq<Token>>)
    requires inners != []
    ensures Objects(inners)[0] == Object(inners[0]) && Objects(inners)[1..] == Objects(inners[1..])
    ensures Map(Render, Objects(inners)) == [Render(Object(inners[0]))] + Map(Render, Objects(inners[1..]))
    ensures Objects([]) == []
  {
    hide Render, Object;
  }

  lemma NothingRendered(u: string)
    ensures Render(Listed([])) + u == u
  {
    assert [] + u == u;
  }

  lemma StopsAtBracket(u: string, objects: seq<string>)
    ensures ItemsFrom([']'] + u, Between(objects)) == objects
  {
  }

  /** The array field of some objects holds exactly their texts. */
  lemma ObjectsRead(before: seq<Token>, field: string, inners: seq<seq<Token>>, u: string)
    requires FieldName(field) && WellFormed(before) && Key(field) !in before
    requires forall i :: 0 <= i < |inners| ==> TokensOk(inners[i]) && Balanced(inners[i])
    ensures
      var found := ['['] + (Render(Listed(Objects(inners))) + ([']'] + u));
      && After(Render(before) + KeyText(field) + found, KeyText(field)) == Some(found)
      && ObjectItems(found, field) == Success(Map(Render, Objects(inners)))
  {
    hide After, KeyText, ItemsFrom, WellFormed, TokensOk, Balanced;
    var found := ['['] + (Render(Listed(Objects(inners))) + ([']'] + u));
    KeyOfTokens(before, field, found);
    SkipNothing(found);
    assert found[1..] == Render(Listed(Objects(inners))) + ([']'] + u);
    ScanObjects(inners, u, []);
    assert [] + Map(Render, Objects(inners)) == Map(Render, Objects(inners));
  }

  // ---------------------------------------------------------------- arrays of strings

  /** What an array item reads back as: `\u` escapes stay undecoded, and characters beyond ASCII
      fall into their bytes. */
  function ItemChar(c: char): (r: string)
    ensures r != []
  {
    if IsControl(c) && c != '\n' && c != '\r' && c != '\t' then ['u'] + Hex4(c as int) else BytesOf(c)
  }

  function ItemText(s: string): string {
    if s == [] then [] else ItemChar(s[0]) + ItemText(s[1..])
  }

  /** ASCII only, and no control characters but line feed, carriage return and tab. */
  predicate ItemSafe(s: string) {
    s == [] || (ItemSafeChar(s[0]) && ItemSafe(s[1..]))
  }

  predicate ItemSafeChar(c: char) {
    c as int < 128 && (IsControl(c) ==> c == '\n' || c == '\r' || c == '\t')
  }

  lemma {:induction false} ItemTextExactly(s: string)
    ensures |ItemText(s)| >= |s| && (ItemText(s) == s <==> ItemSafe(s))
    ensures !ItemSafe(s) ==> |ItemText(s)| > |s|
  {
    if s != [] {
      ItemTextExactly(s[1..]);
      assert s == [s[0]] + s[1..];
    }
  }

  lemma ArrayStep(c: char, u: string, inString: bool, current: string, items: seq<string>)
    requires c != QUOTE && c != BACKSLASH && inString
    ensures ArrayFrom([c] + u, inString, false, current, items)
         == ArrayFrom(u, inString, false, current + BytesOf(c), items)
  {
    hide BytesOf;
    assert ([c] + u)[1..] == u;
  }

  lemma {:induction false} ArrayPlain(text: string, u: string, current: string, items: seq<string>)
    requires forall i :: 0 <= i < |text| ==> text[i] != QUOTE && text[i] != BACKSLASH && text[i] as int < 128
    ensures ArrayFrom(text + u, true, false, current, items) == ArrayFrom(u, true, false, current + text, items)
  {
    hide ArrayFrom, BytesOf;
    if text == [] {
      assert text + u == u && current + text == current;
    } else {
      assert text + u == [text[0]] + (text[1..] + u);
      ArrayStep(text[0], text[1..] + u, true, current, items);
      ArrayPlain(text[1..], u, current + [text[0]], items);
      assert current + [text[0]] + text[1..] == current + text;
    }
  }

  lemma ArrayEscaped(c: char, u: string, current: string, items: seq<string>)
    ensures ArrayFrom([BACKSLASH, c] + u, true, false, current, items)
         == ArrayFrom(u, true, false, current + SimpleEscape(c), items)
  {
    var text := [BACKSLASH, c] + u;
    assert text[1..] == [c] + u && text[1..][1..] == u;
  }

  lemma ArrayEscapeChar(c: char, u: string, current: string, items: seq<string>)
    ensures ArrayFrom(EscapeChar(c) + u, true, false, current, items)
         == ArrayFrom(u, true, false, current + ItemChar(c), items)
  {
    hide ArrayFrom, Hex4, BytesOf;
    if c == QUOTE || c == BACKSLASH {
      ArrayEscaped(c, u, current, items);
    } else if c == '\n' {
      ArrayEscaped('n', u, current, items);
    } else if c == '\r' {
      ArrayEscaped('r', u, current, items);
    } else if c == '\t' {
      ArrayEscaped('t', u, current, items);
    } else if IsControl(c) {
      var hex := Hex4(c as int);
      assert EscapeChar(c) + u == [BACKSLASH, 'u'] + (hex + u);
      ArrayEscaped('u', hex + u, current, items);
      HexIsPlain(c);
      ArrayPlain(hex, u, current + ['u'], items);
      assert current + ['u'] + hex == current + ItemChar(c);
    } else {
      ArrayStep(c, u, true, current, items);
    }
  }

  lemma HexIsPlain(c: char)
    requires IsControl(c)
    ensures
      var hex := Hex4(c as int);
      forall i :: 0 <= i < |hex| ==> hex[i] != QUOTE && hex[i] != BACKSLASH && hex[i] as int < 128
  {
  }

  lemma {:induction false} ArrayEscape(s: string, u: string, current: string, items: seq<string>)
    ensures ArrayFrom(Escape(s) + u, true, false, current, items)
         == ArrayFrom(u, true, false, current + ItemText(s), items)
  {
    hide ArrayFrom, EscapeChar, ItemChar;
    if s == [] {
      assert Escape(s) + u == u && current + ItemText(s) == current;
    } else {
      assert Escape(s) + u == EscapeChar(s[0]) + (Escape(s[1..]) + u);
      ArrayEscapeChar(s[0], Escape(s[1..]) + u, current, items);
      ArrayEscape(s[1..], u, current + ItemChar(s[0]), items);
      assert current + ItemChar(s[0]) + ItemText(s[1..]) == current + ItemText(s);
    }
  }

  lemma ArrayQuoted(s: string, u: string, items: seq<string>)
    ensures ArrayFrom(Text(Quoted(s)) + u, false, false, [], items)
         == ArrayFrom(u, false, false, [], items + [ItemText(s)])
  {
    hide ArrayFrom, Escape, ItemText;
    var closing := [QUOTE] + u;
    assert Text(Quoted(s)) + u == [QUOTE] + (Escape(s) + closing);
    ArrayOpens(Escape(s) + closing, items);
    ArrayEscape(s, closing, [], items);
    assert [] + ItemText(s) == ItemText(s);
    ArrayCloses(u, ItemText(s), items);
  }

  lemma ArrayOpens(u: string, items: seq<string>)
    ensures ArrayFrom([QUOTE] + u, false, false, [], items) == ArrayFrom(u, true, false, [], items)
  {
    assert ([QUOTE] + u)[1..] == u;
  }

  lemma ArrayCloses(u: string, current: string, items: seq<string>)
    ensures ArrayFrom([QUOTE] + u, true, false, current, items) == ArrayFrom(u, false, false, [], items + [current])
  {
    assert ([QUOTE] + u)[1..] == u;
  }

  function Strings(strings: seq<string>): seq<seq<Token>> {
    Map(OneString, strings)
  }

  function OneString(s: string): seq<Token> {
    [Quoted(s)]
  }

  lemma StringsFirst(strings: seq<string>)
    requires strings != []
    ensures Strings(strings)[0] == [Quoted(strings[0])] && Strings(strings)[1..] == Strings(strings[1..])
    ensures Map(ItemText, strings) == [ItemText(strings[0])] + Map(ItemText, strings[1..])
    ensures Map(ItemText, []) == [] && Strings([]) == [] && |Strings(strings)| == |strings|
  {
    hide ItemText;
  }

  lemma {:induction false} ArrayStrings(strings: seq<string>, u: string, items: seq<string>)
    ensures ArrayFrom(Render(Listed(Strings(strings))) + ([']'] + u), false, false, [], items)
         == items + Map(ItemText, strings)
    decreases |strings|
  {
    hide ArrayFrom, Text, Render, Listed, Map, Strings, ItemText;
    var closing := [']'] + u;
    ListedEnds(Strings(strings));
    if strings == [] {
      StringsFirst([""]);
      NothingRendered(closing);
      ArrayEnds(u, items);
      assert items + [] == items;
    } else {
      var first, others := Text(Quoted(strings[0])), Strings(strings[1..]);
      var more := items + [ItemText(strings[0])];
      RenderOne(Quoted(strings[0]));
      StringsFirst(strings);
      if |strings| == 1 {
        ArrayQuoted(strings[0], closing, items);
        ArrayEnds(u, more);
        assert items + ([ItemText(strings[0])] + []) == more;
      } else {
        ListedFirst(Strings(strings));
        var rest := Render(Listed(others)) + closing;
        assert first + ([','] + Render(Listed(others))) + closing == first + ([','] + rest);
        ArrayQuoted(strings[0], [','] + rest, items);
        ArrayComma(rest, more);
        ArrayStrings(strings[1..], u, more);
        assert items + ([ItemText(strings[0])] + Map(ItemText, strings[1..])) == more + Map(ItemText, strings[1..]);
      }
    }
  }

  lemma ArrayEnds(u: string, items: seq<string>)
    ensures ArrayFrom([']'] + u, false, false, [], items) == items
  {
  }

  lemma ArrayComma(u: string, items: seq<string>)
    ensures ArrayFrom([','] + u, false, false, [], items) == ArrayFrom(u, false, false, [], items)
  {
    assert ([','] + u)[1..] == u;
  }

  /** A string array reads back as its items with `\u` escapes undecoded. */
  lemma StringsRead(before: seq<Token>, field: string, strings: seq<string>, u: string)
    requires FieldName(field) && WellFormed(before) && Key(field) !in before
    ensures
      var found := ['['] + (Render(Listed(Strings(strings))) + ([']'] + u));
      StringArray(Render(before) + KeyText(field) + found, field) == Success(Map(ItemText, strings))
  {
    hide After, KeyText, ArrayFrom, WellFormed;
    var found := ['['] + (Render(Listed(Strings(strings))) + ([']'] + u));
    KeyOfTokens(before, field, found);
    SkipNothing(found);
    assert found[1..] == Render(Listed(Strings(strings))) + ([']'] + u);
    ArrayStrings(strings, u, []);
    assert [] + Map(ItemText, strings) == Map(ItemText, strings);
  }
}
