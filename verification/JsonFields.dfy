/** Objects as lists of named fields, and how a reader finds each of them. */
module JsonFields {
  import opened Wrappers
  import opened Sorting
  import opened JsonText
  import opened JsonArrays
  import opened JsonTokens
  import opened JsonObjects

  datatype Field = Field(name: string, value: seq<Token>)

  function FieldTokens(f: Field): seq<Token> {
    [Key(f.name)] + f.value
  }

  /** `{"name":value,...}`. */
  function FieldsInner(fields: seq<Field>): seq<Token> {
    Listed(Map(FieldTokens, fields))
  }

  function FieldsText(fields: seq<Field>): string {
    Render(Object(FieldsInner(fields)))
  }

  ghost predicate FieldOk(f: Field) {
    FieldName(f.name) && f.value != [] && WellFormed(f.value + [Mark(',')]) && Balanced(f.value)
  }

  ghost predicate FieldsOk(fields: seq<Field>) {
    forall i :: 0 <= i < |fields| ==> FieldOk(fields[i])
  }

  // ---------------------------------------------------------------- well-formed objects

  lemma {:induction false} AnyEnd(tokens: seq<Token>, a: Token, b: Token)
    requires WellFormed(tokens + [a])
    requires a.Mark? && b.Mark? && EndsValue(a.c) && EndsValue(b.c) && TokenOk(b)
    ensures WellFormed(tokens + [b])
  {
    if tokens == [] {
      assert [] + [b] == [b] && [b][1..] == [];
    } else {
      assert (tokens + [a])[1..] == tokens[1..] + [a] && (tokens + [b])[1..] == tokens[1..] + [b];
      AnyEnd(tokens[1..], a, b);
      if tokens[1..] == [] {
        assert tokens[1..] + [a] == [a] && tokens[1..] + [b] == [b];
      }
    }
  }

  lemma FieldTokensOk(f: Field)
    requires FieldOk(f)
    ensures WellFormed(FieldTokens(f) + [Mark(',')]) && Balanced(FieldTokens(f))
  {
    hide Balanced;
    var tokens := FieldTokens(f) + [Mark(',')];
    assert tokens[1..] == f.value + [Mark(',')] && tokens[0] == Key(f.name);
    BalancedOne(Key(f.name));
    BalancedBoth([Key(f.name)], f.value);
  }

  lemma {:induction false} ListedOk(parts: seq<seq<Token>>, closing: Token)
    requires forall i :: 0 <= i < |parts| ==> WellFormed(parts[i] + [Mark(',')]) && Balanced(parts[i])
    requires closing.Mark? && EndsValue(closing.c)
    ensures WellFormed(Listed(parts) + [closing]) && Balanced(Listed(parts))
  {
    hide WellFormed, Balanced;
    BalancedOne(Mark(','));
    if parts == [] {
      ClosingOk(closing);
      assert Listed(parts) + [closing] == [closing];
    } else if |parts| == 1 {
      AnyEnd(parts[0], Mark(','), closing);
    } else {
      ListedOk(parts[1..], closing);
      var first, others := parts[0] + [Mark(',')], Listed(parts[1..]);
      WellFormedBoth(first, others + [closing]);
      assert Listed(parts) + [closing] == first + (others + [closing]);
      BalancedBoth(parts[0], [Mark(',')]);
      BalancedBoth(first, others);
    }
  }

  lemma ClosingOk(closing: Token)
    requires closing.Mark? && EndsValue(closing.c)
    ensures WellFormed([closing])
  {
    assert [closing][1..] == [];
  }

  lemma InnerOk(fields: seq<Field>)
    requires FieldsOk(fields)
    ensures WellFormed(FieldsInner(fields) + [Mark('}')]) && Balanced(FieldsInner(fields))
  {
    hide WellFormed, Balanced, FieldOk;
    forall i | 0 <= i < |fields|
      ensures WellFormed(FieldTokens(fields[i]) + [Mark(',')]) && Balanced(FieldTokens(fields[i]))
    {
      FieldTokensOk(fields[i]);
    }
    ListedOk(Map(FieldTokens, fields), Mark('}'));
  }

  lemma FieldsObjectOk(fields: seq<Field>)
    requires FieldsOk(fields)
    ensures TokensOk(FieldsInner(fields)) && Balanced(FieldsInner(fields))
  {
    hide Balanced, TokenOk, FieldsOk;
    InnerOk(fields);
    var inner := FieldsInner(fields);
    WellFormedTokens(inner + [Mark('}')]);
    assert forall i :: 0 <= i < |inner| ==> (inner + [Mark('}')])[i] == inner[i];
  }

  // ---------------------------------------------------------------- finding a field

  /** The tokens in front of a field. */
  function FieldsBefore(fields: seq<Field>, i: nat): seq<Token>
    requires i <= |fields|
  {
    if i == 0 then [] else FieldsBefore(fields, i - 1) + (FieldTokens(fields[i - 1]) + [Mark(',')])
  }

  /** The text behind a field's value. */
  function Behind(fields: seq<Field>, i: nat): (r: string)
    requires i < |fields|
    ensures r != [] && EndsValue(r[0])
  {
    if i == |fields| - 1 then ['}'] else [','] + (Render(FieldsInner(fields[i + 1..])) + ['}'])
  }

  lemma InnerFrom(fields: seq<Field>, i: nat)
    requires i < |fields|
    ensures Render(FieldsInner(fields[i..])) + ['}'] == Render(FieldTokens(fields[i])) + Behind(fields, i)
  {
    hide Render, FieldTokens;
    var parts := Map(FieldTokens, fields[i..]);
    assert parts[0] == FieldTokens(fields[i]);
    if i == |fields| - 1 {
      ListedEnds(parts);
    } else {
      ListedFirst(parts);
      assert parts[1..] == Map(FieldTokens, fields[i + 1..]);
    }
  }

  lemma BehindStep(fields: seq<Field>, i: nat)
    requires 0 < i < |fields|
    ensures Behind(fields, i - 1) == [','] + (Render(FieldTokens(fields[i])) + Behind(fields, i))
  {
    hide FieldTokens, FieldsInner, Render;
    InnerFrom(fields, i);
  }

  lemma {:induction false} SplitAt(fields: seq<Field>, i: nat)
    requires i < |fields|
    ensures FieldsText(fields)
         == ['{'] + (Render(FieldsBefore(fields, i)) + (Render(FieldTokens(fields[i])) + Behind(fields, i)))
    decreases i
  {
    hide FieldTokens, FieldsInner, Behind, Render, Object;
    if i == 0 {
      assert fields[0..] == fields;
      InnerFrom(fields, 0);
      RenderObject(FieldsInner(fields));
      FirstSplit(Render(FieldTokens(fields[0])) + Behind(fields, 0), Render(FieldsInner(fields)));
    } else {
      SplitAt(fields, i - 1);
      BehindStep(fields, i);
      BeforeGrows(fields, i);
      NextSplit(
        Render(FieldsBefore(fields, i - 1)), Render(FieldTokens(fields[i - 1])),
        Render(FieldTokens(fields[i])) + Behind(fields, i));
    }
  }

  lemma FirstSplit(text: string, inner: string)
    requires inner + ['}'] == text
    ensures ['{'] + inner + ['}'] == ['{'] + (Render([]) + text)
  {
    assert ['{'] + inner + ['}'] == ['{'] + (inner + ['}']);
  }

  lemma NextSplit(a: string, b: string, c: string)
    ensures ['{'] + (a + (b + ([','] + c))) == ['{'] + ((a + (b + [','])) + c)
  {
  }

  lemma BeforeGrows(fields: seq<Field>, i: nat)
    requires 0 < i <= |fields|
    ensures Render(FieldsBefore(fields, i))
         == Render(FieldsBefore(fields, i - 1)) + (Render(FieldTokens(fields[i - 1])) + [','])
  {
    hide FieldTokens;
    RenderBoth(FieldsBefore(fields, i - 1), FieldTokens(fields[i - 1]) + [Mark(',')]);
    RenderBoth(FieldTokens(fields[i - 1]), [Mark(',')]);
    RenderOne(Mark(','));
  }

  /** No earlier field, nor anything inside one, has this name. */
  ghost predicate FirstOfName(fields: seq<Field>, i: nat)
    requires i < |fields|
  {
    forall j :: 0 <= j < i ==> fields[j].name != fields[i].name && Key(fields[i].name) !in fields[j].value
  }

  lemma {:induction false} BeforeOk(fields: seq<Field>, i: nat, name: string)
    requires FieldsOk(fields) && i <= |fields|
    requires forall j :: 0 <= j < i ==> fields[j].name != name && Key(name) !in fields[j].value
    ensures WellFormed(FieldsBefore(fields, i)) && Key(name) !in FieldsBefore(fields, i)
    decreases i
  {
    hide WellFormed, Balanced;
    if i == 0 {
      NothingOk();
    } else {
      BeforeOk(fields, i - 1, name);
      FieldTokensOk(fields[i - 1]);
      WellFormedBoth(FieldsBefore(fields, i - 1), FieldTokens(fields[i - 1]) + [Mark(',')]);
    }
  }

  lemma NothingOk()
    ensures WellFormed([])
  {
  }

  /** Where a reader looking for a field ends up: at that field's own value. */
  lemma FieldAt(fields: seq<Field>, i: nat) returns (before: seq<Token>)
    requires FieldsOk(fields) && i < |fields| && FirstOfName(fields, i)
    ensures WellFormed(before) && Key(fields[i].name) !in before && FieldName(fields[i].name)
    ensures FieldsText(fields)
         == Render(before) + KeyText(fields[i].name) + (Render(fields[i].value) + Behind(fields, i))
  {
    hide WellFormed, Balanced, FieldsText, KeyText, Render;
    var f := fields[i];
    assert FieldOk(f);
    before := [Mark('{')] + FieldsBefore(fields, i);
    BeforeOk(fields, i, f.name);
    OpeningOk();
    WellFormedBoth([Mark('{')], FieldsBefore(fields, i));
    SplitAt(fields, i);
    RenderBoth([Mark('{')], FieldsBefore(fields, i));
    RenderOne(Mark('{'));
    RenderBoth([Key(f.name)], f.value);
    RenderOne(Key(f.name));
    FourParts(Render(FieldsBefore(fields, i)), KeyText(f.name), Render(f.value), Behind(fields, i));
  }

  lemma OpeningOk()
    ensures WellFormed([Mark('{')])
  {
    assert [Mark('{')][1..] == [];
  }

  lemma FourParts(a: string, b: string, c: string, d: string)
    ensures ['{'] + (a + ((b + c) + d)) == ['{'] + a + b + (c + d)
  {
  }

  // ---------------------------------------------------------------- reading a field

  function TextValue(s: string): seq<Token> {
    [Quoted(s)]
  }

  function BareValue(text: string): seq<Token> {
    [Bare(text)]
  }

  function ArrayValue(parts: seq<seq<Token>>): seq<Token> {
    [Mark('[')] + Listed(parts) + [Mark(']')]
  }

  lemma ReadText(fields: seq<Field>, i: nat, s: string)
    requires FieldsOk(fields) && i < |fields| && FirstOfName(fields, i)
    requires fields[i].value == TextValue(s)
    ensures StringField(FieldsText(fields), fields[i].name) == Success(Some(FieldText(s)))
  {
    hide StringField, FieldsText, WellFormed, Balanced, FirstOfName, FieldsOk, Text, FieldText;
    var before := FieldAt(fields, i);
    RenderOne(Quoted(s));
    StringFieldReads(before, fields[i].name, s, Behind(fields, i));
  }

  lemma ReadBare(fields: seq<Field>, i: nat, text: string)
    requires FieldsOk(fields) && i < |fields| && FirstOfName(fields, i)
    requires fields[i].value == BareValue(text) && PlainText(text)
    ensures RawField(FieldsText(fields), fields[i].name) == Some(text)
    ensures StringField(FieldsText(fields), fields[i].name) == Success(None)
  {
    hide StringField, RawField, FieldsText, WellFormed, Balanced, FirstOfName, FieldsOk;
    var before := FieldAt(fields, i);
    RenderOne(Bare(text));
    RawFieldReads(before, fields[i].name, text, Behind(fields, i));
  }

  lemma RenderArray(parts: seq<seq<Token>>, u: string)
    ensures Render(ArrayValue(parts)) + u == ['['] + (Render(Listed(parts)) + ([']'] + u))
  {
    hide Listed;
    RenderBoth([Mark('[')] + Listed(parts), [Mark(']')]);
    RenderBoth([Mark('[')], Listed(parts));
    RenderOne(Mark('['));
    RenderOne(Mark(']'));
    ArrayParts(Render(Listed(parts)), u);
  }

  lemma ArrayParts(a: string, u: string)
    ensures ['['] + a + [']'] + u == ['['] + (a + ([']'] + u))
  {
  }

  /** What follows an array field's key reads back as the objects that were written. */
  lemma ReadObjects(fields: seq<Field>, i: nat, inners: seq<seq<Token>>) returns (found: string)
    requires FieldsOk(fields) && i < |fields| && FirstOfName(fields, i)
    requires fields[i].value == ArrayValue(Objects(inners))
    requires forall j :: 0 <= j < |inners| ==> TokensOk(inners[j]) && Balanced(inners[j])
    ensures After(FieldsText(fields), KeyText(fields[i].name)) == Some(found)
    ensures ObjectItems(found, fields[i].name) == Success(Map(Render, Objects(inners)))
  {
    hide FieldsText, WellFormed, Balanced, TokensOk, FirstOfName, FieldsOk, After, KeyText, ObjectItems;
    var before := FieldAt(fields, i);
    RenderArray(Objects(inners), Behind(fields, i));
    ObjectsRead(before, fields[i].name, inners, Behind(fields, i));
    found := Render(fields[i].value) + Behind(fields, i);
  }

  lemma ReadStrings(fields: seq<Field>, i: nat, strings: seq<string>)
    requires FieldsOk(fields) && i < |fields| && FirstOfName(fields, i)
    requires fields[i].value == ArrayValue(Strings(strings))
    ensures StringArray(FieldsText(fields), fields[i].name) == Success(Map(ItemText, strings))
  {
    hide FieldsText, WellFormed, Balanced, FirstOfName, FieldsOk, After, KeyText, StringArray, Strings;
    var before := FieldAt(fields, i);
    RenderArray(Strings(strings), Behind(fields, i));
    StringsRead(before, fields[i].name, strings, Behind(fields, i));
  }

  // ---------------------------------------------------------------- well-formed fields

  lemma TextOk(s: string)
    ensures WellFormed(TextValue(s) + [Mark(',')]) && Balanced(TextValue(s))
  {
    var tokens := TextValue(s) + [Mark(',')];
    assert tokens[1..] == [Mark(',')];
    ClosingOk(Mark(','));
    BalancedOne(Quoted(s));
  }

  lemma BareOk(text: string)
    requires PlainText(text)
    ensures WellFormed(BareValue(text) + [Mark(',')]) && Balanced(BareValue(text))
  {
    hide PlainText;
    var tokens := BareValue(text) + [Mark(',')];
    assert tokens[1..] == [Mark(',')];
    ClosingOk(Mark(','));
    BalancedOne(Bare(text));
  }

  lemma ArrayOk(parts: seq<seq<Token>>)
    requires forall i :: 0 <= i < |parts| ==> WellFormed(parts[i] + [Mark(',')]) && Balanced(parts[i])
    ensures WellFormed(ArrayValue(parts) + [Mark(',')]) && Balanced(ArrayValue(parts))
  {
    hide WellFormed, Balanced;
    ListedOk(parts, Mark(']'));
    BracketOk();
    ClosingOk(Mark(','));
    WellFormedBoth([Mark('[')], Listed(parts) + [Mark(']')]);
    WellFormedBoth([Mark('[')] + (Listed(parts) + [Mark(']')]), [Mark(',')]);
    assert ArrayValue(parts) == [Mark('[')] + (Listed(parts) + [Mark(']')]);
    BalancedOne(Mark('['));
    BalancedOne(Mark(']'));
    BalancedBoth([Mark('[')], Listed(parts));
    BalancedBoth([Mark('[')] + Listed(parts), [Mark(']')]);
  }

  lemma BracketOk()
    ensures WellFormed([Mark('[')])
  {
    assert [Mark('[')][1..] == [];
  }

  lemma ObjectOk(fields: seq<Field>)
    requires FieldsOk(fields)
    ensures WellFormed(Object(FieldsInner(fields)) + [Mark(',')]) && Balanced(Object(FieldsInner(fields)))
  {
    hide WellFormed, Balanced;
    var inner := FieldsInner(fields);
    InnerOk(fields);
    OpeningOk();
    ClosingOk(Mark(','));
    WellFormedBoth([Mark('{')], inner + [Mark('}')]);
    WellFormedBoth([Mark('{')] + (inner + [Mark('}')]), [Mark(',')]);
    assert Object(inner) == [Mark('{')] + (inner + [Mark('}')]);
    BalancedObject(inner);
  }

  lemma StringsOk(strings: seq<string>)
    ensures WellFormed(ArrayValue(Strings(strings)) + [Mark(',')]) && Balanced(ArrayValue(Strings(strings)))
  {
    hide WellFormed, Balanced;
    forall i | 0 <= i < |strings|
      ensures WellFormed(Strings(strings)[i] + [Mark(',')]) && Balanced(Strings(strings)[i])
    {
      TextOk(strings[i]);
    }
    ArrayOk(Strings(strings));
  }

  // ---------------------------------------------------------------- names inside values

  lemma {:induction false} KeysOfListed(parts: seq<seq<Token>>, name: string)
    requires forall i :: 0 <= i < |parts| ==> Key(name) !in parts[i]
    ensures Key(name) !in Listed(parts) && Key(name) !in ArrayValue(parts)
  {
    if |parts| > 1 {
      KeysOfListed(parts[1..], name);
    }
  }

  lemma KeysOfObject(fields: seq<Field>, name: string)
    requires forall i :: 0 <= i < |fields| ==> fields[i].name != name && Key(name) !in fields[i].value
    ensures Key(name) !in Object(FieldsInner(fields))
  {
    KeysOfListed(Map(FieldTokens, fields), name);
  }

  lemma KeysOfStrings(strings: seq<string>, name: string)
    ensures Key(name) !in ArrayValue(Strings(strings))
  {
    KeysOfListed(Strings(strings), name);
  }
}
