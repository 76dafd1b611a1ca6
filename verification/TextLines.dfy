/** Splitting, joining and trimming text, as the Rust standard library does. */
module TextLines {
  import opened Wrappers
  import opened Sorting

  // ---------------------------------------------------------------- order

  predicate CharLeq(a: char, b: char) {
    a <= b
  }

  /** `Ord` of `str`: UTF-8 bytes compare as code points do. */
  predicate TextLeq(a: string, b: string) {
    LexLeq(CharLeq, a, b)
  }

  lemma TextLinear()
    ensures LinearOrder(TextLeq)
  {
    LexIsLinear(CharLeq);
    var lex := (a: string, b: string) => LexLeq(CharLeq, a, b);
    assert forall a, b :: TextLeq(a, b) == lex(a, b);
  }

  /** A proper prefix, or the smaller character at the first place where the two differ. */
  ghost predicate TextBefore(a: string, b: string) {
    exists k :: 0 <= k <= |a| && k < |b| && a[..k] == b[..k] && (k == |a| || a[k] < b[k])
  }

  lemma LeqIsBefore(a: string, b: string)
    requires TextLeq(a, b) && a != b
    ensures TextBefore(a, b)
  {
    var k := LexByPosition(CharLeq, a, b);
    assert a[..k] == b[..k];
  }

  /** Texts with equally long beginnings compare by those first. */
  lemma {:induction false} LexOfConcat(a: string, b: string, c: string, d: string)
    requires |a| == |b|
    ensures TextLeq(a + c, b + d) <==> if a == b then TextLeq(c, d) else TextLeq(a, b)
  {
    if a == [] {
      assert a + c == c && b + d == d;
    } else {
      assert (a + c)[1..] == a[1..] + c && (b + d)[1..] == b[1..] + d;
      assert a == [a[0]] + a[1..] && b == [b[0]] + b[1..];
      LexOfConcat(a[1..], b[1..], c, d);
    }
  }

  // ---------------------------------------------------------------- split and join

  /** The parts between separators; always at least one. */
  function Split(s: string, separator: char): (r: seq<string>)
    ensures |r| >= 1
    ensures forall i :: 0 <= i < |r| ==> separator !in r[i]
  {
    if s == [] then [[]]
    else
      var others := Split(s[1..], separator);
      if s[0] == separator then [[]] + others
      else [[s[0]] + others[0]] + others[1..]
  }

  lemma {:induction false} SplitCharacters(s: string, separator: char, c: char)
    requires c !in s
    ensures forall i :: 0 <= i < |Split(s, separator)| ==> c !in Split(s, separator)[i]
  {
    if s != [] {
      SplitCharacters(s[1..], separator, c);
    }
  }

  function Join(parts: seq<string>, separator: char): string {
    if parts == [] then []
    else if |parts| == 1 then parts[0]
    else parts[0] + [separator] + Join(parts[1..], separator)
  }

  lemma {:induction false} SplitAppend(a: string, separator: char, b: string)
    ensures Split(a + [separator] + b, separator) == Split(a, separator) + Split(b, separator)
  {
    if a == [] {
      assert (a + [separator] + b)[1..] == b;
    } else {
      assert (a + [separator] + b)[1..] == a[1..] + [separator] + b;
      SplitAppend(a[1..], separator, b);
    }
  }

  lemma {:induction false} SplitWhole(s: string, separator: char)
    requires separator !in s
    ensures Split(s, separator) == [s]
  {
    if s != [] {
      SplitWhole(s[1..], separator);
      assert [s[0]] + s[1..] == s;
    }
  }

  /** Splitting undoes joining when no part holds the separator. */
  lemma {:induction false} SplitJoin(parts: seq<string>, separator: char)
    requires parts != [] && forall i :: 0 <= i < |parts| ==> separator !in parts[i]
    ensures Split(Join(parts, separator), separator) == parts
  {
    SplitWhole(parts[0], separator);
    if |parts| > 1 {
      SplitJoin(parts[1..], separator);
      SplitAppend(parts[0], separator, Join(parts[1..], separator));
    }
  }

  lemma {:induction false} JoinSplit(s: string, separator: char)
    ensures Join(Split(s, separator), separator) == s
  {
    if s != [] {
      JoinSplit(s[1..], separator);
      var others := Split(s[1..], separator);
      if s[0] == separator {
        assert ([[]] + others)[1..] == others;
      } else {
        var all := [[s[0]] + others[0]] + others[1..];
        assert all[1..] == others[1..];
      }
    }
  }

  lemma {:induction false} JoinAppend(first: seq<string>, second: seq<string>, separator: char)
    requires first != [] && second != []
    ensures Join(first + second, separator) == Join(first, separator) + [separator] + Join(second, separator)
  {
    if |first| > 1 {
      assert (first + second)[1..] == first[1..] + second;
      JoinAppend(first[1..], second, separator);
    } else {
      assert (first + second)[1..] == second;
    }
  }

  // ---------------------------------------------------------------- trim

  /** `char::is_whitespace`: the Unicode White_Space property. */
  predicate IsWhitespace(c: char) {
    var code := c as int;
    || 0x09 <= code <= 0x0D || code == 0x20 || code == 0x85 || code == 0xA0 || code == 0x1680
    || 0x2000 <= code <= 0x200A || code == 0x2028 || code == 0x2029 || code == 0x202F || code == 0x205F
    || code == 0x3000
  }

  /** Text that trimming leaves alone. */
  predicate Trimmed(s: string) {
    s == [] || (!IsWhitespace(s[0]) && !IsWhitespace(s[|s| - 1]))
  }

  function TrimStart(s: string): (r: string)
    ensures r == [] || !IsWhitespace(r[0])
    ensures |r| <= |s| && r == s[|s| - |r|..]
  {
    if s != [] && IsWhitespace(s[0]) then TrimStart(s[1..]) else s
  }

  function TrimEnd(s: string): (r: string)
    ensures r == [] || !IsWhitespace(r[|r| - 1])
    ensures |r| <= |s| && r == s[..|r|]
  {
    if s != [] && IsWhitespace(s[|s| - 1]) then TrimEnd(s[..|s| - 1]) else s
  }

  function Trim(s: string): (r: string)
    ensures Trimmed(r) && (Trimmed(s) <==> r == s)
    ensures !Trimmed(s) ==> |r| < |s|
    ensures forall c :: c in r ==> c in s
  {
    TrimEnd(TrimStart(s))
  }

  // ---------------------------------------------------------------- lines

  /** A text that is one trimmed line. */
  predicate OneLine(s: string) {
    s != [] && Trimmed(s) && '\n' !in s
  }

  predicate AllOneLines(lines: seq<string>) {
    forall i :: 0 <= i < |lines| ==> OneLine(lines[i])
  }

  /** The parts that are not blank, trimmed. */
  function TrimmedParts(parts: seq<string>): (r: seq<string>)
    requires forall i :: 0 <= i < |parts| ==> '\n' !in parts[i]
    ensures AllOneLines(r)
  {
    if parts == [] then []
    else (if Trim(parts[0]) == [] then [] else [Trim(parts[0])]) + TrimmedParts(parts[1..])
  }

  lemma AddedInFront(first: seq<string>, a: seq<string>, b: seq<string>)
    ensures first + (a + b) == first + a + b
  {
  }

  lemma {:induction false} TrimmedPartsOfBoth(a: seq<string>, b: seq<string>)
    requires forall i :: 0 <= i < |a| ==> '\n' !in a[i]
    requires forall i :: 0 <= i < |b| ==> '\n' !in b[i]
    ensures TrimmedParts(a + b) == TrimmedParts(a) + TrimmedParts(b)
  {
    hide Trim, OneLine;
    if a == [] {
      assert a + b == b;
    } else {
      assert (a + b)[0] == a[0] && (a + b)[1..] == a[1..] + b;
      TrimmedPartsOfBoth(a[1..], b);
      var first := if Trim(a[0]) == [] then [] else [Trim(a[0])];
      AddedInFront(first, TrimmedParts(a[1..]), TrimmedParts(b));
    }
  }

  /** The trimmed lines of a text that are not empty. `lines` also drops a carriage return
      before a line feed; trimming does that anyway. */
  function TrimmedLines(content: string): (r: seq<string>)
    ensures AllOneLines(r)
  {
    TrimmedParts(Split(content, '\n'))
  }

  lemma TrimmedLinesAppend(a: string, b: string)
    ensures TrimmedLines(a + ['\n'] + b) == TrimmedLines(a) + TrimmedLines(b)
  {
    SplitAppend(a, '\n', b);
    TrimmedPartsOfBoth(Split(a, '\n'), Split(b, '\n'));
  }

  /** Text without line feeds is one line, unless it is blank. */
  lemma LinesOfOnePart(s: string)
    requires '\n' !in s
    ensures TrimmedLines(s) == if Trim(s) == [] then [] else [Trim(s)]
  {
    hide Trim;
    SplitWhole(s, '\n');
    assert [s][1..] == [] && TrimmedParts([]) == [];
    assert [Trim(s)] + [] == [Trim(s)];
  }

  lemma OneLineStays(s: string)
    requires OneLine(s)
    ensures TrimmedLines(s) == [s]
  {
    LinesOfOnePart(s);
  }

  function LinesOfAll(parts: seq<string>): (r: seq<string>)
    ensures AllOneLines(r)
  {
    if parts == [] then [] else TrimmedLines(parts[0]) + LinesOfAll(parts[1..])
  }

  lemma {:induction false} LinesOfJoin(parts: seq<string>)
    requires parts != []
    ensures TrimmedLines(Join(parts, '\n')) == LinesOfAll(parts)
  {
    if |parts| > 1 {
      LinesOfJoin(parts[1..]);
      TrimmedLinesAppend(parts[0], Join(parts[1..], '\n'));
    } else {
      assert LinesOfAll(parts[1..]) == [];
    }
  }

  lemma {:induction false} OneLinesStay(parts: seq<string>)
    requires AllOneLines(parts)
    ensures LinesOfAll(parts) == parts
  {
    if parts != [] {
      OneLineStays(parts[0]);
      OneLinesStay(parts[1..]);
    }
  }

  function StripPrefix(s: string, prefix: string): Option<string> {
    if prefix <= s then Some(s[|prefix|..]) else None
  }

  function AsciiLower(s: string): (r: string)
    ensures |r| == |s|
  {
    Map(AsciiLowerChar, s)
  }

  function AsciiLowerChar(c: char): char {
    if 'A' <= c <= 'Z' then (c as int + 32) as char else c
  }
}
