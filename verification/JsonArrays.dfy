/** The two array scanners of the benchmark history. */
module JsonArrays {
  import opened Wrappers
  import opened JsonText

  // ---------------------------------------------------------------- arrays of strings

  /** What an escape adds. Between strings only the first byte of a character is escaped, and the
      others are passed over. */
  function Unescaped(c: char, inString: bool): string {
    if inString then SimpleEscape(c) else SimpleEscape(c)[..1]
  }

  /** The items read so far and the one being read. Unlike a string field, an item does not
      decode `\u` escapes. */
  function ArrayFrom(rest: string, inString: bool, escaped: bool, current: string, items: seq<string>): seq<string> {
    if rest == [] then items
    else
      var ch, others := rest[0], rest[1..];
      if escaped then ArrayFrom(others, inString, false, current + Unescaped(ch, inString), items)
      else if ch == BACKSLASH then ArrayFrom(others, inString, true, current, items)
      else if ch == QUOTE then
        if inString then ArrayFrom(others, false, false, [], items + [current])
        else ArrayFrom(others, true, false, current, items)
      else if ch == ']' && !inString then items
      else ArrayFrom(others, inString, false, if inString then current + BytesOf(ch) else current, items)
  }

  /** The text behind the opening bracket of an array field. */
  function ArrayText(line: string, field: string): Result<string, ReadError> {
    match After(line, KeyText(field))
    case None => Failure(MissingField(field))
    case Some(found) => OpenedArray(found, field)
  }

  function OpenedArray(found: string, field: string): Result<string, ReadError> {
    var rest := SkipWhitespace(found);
    if rest == [] || rest[0] != '[' then Failure(NotAnArray(field)) else Success(rest[1..])
  }

  function StringArray(line: string, field: string): Result<seq<string>, ReadError> {
    var rest :- ArrayText(line, field);
    Success(ArrayFrom(rest, false, false, [], []))
  }

  /** `extract_string_array`. */
  method ExtractStringArray(line: string, field: string) returns (r: Result<seq<string>, ReadError>)
    ensures r == StringArray(line, field)
  {
    hide After, ArrayFrom, Unescaped, BytesOf;
    var rest :- ArrayText(line, field);
    var idx := 0;
    var items: seq<string> := [];
    var inString, escaped := false, false;
    var current: string := [];
    assert rest[0..] == rest;
    while idx < |rest|
      invariant 0 <= idx <= |rest|
      invariant ArrayFrom(rest[idx..], inString, escaped, current, items) == ArrayFrom(rest, false, false, [], [])
    {
      ArrayFromStep(rest, idx, inString, escaped, current, items);
      var ch := rest[idx];
      if escaped {
        current := current + Unescaped(ch, inString);
        escaped := false;
      } else if ch == BACKSLASH {
        escaped := true;
      } else if ch == QUOTE {
        if inString {
          items := items + [current];
          current := [];
          inString := false;
        } else {
          inString := true;
        }
      } else if ch == ']' && !inString {
        return Success(items);
      } else if inString {
        current := current + BytesOf(ch);
      }
      idx := idx + 1;
    }
    NoMoreItems(rest[idx..], inString, escaped, current, items);
    return Success(items);
  }

  lemma ArrayFromStep(rest: string, idx: nat, inString: bool, escaped: bool, current: string, items: seq<string>)
    requires idx < |rest|
    ensures
      var ch, others := rest[idx], rest[idx + 1..];
      ArrayFrom(rest[idx..], inString, escaped, current, items) ==
        if escaped then ArrayFrom(others, inString, false, current + Unescaped(ch, inString), items)
        else if ch == BACKSLASH then ArrayFrom(others, inString, true, current, items)
        else if ch == QUOTE then
          if inString then ArrayFrom(others, false, false, [], items + [current])
          else ArrayFrom(others, true, false, current, items)
        else if ch == ']' && !inString then items
        else ArrayFrom(others, inString, false, if inString then current + BytesOf(ch) else current, items)
  {
    hide Unescaped, BytesOf;
    assert rest[idx..][1..] == rest[idx + 1..];
  }

  lemma NoMoreItems(rest: string, inString: bool, escaped: bool, current: string, items: seq<string>)
    requires rest == []
    ensures ArrayFrom(rest, inString, escaped, current, items) == items
  {
  }

  // ---------------------------------------------------------------- arrays of objects

  /** Where the scan for objects stands; `current` is the text of the object being read. */
  datatype Scan = Scan(depth: int, inString: bool, escaped: bool, current: Option<string>, objects: seq<string>)

  const SCAN_START := Scan(0, false, false, None, [])

  function Grown(current: Option<string>, ch: char): Option<string> {
    match current
    case Some(text) => Some(text + [ch])
    case None => None
  }

  /** The closing bracket of the array itself. */
  predicate Stops(scan: Scan, ch: char) {
    !scan.escaped && !scan.inString && ch == ']' && scan.depth == 0
  }

  function Next(scan: Scan, ch: char): Scan {
    var grown := scan.(current := Grown(scan.current, ch), escaped := false);
    if scan.escaped then grown
    else if ch == BACKSLASH then grown.(escaped := true)
    else if ch == QUOTE then grown.(inString := !scan.inString)
    else if scan.inString then grown
    else if ch == '{' then
      grown.(depth := scan.depth + 1, current := if scan.depth == 0 then Some([ch]) else grown.current)
    else if ch == '}' then
      if scan.depth != 1 then grown.(depth := scan.depth - 1)
      else Scan(0, false, false, None, scan.objects + Closed(grown.current))
    else grown
  }

  function Closed(current: Option<string>): seq<string> {
    match current
    case Some(text) => [text]
    case None => []
  }

  /** The objects at brace depth zero. */
  function ItemsFrom(rest: string, scan: Scan): seq<string>
    decreases |rest|
  {
    if rest == [] || Stops(scan, rest[0]) then scan.objects else ItemsFrom(rest[1..], Next(scan, rest[0]))
  }

  function ObjectItems(found: string, field: string): Result<seq<string>, ReadError> {
    var rest :- OpenedArray(found, field);
    Success(ItemsFrom(rest, SCAN_START))
  }

  /** `extract_object_array_items`. */
  method ExtractObjectArrayItems(found: string, field: string) returns (r: Result<seq<string>, ReadError>)
    ensures r == ObjectItems(found, field)
  {
    hide ItemsFrom, Current, Grown;
    var rest :- OpenedArray(found, field);
    var idx := 0;
    var objects: seq<string> := [];
    var braceDepth := 0;
    var inString, escaped := false, false;
    var objStart: Option<nat> := None;
    ghost var scan := SCAN_START;
    assert rest[0..] == rest;
    NoObjectYet(rest);
    while idx < |rest|
      invariant 0 <= idx <= |rest|
      invariant objStart.Some? ==> objStart.value < idx
      invariant scan == Scan(braceDepth, inString, escaped, Current(rest, objStart, idx), objects)
      invariant ItemsFrom(rest[idx..], scan) == ItemsFrom(rest, SCAN_START)
    {
      ItemsFromStep(rest, idx, scan);
      CurrentGrows(rest, objStart, idx);
      var ch := rest[idx];
      scan := Next(scan, ch);
      if escaped {
        escaped := false;
      } else if ch == BACKSLASH {
        escaped := true;
      } else if ch == QUOTE {
        inString := !inString;
      } else if !inString {
        if ch == '{' {
          if braceDepth == 0 {
            objStart := Some(idx);
          }
          braceDepth := braceDepth + 1;
        } else if ch == '}' {
          braceDepth := braceDepth - 1;
          if braceDepth == 0 {
            if objStart.Some? {
              objects := objects + [rest[objStart.value..idx + 1]];
            }
            objStart := None;
          }
        } else if ch == ']' && braceDepth == 0 {
          return Success(objects);
        }
      }
      idx := idx + 1;
    }
    NoMoreObjects(rest[idx..], scan);
    return Success(objects);
  }

  function Current(rest: string, objStart: Option<nat>, idx: nat): Option<string>
    requires idx <= |rest| && (objStart.Some? ==> objStart.value <= idx)
  {
    match objStart
    case Some(start) => Some(rest[start..idx])
    case None => None
  }

  lemma NoObjectYet(rest: string)
    ensures Current(rest, None, 0) == None
  {
  }

  lemma CurrentGrows(rest: string, objStart: Option<nat>, idx: nat)
    requires idx < |rest| && (objStart.Some? ==> objStart.value <= idx)
    ensures Current(rest, objStart, idx + 1) == Grown(Current(rest, objStart, idx), rest[idx])
    ensures objStart.Some? ==> Current(rest, objStart, idx + 1) == Some(rest[objStart.value..idx + 1])
    ensures Current(rest, Some(idx), idx + 1) == Some([rest[idx]])
    ensures Current(rest, None, idx + 1) == None && Current(rest, None, 0) == None
  {
    if objStart.Some? {
      assert rest[objStart.value..idx + 1] == rest[objStart.value..idx] + [rest[idx]];
    }
    assert rest[idx..idx + 1] == [rest[idx]];
  }

  lemma ItemsFromStep(rest: string, idx: nat, scan: Scan)
    requires idx < |rest|
    ensures ItemsFrom(rest[idx..], scan) ==
        if Stops(scan, rest[idx]) then scan.objects else ItemsFrom(rest[idx + 1..], Next(scan, rest[idx]))
  {
    assert rest[idx..][1..] == rest[idx + 1..];
  }

  lemma NoMoreObjects(rest: string, scan: Scan)
    requires rest == []
    ensures ItemsFrom(rest, scan) == scan.objects
  {
  }
}
