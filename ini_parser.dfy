/**
 * The INI configuration parser: trimming, `key = value` fields, section
 * headers, the line splitter and the cursor-driven section loop.
 *
 * Exceptions the parser throws are `Err` values. A field line whose parse
 * throws is dropped (the section loop catches it); a bad section header
 * propagates out of `ini_parse`. The `ini_parse` loop that never ends is the
 * outcome `Diverges`.
 */
module IniParser {
  import opened Wrappers
  import opened StdString

  // ---------------------------------------------------------------------------
  // Trimming
  // ---------------------------------------------------------------------------

  /**
   * The characters `trim` removes: " \t\n\r\f\v", that is, the space and
   * the five control characters from tab (9) to carriage return (13).
   */
  const TrimChars: set<char> := set c: char | c == ' ' || '\t' <= c <= '\r'

  /** The list above, character by character. */
  lemma TrimCharsListed()
    ensures TrimChars == {' ', '\t', '\n', 11 as char, 12 as char, '\r'}
  {
    assert '\t' as int == 9 && '\r' as int == 13;
  }

  /** Reference definition of `rtrim`: drop trailing trim characters one at a time. */
  function TrimRight(s: string): (r: string)
    ensures |r| <= |s|
  {
    if |s| > 0 && s[|s| - 1] in TrimChars then TrimRight(s[..|s| - 1]) else s
  }

  /** `rtrim` keeps a prefix, drops only trim characters, and leaves none at the end. */
  lemma {:induction false} TrimRightFacts(s: string)
    ensures var r := TrimRight(s);
            r == s[..|r|]
            && (forall k :: |r| <= k < |s| ==> s[k] in TrimChars)
            && (r == [] || r[|r| - 1] !in TrimChars)
  {
    if |s| > 0 && s[|s| - 1] in TrimChars {
      var s' := s[..|s| - 1];
      TrimRightFacts(s');
      var r := TrimRight(s');
      assert s'[..|r|] == s[..|r|];
      assert forall k :: |r| <= k < |s'| ==> s'[k] == s[k];
    }
  }

  /** Reference definition of `ltrim`: drop leading trim characters one at a time. */
  function TrimLeft(s: string): (r: string)
    ensures |r| <= |s|
  {
    if |s| > 0 && s[0] in TrimChars then TrimLeft(s[1..]) else s
  }

  /** `ltrim` keeps a suffix, drops only trim characters, and leaves none at the start. */
  lemma {:induction false} TrimLeftFacts(s: string)
    ensures var r := TrimLeft(s);
            r == s[|s| - |r|..]
            && (forall k :: 0 <= k < |s| - |r| ==> s[k] in TrimChars)
            && (r == [] || r[0] !in TrimChars)
  {
    if |s| > 0 && s[0] in TrimChars {
      var s' := s[1..];
      TrimLeftFacts(s');
      var r := TrimLeft(s');
      assert s'[|s'| - |r|..] == s[|s| - |r|..];
      assert forall k :: 0 <= k < |s'| - |r| ==> s'[k] == s[k + 1];
    }
  }

  /** `trim`: right then left. */
  function Trimmed(s: string): string {
    TrimLeft(TrimRight(s))
  }

  /** `rtrim`: `s.erase(s.find_last_not_of(ws) + 1)`, where `npos + 1` wraps to 0. */
  function RTrim(s: string): (r: string)
    ensures |r| <= |s|
  {
    match FindLastNotOf(s, TrimChars)
    case None => []
    case Some(p) => s[..p + 1]
  }

  /** `ltrim`: `s.erase(0, s.find_first_not_of(ws))`, where erasing `npos` characters empties `s`. */
  function LTrim(s: string): (r: string)
    ensures |r| <= |s|
  {
    match FindFirstNotOf(s, TrimChars, 0)
    case None => []
    case Some(p) => s[p..]
  }

  /** `trim`: erase the trailing, then the leading, trim characters. */
  function Trim(s: string): string {
    LTrim(RTrim(s))
  }

  /** `trim` as the source writes it is the one-character-at-a-time reference definition. */
  lemma TrimIsTrimmed(s: string)
    ensures Trim(s) == Trimmed(s)
  {
    RTrimIsTrimRight(s, |s|);
    assert s[..|s|] == s;
    var u := RTrim(s);
    LTrimIsTrimLeft(u, 0);
    assert u[0..] == u;
  }

  lemma {:induction false} RTrimIsTrimRight(s: string, n: nat)
    requires n <= |s|
    ensures var last := LastNotOfBelow(s, TrimChars, n);
            TrimRight(s[..n]) == s[..if last.Some? then last.value + 1 else 0]
    decreases n
  {
    if n > 0 && s[n - 1] in TrimChars {
      assert s[..n][..n - 1] == s[..n - 1];
      RTrimIsTrimRight(s, n - 1);
    }
  }

  lemma {:induction false} LTrimIsTrimLeft(s: string, i: nat)
    requires i <= |s|
    ensures var first := FindFirstNotOf(s, TrimChars, i);
            TrimLeft(s[i..]) == s[if first.Some? then first.value else |s|..]
    decreases |s| - i
  {
    if i < |s| && s[i] in TrimChars {
      assert s[i..][1..] == s[i + 1..];
      LTrimIsTrimLeft(s, i + 1);
    }
  }

  /** A string with no trim character at either end is its own trim. */
  lemma TrimKeeps(s: string)
    requires s == [] || (s[0] !in TrimChars && s[|s| - 1] !in TrimChars)
    ensures Trim(s) == s
  {
    if s != [] {
      assert s[..|s| - 1 + 1] == s;
      assert s[0..] == s;
    }
  }

  /**
   * What `trim` promises: the result is a contiguous slice of the input, every
   * character outside the slice is a trim character, and neither end of the
   * result is one.
   */
  lemma TrimmedSlice(s: string)
    ensures var t := Trimmed(s); var a := |TrimRight(s)| - |t|;
            0 <= a && a + |t| <= |s| && t == s[a..a + |t|]
            && (forall k :: 0 <= k < a ==> s[k] in TrimChars)
            && (forall k :: a + |t| <= k < |s| ==> s[k] in TrimChars)
            && (t == [] || (t[0] !in TrimChars && t[|t| - 1] !in TrimChars))
  {
    TrimRightFacts(s);
    TrimmedIsSlice(s);
    TrimmedDropsLeft(s);
    TrimmedEnds(s);
  }

  lemma TrimmedIsSlice(s: string)
    ensures var t := Trimmed(s); var a := |TrimRight(s)| - |t|;
            0 <= a && a + |t| <= |s| && t == s[a..a + |t|]
  {
    TrimRightFacts(s);
    var u := TrimRight(s);
    TrimLeftFacts(u);
  }

  lemma TrimmedDropsLeft(s: string)
    ensures var a := |TrimRight(s)| - |Trimmed(s)|;
            forall k :: 0 <= k < a ==> s[k] in TrimChars
  {
    TrimRightFacts(s);
    var u := TrimRight(s);
    TrimLeftFacts(u);
    var a := |u| - |TrimLeft(u)|;
    assert forall k :: 0 <= k < a ==> s[k] == u[k];
  }

  lemma TrimmedEnds(s: string)
    ensures var t := Trimmed(s);
            t == [] || (t[0] !in TrimChars && t[|t| - 1] !in TrimChars)
  {
    TrimRightFacts(s);
    var u := TrimRight(s);
    TrimLeftFacts(u);
    var t := TrimLeft(u);
    assert t != [] ==> t[|t| - 1] == u[|u| - 1];
  }

  /** A string of trim characters only trims to the empty string. */
  lemma TrimAllSpace(s: string)
    requires forall k :: 0 <= k < |s| ==> s[k] in TrimChars
    ensures Trimmed(s) == []
  {
    TrimRightFacts(s);
  }

  /** `trim` is idempotent. */
  lemma {:induction false} TrimIdempotent(s: string)
    ensures Trimmed(Trimmed(s)) == Trimmed(s)
  {
    TrimmedEnds(s);
    var t := Trimmed(s);
    TrimIsTrimmed(t);
    TrimKeeps(t);
  }

  // ---------------------------------------------------------------------------
  // Fields
  // ---------------------------------------------------------------------------

  /** `INI_Field`: a field name and its value. */
  datatype Field = Field(name: string, value: string)

  /** The two exceptions the `INI_Field` constructor throws. */
  datatype FieldError = InvalidNameChar | EmptyName

  /** `is_valid_char_for_field`: ASCII digits (48-57), letters (65-90, 97-122) and `_` (95). */
  predicate IsFieldChar(c: char) {
    ('0' <= c <= '9') || ('A' <= c <= 'Z') || ('a' <= c <= 'z') || c == '_'
  }

  /** The characters that end a field name. */
  predicate IsNameStop(c: char) {
    c == ' ' || c == '\t' || c == '='
  }

  /** The characters that end an unquoted value. */
  predicate IsValueStop(c: char) {
    c == ' ' || c == '\t' || c == '#' || c == ';'
  }

  predicate IsQuote(c: char) {
    c == SingleQuote || c == DoubleQuote
  }

  const SingleQuote: char := 39 as char
  const DoubleQuote: char := 34 as char

  /** The `quotes` variable's "no quote open" value, the character 0. */
  const NoQuote: char := 0 as char

  /** The index of the first name-ending character at or after `i`, or `|t|`. */
  function NameEnd(t: string, i: nat): (n: nat)
    requires i <= |t|
    decreases |t| - i
    ensures i <= n <= |t|
    ensures forall k :: i <= k < n ==> !IsNameStop(t[k])
    ensures n < |t| ==> IsNameStop(t[n])
  {
    if i == |t| || IsNameStop(t[i]) then i else NameEnd(t, i + 1)
  }

  /** `line.substr(line.find('=') + 1)`: text after the first `=`, or all of it (`npos + 1` is 0). */
  function AfterEquals(t: string): string {
    match Find(t, '=', 0)
    case Some(p) => t[p + 1..]
    case None => t
  }

  /**
   * The value loop: quote characters open and close quoting and are dropped,
   * a quote of the other kind inside an open quote is kept, and outside
   * quotes the value ends at the first space, tab, `#` or `;`.
   */
  function ScanValue(s: string, i: nat, quote: char, acc: string): (r: string)
    requires i <= |s|
    decreases |s| - i
    ensures |r| <= |acc| + |s| - i
  {
    if i == |s| then acc
    else
      var c := s[i];
      if IsQuote(c) then
        if quote == c then ScanValue(s, i + 1, NoQuote, acc)
        else if quote == NoQuote then ScanValue(s, i + 1, c, acc)
        else ScanValue(s, i + 1, quote, acc + [c])
      else if quote == NoQuote && IsValueStop(c) then acc
      else ScanValue(s, i + 1, quote, acc + [c])
  }

  predicate AllFieldChars(s: string) {
    forall k :: 0 <= k < |s| ==> IsFieldChar(s[k])
  }

  /**
   * The name loop as a function: from `i`, the index of the first space, tab
   * or `=` (or the end), or `InvalidNameChar` at the first character before
   * it that is not valid in a name.
   */
  function NameScan(t: string, i: nat): (r: Result<nat, FieldError>)
    requires i <= |t|
    decreases |t| - i
    ensures r.Ok? ==> i <= r.value <= |t|
    ensures r.Err? ==> r.error == InvalidNameChar
  {
    if i == |t| || IsNameStop(t[i]) then Ok(i)
    else if !IsFieldChar(t[i]) then Err(InvalidNameChar)
    else NameScan(t, i + 1)
  }

  /** The name loop fails exactly when the would-be name has an invalid character, and otherwise stops at its end. */
  lemma {:induction false} NameScanFacts(t: string, i: nat)
    requires i <= |t|
    ensures NameScan(t, i).Ok? <==> AllFieldChars(t[i..NameEnd(t, i)])
    ensures NameScan(t, i).Ok? ==> NameScan(t, i).value == NameEnd(t, i)
    decreases |t| - i
  {
    if i < |t| && !IsNameStop(t[i]) {
      NameScanFacts(t, i + 1);
      assert t[i..NameEnd(t, i)] == [t[i]] + t[i + 1..NameEnd(t, i)];
    }
  }

  /**
   * The `INI_Field(line)` constructor as a function of the line: it
   * succeeds exactly when the trimmed line starts with a non-empty run of
   * name characters ending at the end of the line, a space, a tab or `=`,
   * and that run is the field's name.
   */
  function ParseField(line: string): (r: Result<Field, FieldError>)
    ensures r.Ok? <==> NameEnd(Trim(line), 0) > 0 && AllFieldChars(Trim(line)[..NameEnd(Trim(line), 0)])
    ensures r.Ok? ==> r.value.name == Trim(line)[..NameEnd(Trim(line), 0)]
    ensures r.Err? && NameEnd(Trim(line), 0) == 0 ==> r.error == EmptyName
  {
    var t := Trim(line);
    NameScanFacts(t, 0);
    match NameScan(t, 0)
    case Err(e) => Err(e)
    case Ok(n) =>
      if n == 0 then Err(EmptyName)
      else Ok(Field(t[..n], ScanValue(Trim(AfterEquals(t)), 0, NoQuote, [])))
  }

  /**
   * A line with no `=` is not an error: its name is read as usual and its
   * value is scanned from the whole trimmed line, name included.
   */
  lemma FieldWithoutEquals(line: string)
    requires forall k :: 0 <= k < |Trim(line)| ==> Trim(line)[k] != '='
    ensures ParseField(line).Ok? ==> ParseField(line).value.value == ScanValue(Trim(line), 0, NoQuote, [])
  {
    TrimIsTrimmed(line);
    TrimIsTrimmed(Trim(line));
    TrimIdempotent(line);
  }

  /** The name loop of the `INI_Field` constructor: characters up to the first space, tab or `=`. */
  method ReadFieldName(t: string) returns (r: Result<string, FieldError>)
    ensures NameScan(t, 0).Err? ==> r == Err(NameScan(t, 0).error)
    ensures NameScan(t, 0).Ok? ==> r == Ok(t[..NameScan(t, 0).value])
  {
    var field := "";
    var i := 0;
    while i < |t|
      invariant 0 <= i <= |t|
      invariant field == t[..i]
      invariant NameScan(t, i) == NameScan(t, 0)
    {
      var c := t[i];
      if c == ' ' {
        break;
      } else if c == '\t' {
        break;
      } else if c == '=' {
        break;
      } else if !IsFieldChar(c) {
        return Err(InvalidNameChar);
      }
      field := field + [c];
      i := i + 1;
    }
    r := Ok(field);
  }

  /** The value loop of the `INI_Field` constructor, over the trimmed text after `=`. */
  method ReadFieldValue(rest: string) returns (value: string)
    ensures value == ScanValue(rest, 0, NoQuote, [])
  {
    var quotes := NoQuote;
    value := "";
    var i := 0;
    while i < |rest|
      invariant 0 <= i <= |rest|
      invariant ScanValue(rest, i, quotes, value) == ScanValue(rest, 0, NoQuote, [])
    {
      var c := rest[i];
      if c == SingleQuote || c == DoubleQuote {
        if quotes == c {
          quotes := NoQuote;
        } else if quotes == NoQuote {
          quotes := c;
        } else {
          value := value + [c];
        }
        i := i + 1;
        continue;
      }
      if quotes == NoQuote {
        if c == ' ' || c == '\t' {
          break;
        }
        if c == '#' || c == ';' {
          break;
        }
      }
      value := value + [c];
      i := i + 1;
    }
  }

  /** The `INI_Field` constructor: trim, read the name, trim the text after `=`, read the value. */
  method NewField(line: string) returns (r: Result<Field, FieldError>)
    ensures r == ParseField(line)
  {
    var t := Trim(line);
    var name := ReadFieldName(t);
    if name.Err? {
      return Err(name.error);
    }
    if name.value == "" {
      return Err(EmptyName);
    }
    var rest := AfterEquals(t);
    rest := Trim(rest);
    var value := ReadFieldValue(rest);
    r := Ok(Field(name.value, value));
  }

  /**
   * What the name loop accepts and how it splits the line: a parse succeeds
   * exactly when the trimmed line starts with a non-empty run of name
   * characters followed by the end of the line, a space, a tab or `=`; the
   * run is the name.
   */
  lemma FieldNameSplit(line: string, name: string, rest: string)
    requires Trim(line) == name + rest
    requires rest == [] || IsNameStop(rest[0])
    requires forall k :: 0 <= k < |name| ==> !IsNameStop(name[k])
    ensures ParseField(line).Ok? <==> name != [] && AllFieldChars(name)
    ensures ParseField(line).Ok? ==> ParseField(line).value.name == name
  {
    var t := Trim(line);
    var n := NameEnd(t, 0);
    assert forall k :: 0 <= k < |name| ==> t[k] == name[k];
    assert rest != [] ==> t[|name|] == rest[0];
    assert n == |name|;
    assert t[0..n] == name;
    NameScanFacts(t, 0);
  }

  /**
   * A trimmed line made of a valid name and a rest that starts with a
   * name-ending character parses to that name, with the value read from the
   * trimmed text after the rest's first `=`.
   */
  lemma FieldOfNameAndRest(line: string, key: string, rest: string, p: nat, value: string)
    requires Trim(line) == key + rest
    requires key != [] && AllFieldChars(key)
    requires rest != [] && IsNameStop(rest[0])
    requires Find(rest, '=', 0) == Some(p)
    requires ScanValue(Trim(rest[p + 1..]), 0, NoQuote, []) == value
    ensures ParseField(line) == Ok(Field(key, value))
  {
    var t := Trim(line);
    assert forall k :: 0 <= k < |key| ==> !IsNameStop(key[k]);
    FieldNameSplit(line, key, rest);
    EqualsAfterName(key, rest, p);
  }

  /** With a name free of `=` in front, the text after the first `=` is the text after the rest's first `=`. */
  lemma EqualsAfterName(key: string, rest: string, p: nat)
    requires AllFieldChars(key)
    requires Find(rest, '=', 0) == Some(p)
    ensures AfterEquals(key + rest) == rest[p + 1..]
  {
    var t := key + rest;
    assert Find(t, '=', |key|) == Some(|key| + p) by {
      assert t[|key|..] == rest;
      FindInSuffix(t, '=', |key|, 0);
    }
    assert Find(t, '=', 0) == Find(t, '=', |key|) by {
      assert forall k :: 0 <= k < |key| ==> t[k] == key[k] && key[k] != '=';
      FindSkips(t, '=', 0, |key|);
    }
    assert t[|key| + p + 1..] == rest[p + 1..];
  }

  /** A field written `key = value` with a plain value parses back to that key and value. */
  lemma FieldRoundTrip(key: string, value: string)
    requires key != [] && AllFieldChars(key)
    requires value != []
    requires forall k :: 0 <= k < |value| ==> value[k] !in TrimChars && !IsQuote(value[k]) && !IsValueStop(value[k])
    ensures ParseField(key + " = " + value) == Ok(Field(key, value))
  {
    var rest := " = " + value;
    SpacedEquals(value);
    NameAndRestTrims(key, rest);
    SpacedPlainValue(value);
    assert key + rest == key + " = " + value;
    FieldOfNameAndRest(key + rest, key, rest, 1, value);
  }

  /** Where the parser finds things in ` = value`. */
  lemma SpacedEquals(value: string)
    requires value != []
    ensures var rest := " = " + value;
            rest[0] == ' ' && Find(rest, '=', 0) == Some(1) && rest[2..] == " " + value
            && rest[|rest| - 1] == value[|value| - 1]
  {
    var rest := " = " + value;
    assert rest[2..] == " " + value;
  }

  /** A valid name followed by text that does not end in a trim character is already trimmed. */
  lemma NameAndRestTrims(key: string, rest: string)
    requires key != [] && AllFieldChars(key)
    requires rest != [] && rest[|rest| - 1] !in TrimChars
    ensures Trim(key + rest) == key + rest
  {
    var line := key + rest;
    assert line[0] == key[0];
    assert line[|line| - 1] == rest[|rest| - 1];
    TrimKeeps(line);
  }

  /** A plain value after a space reads back as itself. */
  lemma SpacedPlainValue(value: string)
    requires value != []
    requires forall k :: 0 <= k < |value| ==> value[k] !in TrimChars && !IsQuote(value[k]) && !IsValueStop(value[k])
    ensures ScanValue(Trim(" " + value), 0, NoQuote, []) == value
  {
    TrimSpaceValue(value);
    PlainValue(value, 0, []);
    assert [] + value[0..] == value;
  }

  lemma TrimSpaceValue(value: string)
    requires value != []
    requires forall k :: 0 <= k < |value| ==> value[k] !in TrimChars
    ensures Trim(" " + value) == value
  {
    var s := " " + value;
    assert s[|s| - 1] == value[|value| - 1];
    assert s[..|s| - 1 + 1] == s;
    assert s[1] == value[0];
    assert s[1..] == value;
  }

  /** Outside quotes, text with no quote and no value-ending character is read unchanged. */
  lemma {:induction false} PlainValue(value: string, i: nat, acc: string)
    requires i <= |value|
    requires forall k :: 0 <= k < |value| ==> !IsQuote(value[k]) && !IsValueStop(value[k])
    ensures ScanValue(value, i, NoQuote, acc) == acc + value[i..]
    decreases |value| - i
  {
    if i < |value| {
      PlainValue(value, i + 1, acc + [value[i]]);
      assert acc + value[i..] == acc + [value[i]] + value[i + 1..];
    } else {
      assert acc + value[i..] == acc;
    }
  }

  /**
   * A double-quoted value keeps its spaces, `#`, `;` and single quotes: a
   * field written `key="text"` parses to exactly `text` when `text` has no
   * double quote.
   */
  lemma QuotedFieldRoundTrip(key: string, text: string)
    requires key != [] && AllFieldChars(key)
    requires DoubleQuote !in text
    ensures ParseField(key + "=" + [DoubleQuote] + text + [DoubleQuote]) == Ok(Field(key, text))
  {
    var quoted := [DoubleQuote] + text + [DoubleQuote];
    var rest := "=" + quoted;
    var line := key + rest;
    assert line == key + "=" + [DoubleQuote] + text + [DoubleQuote];
    NameAndRestTrims(key, rest);
    assert Find(rest, '=', 0) == Some(0);
    assert rest[1..] == quoted;
    QuotedTrimsToItself(text);
    QuotedValue(text);
    FieldOfNameAndRest(line, key, rest, 0, text);
  }

  /** A value in double quotes reads as the text between them. */
  lemma QuotedValue(text: string)
    requires DoubleQuote !in text
    ensures ScanValue([DoubleQuote] + text + [DoubleQuote], 0, NoQuote, []) == text
  {
    var quoted := [DoubleQuote] + text + [DoubleQuote];
    assert quoted[1..|quoted| - 1] == text;
    InsideDoubleQuotes(quoted, 1, []);
    assert [] + text == text;
  }

  lemma QuotedTrimsToItself(text: string)
    ensures Trim([DoubleQuote] + text + [DoubleQuote]) == [DoubleQuote] + text + [DoubleQuote]
  {
    var quoted := [DoubleQuote] + text + [DoubleQuote];
    assert quoted[|quoted| - 1] == DoubleQuote;
    TrimKeeps(quoted);
  }

  /** Inside an open double quote, everything up to a closing double quote at the end is kept. */
  lemma {:induction false} InsideDoubleQuotes(s: string, i: nat, acc: string)
    requires 0 < i <= |s| - 1 && s[|s| - 1] == DoubleQuote
    requires DoubleQuote !in s[i..|s| - 1]
    ensures ScanValue(s, i, DoubleQuote, acc) == acc + s[i..|s| - 1]
    decreases |s| - i
  {
    if i < |s| - 1 {
      assert s[i..|s| - 1] == [s[i]] + s[i + 1..|s| - 1];
      InsideDoubleQuotes(s, i + 1, acc + [s[i]]);
      assert acc + s[i..|s| - 1] == acc + [s[i]] + s[i + 1..|s| - 1];
    } else {
      assert ScanValue(s, i + 1, NoQuote, acc) == acc;
      assert acc + s[i..|s| - 1] == acc;
    }
  }

  // ---------------------------------------------------------------------------
  // Lines and section headers
  // ---------------------------------------------------------------------------

  /** The characters skipped before a `[` and around a section name: " \t\r". */
  const HeaderBlank: set<char> := set c: char | c == ' ' || c == '\t' || c == '\r'

  /** `is_comment_or_empty`: after trimming, empty or starting with `;` or `#`. */
  predicate IsCommentOrEmpty(line: string) {
    var t := Trim(line);
    |t| == 0 || t[0] == ';' || t[0] == '#'
  }

  /** A line that starts a section: its first character outside " \t\r" is `[`. */
  predicate IsHeaderLine(line: string) {
    var first := FindFirstNotOf(line, HeaderBlank, 0);
    first.Some? && line[first.value] == '['
  }

  /** A header line is never skipped as a comment, so the body loop's break test sees every header. */
  lemma HeaderIsNotComment(line: string)
    requires IsHeaderLine(line)
    ensures !IsCommentOrEmpty(line)
  {
    var f := FindFirstNotOf(line, HeaderBlank, 0).value;
    TrimmedSlice(line);
    TrimIsTrimmed(line);
    var t := Trimmed(line);
    var a := |TrimRight(line)| - |t|;
    assert line[f] !in TrimChars;
    assert forall k :: 0 <= k < f ==> line[k] in TrimChars;
    assert f < a + |t|;
    assert a <= f;
    assert t[0] == line[a];
    assert a == f;
    assert t[0] == '[';
  }

  /** The exceptions a section header throws; they propagate out of `ini_parse`. */
  datatype ParseError = BadSectionHeader | MissingClosingBracket | BadSectionName

  /** The header part of the `INI_Section` constructor: the section name, or the exception. */
  function ParseHeader(header: string): (r: Result<string, ParseError>)
    ensures r.Ok? ==> r.value != [] && r.value[0] !in HeaderBlank && r.value[|r.value| - 1] !in HeaderBlank
  {
    var first := FindFirstNotOf(header, HeaderBlank, 0);
    if first.None? || header[first.value] != '[' then Err(BadSectionHeader)
    else
      var end := Find(header, ']', first.value + 1);
      if end.None? then Err(MissingClosingBracket)
      else
        var name := header[first.value + 1..end.value];
        var nameStart := FindFirstNotOf(name, HeaderBlank, 0);
        var nameEnd := FindLastNotOf(name, HeaderBlank);
        if nameStart.None? then Err(BadSectionName)
        else
          assert nameEnd.Some? && nameStart.value <= nameEnd.value;
          Ok(name[nameStart.value..nameEnd.value + 1])
  }

  /**
   * A header written `[name]`, with blanks before the bracket and anything
   * after the closing bracket, parses back to `name` when `name` has no `]`
   * and no blank at either end.
   */
  lemma HeaderRoundTrip(pad: string, name: string, after: string)
    requires forall k :: 0 <= k < |pad| ==> pad[k] in HeaderBlank
    requires name != [] && name[0] !in HeaderBlank && name[|name| - 1] !in HeaderBlank
    requires forall k :: 0 <= k < |name| ==> name[k] != ']'
    ensures ParseHeader(pad + "[" + name + "]" + after) == Ok(name)
  {
    HeaderBrackets(pad, name, after);
    assert FindFirstNotOf(name, HeaderBlank, 0) == Some(0);
    assert FindLastNotOf(name, HeaderBlank) == Some(|name| - 1);
    assert name[0..|name| - 1 + 1] == name;
  }

  /** In `pad[name]after`, the `[` is the first non-blank and the first `]` after it closes `name`. */
  lemma HeaderBrackets(pad: string, name: string, after: string)
    requires forall k :: 0 <= k < |pad| ==> pad[k] in HeaderBlank
    requires forall k :: 0 <= k < |name| ==> name[k] != ']'
    ensures var h := pad + "[" + name + "]" + after; var p := |pad|;
            FindFirstNotOf(h, HeaderBlank, 0) == Some(p) && h[p] == '['
            && Find(h, ']', p + 1) == Some(p + 1 + |name|)
            && h[p + 1..p + 1 + |name|] == name
  {
    var h := pad + "[" + name + "]" + after;
    var p := |pad|;
    assert h[p] == '[';
    assert forall k :: 0 <= k < p ==> h[k] == pad[k];
    FirstNotOfSkips(h, HeaderBlank, 0, p);
    assert forall k :: p + 1 <= k < p + 1 + |name| ==> h[k] == name[k - p - 1];
    assert h[p + 1..p + 1 + |name|] == name;
    assert h[p + 1 + |name|] == ']';
    FindSkips(h, ']', p + 1, p + 1 + |name|);
  }

  // ---------------------------------------------------------------------------
  // Sections
  // ---------------------------------------------------------------------------

  /** `INI_Section`: its name (`""` for the global section) and its fields in source order. */
  datatype Section = Section(name: string, fields: seq<Field>)

  /** A constructed section and where the by-reference cursor was left. */
  datatype Parsed = Parsed(section: Section, next: nat)

  /** The first header line at or after `i`, or `|lines|`: where the body loop stops. */
  function BodyEnd(lines: seq<string>, i: nat): (e: nat)
    requires i <= |lines|
    decreases |lines| - i
    ensures i <= e <= |lines|
    ensures forall k :: i <= k < e ==> !IsHeaderLine(lines[k])
    ensures e < |lines| ==> IsHeaderLine(lines[e])
  {
    if i == |lines| || IsHeaderLine(lines[i]) then i else BodyEnd(lines, i + 1)
  }

  /** What the body loop appends for one line: nothing for comments and lines that throw. */
  function FieldsOfLine(line: string): seq<Field> {
    if IsCommentOrEmpty(line) then []
    else match ParseField(line)
      case Ok(f) => [f]
      case Err(_) => []
  }

  /** The fields the body loop collects from `ls`, in order. */
  function FieldsOf(ls: seq<string>, f: string -> seq<Field>): (r: seq<Field>)
  {
    if ls == [] then [] else f(ls[0]) + FieldsOf(ls[1..], f)
  }

  /**
   * The `INI_Section(lines, current_line, section_global)` constructor: the
   * section and the new cursor. A non-global section starts at a header
   * line; both kinds stop before the next header line or at `|lines|`.
   */
  function SectionAt(lines: seq<string>, cursor: nat, global: bool): (r: Result<Parsed, ParseError>)
    requires cursor <= |lines|
    requires !global ==> cursor < |lines|
    ensures global ==> r.Ok? && r.value.section.name == ""
    ensures r.Ok? ==> cursor <= r.value.next <= |lines|
    ensures r.Ok? && !global ==> cursor < r.value.next
    ensures r.Ok? && r.value.next < |lines| ==> IsHeaderLine(lines[r.value.next])
  {
    if global then
      var e := BodyEnd(lines, cursor);
      Ok(Parsed(Section("", FieldsOf(lines[cursor..e], FieldsOfLine)), e))
    else
      match ParseHeader(lines[cursor])
      case Err(err) => Err(err)
      case Ok(name) =>
        var e := BodyEnd(lines, cursor + 1);
        Ok(Parsed(Section(name, FieldsOf(lines[cursor + 1..e], FieldsOfLine)), e))
  }

  /**
   * The field loop of the `INI_Section` constructor: from `start`, skip
   * comments, stop at the next header line, and keep every field that parses.
   */
  method ParseBody(lines: seq<string>, start: nat) returns (fields: seq<Field>, next: nat)
    requires start <= |lines|
    ensures next == BodyEnd(lines, start)
    ensures fields == FieldsOf(lines[start..next], FieldsOfLine)
  {
    var current := start;
    fields := [];
    while current < |lines|
      invariant start <= current <= |lines|
      invariant BodyScan(lines, current, fields, FieldsOfLine) == BodyScan(lines, start, [], FieldsOfLine)
    {
      var isHeader, found := ReadBodyLine(lines[current]);
      if isHeader {
        break;
      }
      fields := fields + found;
      current := current + 1;
    }
    next := current;
    BodyScanCollects(lines, start, [], FieldsOfLine);
    assert [] + FieldsOf(lines[start..next], FieldsOfLine) == FieldsOf(lines[start..next], FieldsOfLine);
  }

  /** The field loop as a function: the fields collected from `i` on, after `acc`, and where the loop stops. */
  function BodyScan(lines: seq<string>, i: nat, acc: seq<Field>, f: string -> seq<Field>): (seq<Field>, nat)
    requires i <= |lines|
    decreases |lines| - i
  {
    if i == |lines| || IsHeaderLine(lines[i]) then (acc, i)
    else BodyScan(lines, i + 1, acc + f(lines[i]), f)
  }

  /** The field loop stops at the next header line and collects the fields of the lines before it. */
  lemma {:induction false} BodyScanCollects(lines: seq<string>, i: nat, acc: seq<Field>, f: string -> seq<Field>)
    requires i <= |lines|
    ensures BodyScan(lines, i, acc, f) == (acc + FieldsOf(lines[i..BodyEnd(lines, i)], f), BodyEnd(lines, i))
    decreases |lines| - i
  {
    var e := BodyEnd(lines, i);
    if i == |lines| || IsHeaderLine(lines[i]) {
      assert lines[i..e] == [];
      assert acc + [] == acc;
    } else {
      BodyScanCollects(lines, i + 1, acc + f(lines[i]), f);
      var ls := lines[i..e];
      assert ls[0] == lines[i] && ls[1..] == lines[i + 1..e];
      assert acc + f(lines[i]) + FieldsOf(ls[1..], f) == acc + FieldsOf(ls, f);
    }
  }

  /**
   * One pass of the field loop: a comment or empty line adds nothing, a
   * header line ends the loop, any other line adds its field unless the
   * field constructor throws.
   */
  method ReadBodyLine(line: string) returns (isHeader: bool, found: seq<Field>)
    ensures isHeader == IsHeaderLine(line)
    ensures !isHeader ==> found == FieldsOfLine(line)
  {
    if IsCommentOrEmpty(line) {
      if IsHeaderLine(line) {
        HeaderIsNotComment(line);
      }
      return false, [];
    }
    var first := FindFirstNotOf(line, HeaderBlank, 0);
    if first.Some? && line[first.value] == '[' {
      return true, [];
    }
    var field := NewField(line);
    found := if field.Ok? then [field.value] else [];
    isHeader := false;
  }

  /** The `INI_Section` constructor: the header of a non-global section, then the field loop. */
  method ParseSection(lines: seq<string>, cursor: nat, global: bool) returns (r: Result<Parsed, ParseError>)
    requires cursor <= |lines|
    requires !global ==> cursor < |lines|
    ensures r == SectionAt(lines, cursor, global)
  {
    var current := cursor;
    var name := "";
    if !global {
      var header := ParseHeader(lines[current]);
      if header.Err? {
        return Err(header.error);
      }
      name := header.value;
      current := current + 1;
    }
    var fields, next := ParseBody(lines, current);
    r := Ok(Parsed(Section(name, fields), next));
  }

  /** `operator[]`: every value whose field name is `key`, in source order. */
  function ValuesNamed(fields: seq<Field>, key: string): (r: seq<string>)
    ensures |r| <= |fields|
    ensures r == [] <==> forall k :: 0 <= k < |fields| ==> fields[k].name != key
  {
    if fields == [] then []
    else
      var last := fields[|fields| - 1];
      ValuesNamed(fields[..|fields| - 1], key) + (if last.name == key then [last.value] else [])
  }

  /** `section[key]`. */
  function Lookup(section: Section, key: string): seq<string> {
    ValuesNamed(section.fields, key)
  }

  /** Looking up in fields `a + b` gives the matches of `a` followed by those of `b`: source order is kept. */
  lemma {:induction false} ValuesNamedAppend(a: seq<Field>, b: seq<Field>, key: string)
    ensures ValuesNamed(a + b, key) == ValuesNamed(a, key) + ValuesNamed(b, key)
    decreases |b|
  {
    if b == [] {
      assert a + b == a;
    } else {
      var front, last := b[..|b| - 1], b[|b| - 1];
      var tail := if last.name == key then [last.value] else [];
      assert (a + b)[..|a + b| - 1] == a + front && (a + b)[|a + b| - 1] == last;
      assert ValuesNamed(a + b, key) == ValuesNamed(a + front, key) + tail;
      ValuesNamedAppend(a, front, key);
      assert ValuesNamed(b, key) == ValuesNamed(front, key) + tail;
    }
  }

  /** A value is returned for `key` exactly when some field named `key` carries it. */
  lemma {:induction false} ValuesNamedMember(fields: seq<Field>, key: string, v: string)
    ensures v in ValuesNamed(fields, key) <==> Field(key, v) in fields
  {
    if fields != [] {
      var init := fields[..|fields| - 1];
      assert fields == init + [fields[|fields| - 1]];
      ValuesNamedMember(init, key, v);
    }
  }

  // ---------------------------------------------------------------------------
  // Splitting and the section loop
  // ---------------------------------------------------------------------------

  /** `split(s, delim)`: the pieces before each delimiter; text after the last one is dropped. */
  function SplitOn(s: string, delim: char): (r: seq<string>)
    decreases |s|
    ensures forall k :: 0 <= k < |r| ==> delim !in r[k]
  {
    match Find(s, delim, 0)
    case None => []
    case Some(p) => [s[..p]] + SplitOn(s[p + 1..], delim)
  }

  /** `split`: push the text before the delimiter, erase through it, search again. */
  method Split(str: string, delim: char) returns (ret: seq<string>)
    ensures ret == SplitOn(str, delim)
  {
    var rest := str;
    ret := [];
    var pos := Find(rest, delim, 0);
    while pos.Some?
      invariant pos == Find(rest, delim, 0)
      invariant ret + SplitOn(rest, delim) == SplitOn(str, delim)
      decreases |rest|
    {
      ret := ret + [rest[..pos.value]];
      rest := rest[pos.value + 1..];
      pos := Find(rest, delim, 0);
    }
  }

  /** Each piece followed by the delimiter, concatenated. */
  function Terminated(pieces: seq<string>, delim: char): string {
    if pieces == [] then [] else pieces[0] + [delim] + Terminated(pieces[1..], delim)
  }

  /**
   * Splitting undoes delimiter-terminated joining, and whatever follows the
   * last delimiter is lost: a final line without a trailing newline is
   * never seen by the parser.
   */
  lemma {:induction false} SplitTerminated(pieces: seq<string>, tail: string, delim: char)
    requires forall k :: 0 <= k < |pieces| ==> delim !in pieces[k]
    requires delim !in tail
    ensures SplitOn(Terminated(pieces, delim) + tail, delim) == pieces
  {
    var s := Terminated(pieces, delim) + tail;
    if pieces == [] {
      assert Find(s, delim, 0).None?;
    } else {
      var p := pieces[0];
      var rest := Terminated(pieces[1..], delim) + tail;
      assert s == p + [delim] + rest;
      assert s[|p|] == delim;
      assert Find(s, delim, 0) == Some(|p|) by {
        assert forall k :: 0 <= k < |p| ==> s[k] == p[k];
      }
      assert s[..|p|] == p;
      assert s[|p| + 1..] == rest;
      SplitTerminated(pieces[1..], tail, delim);
    }
  }

  /** The outcome of `ini_parse`: the sections, the exception it throws, or a loop that never ends. */
  datatype IniOutcome = Sections(sections: seq<Section>) | Failed(error: ParseError) | Diverges

  /** The sections from cursor `i` on; each one advances the cursor past its header. */
  function SectionsFrom(lines: seq<string>, i: nat): Result<seq<Section>, ParseError>
    requires i <= |lines|
    decreases |lines| - i
  {
    if i == |lines| then Ok([])
    else match SectionAt(lines, i, false)
      case Err(e) => Err(e)
      case Ok(p) =>
        match SectionsFrom(lines, p.next)
        case Err(e) => Err(e)
        case Ok(rest) => Ok([p.section] + rest)
  }

  /** `sections` put in front of the rest of the parse. */
  function Prepend(sections: seq<Section>, rest: Result<seq<Section>, ParseError>): IniOutcome {
    match rest
    case Err(e) => Failed(e)
    case Ok(more) => Sections(sections + more)
  }

  /**
   * `ini_parse(vector)`: the global section at cursor 0, then one section per
   * header. As written, the global section is the one constructed at cursor
   * 0; when it consumes no line (line 0 is a header) the cursor stays at 0
   * and the source repeats that step forever. Corrected (`fixed`), the global
   * section is the first one constructed, wherever the cursor then is.
   */
  function IniParseLines(lines: seq<string>, fixed: bool): (r: IniOutcome)
    ensures |lines| == 0 ==> r == Sections([])
    ensures r.Sections? && |lines| > 0 ==> |r.sections| >= 1 && r.sections[0].name == ""
  {
    if |lines| == 0 then Sections([])
    else
      var global := SectionAt(lines, 0, true).value;
      if global.next == 0 && !fixed then Diverges
      else Prepend([global.section], SectionsFrom(lines, global.next))
  }

  /** `ini_parse(string)`: split into lines on `\n`, then parse the lines. */
  function IniParseText(source: string, fixed: bool): IniOutcome {
    IniParseLines(SplitOn(source, '\n'), fixed)
  }

  /**
   * `ini_parse(vector)`: construct sections while the cursor has not reached
   * the end. As written, the section at cursor 0 is the global one, and the
   * loop makes no progress when it stops at cursor 0; the model returns
   * `Diverges` at that point, where the source would construct the same
   * global section again forever. Corrected, only the first section
   * constructed is global.
   */
  method IniParse(lines: seq<string>, fixed: bool) returns (r: IniOutcome)
    ensures r == IniParseLines(lines, fixed)
  {
    var i: nat := 0;
    var data: seq<Section> := [];
    while i != |lines|
      invariant i <= |lines| && ParseLoop(lines, fixed, i, data)
      decreases |lines| - i, if data == [] then 1 else 0
    {
      var stop;
      stop, i, data := ParseOne(lines, fixed, i, data);
      if stop.Some? {
        return stop.value;
      }
    }
    r := Sections(data);
  }

  /**
   * What the loop of `ini_parse(vector)` keeps: nothing is collected before
   * the global section, as written the cursor has moved on once something
   * is, and the collected sections followed by the sections from the cursor
   * on are the outcome.
   */
  predicate ParseLoop(lines: seq<string>, fixed: bool, i: nat, data: seq<Section>)
    requires i <= |lines|
  {
    && (data == [] ==> i == 0)
    && (!fixed && data != [] ==> i > 0)
    && (data != [] ==> IniParseLines(lines, fixed) == Prepend(data, SectionsFrom(lines, i)))
  }

  /** The body of the loop: `ini_data.emplace_back(ini_source, i, ...)`, or the outcome when it throws or cannot advance. */
  method ParseOne(lines: seq<string>, fixed: bool, i: nat, data: seq<Section>)
    returns (stop: Option<IniOutcome>, i': nat, data': seq<Section>)
    requires i < |lines| && ParseLoop(lines, fixed, i, data)
    ensures stop.Some? ==> stop.value == IniParseLines(lines, fixed)
    ensures stop.None? ==> i' <= |lines| && ParseLoop(lines, fixed, i', data')
    ensures stop.None? ==> i < i' || (i' == i && data == [] && data' != [])
  {
    var global := if fixed then data == [] else i == 0;
    var parsed := ParseSection(lines, i, global);
    if parsed.Err? {
      SectionsFromFails(lines, i, data);
      return Some(Failed(parsed.error)), i, data;
    }
    var p := parsed.value;
    if global {
      assert i == 0 && data == [];
      GlobalStep(lines, fixed);
      if p.next == 0 && !fixed {
        return Some(Diverges), i, data;
      }
      assert IniParseLines(lines, fixed) == Prepend([p.section], SectionsFrom(lines, p.next));
      stop, i', data' := None, p.next, [p.section];
    } else {
      SectionsFromStep(lines, i, data);
      stop, i', data' := None, p.next, data + [p.section];
    }
  }

  /** The first pass of the loop: the global section either stops at cursor 0 or starts the collected sections. */
  lemma GlobalStep(lines: seq<string>, fixed: bool)
    requires |lines| > 0
    ensures var g := SectionAt(lines, 0, true).value;
            (g.next == 0 && !fixed ==> IniParseLines(lines, fixed) == Diverges)
            && (g.next > 0 || fixed ==> IniParseLines(lines, fixed) == Prepend([g.section], SectionsFrom(lines, g.next)))
  {
  }

  /** A section after the global one that parses moves from the rest of the parse into the collected sections. */
  lemma SectionsFromStep(lines: seq<string>, i: nat, data: seq<Section>)
    requires i < |lines|
    requires SectionAt(lines, i, false).Ok?
    ensures var p := SectionAt(lines, i, false).value;
            Prepend(data, SectionsFrom(lines, i)) == Prepend(data + [p.section], SectionsFrom(lines, p.next))
  {
    var p := SectionAt(lines, i, false).value;
    match SectionsFrom(lines, p.next)
    case Err(e) =>
    case Ok(more) =>
      assert data + ([p.section] + more) == data + [p.section] + more;
  }

  /** A section header that throws ends the whole parse with its exception. */
  lemma SectionsFromFails(lines: seq<string>, i: nat, data: seq<Section>)
    requires i < |lines|
    requires SectionAt(lines, i, false).Err?
    ensures Prepend(data, SectionsFrom(lines, i)) == Failed(SectionAt(lines, i, false).error)
  {
  }

  /** `ini_parse(string)`. */
  method IniParseString(source: string, fixed: bool) returns (r: IniOutcome)
    ensures r == IniParseText(source, fixed)
  {
    var lines := Split(source, '\n');
    r := IniParse(lines, fixed);
  }

  /** `ini_parse` runs forever exactly when the first line is a section header. */
  lemma IniParseDivergesIff(lines: seq<string>)
    requires |lines| > 0
    ensures IniParseLines(lines, false) == Diverges <==> IsHeaderLine(lines[0])
  {
  }

  /**
   * Corrected, `ini_parse` always ends. It agrees with the code as written
   * whenever that ends; a document that starts with a header gets an empty
   * global section, followed by the sections from line 0 on.
   */
  lemma FixedParseEnds(lines: seq<string>)
    ensures IniParseLines(lines, true) != Diverges
    ensures IniParseLines(lines, false) != Diverges ==> IniParseLines(lines, true) == IniParseLines(lines, false)
    ensures |lines| > 0 && IsHeaderLine(lines[0]) ==>
              IniParseLines(lines, true) == Prepend([Section("", [])], SectionsFrom(lines, 0))
  {
    if |lines| > 0 && IsHeaderLine(lines[0]) {
      assert BodyEnd(lines, 0) == 0;
      assert FieldsOf(lines[0..0], FieldsOfLine) == [];
    }
  }

  /**
   * Every section after the global one was introduced by a header line, has
   * a non-empty name, and holds only fields from the lines up to the next
   * header.
   */
  lemma {:induction false} SectionsFromNames(lines: seq<string>, i: nat)
    requires i <= |lines|
    requires SectionsFrom(lines, i).Ok?
    ensures forall k :: 0 <= k < |SectionsFrom(lines, i).value| ==> SectionsFrom(lines, i).value[k].name != ""
    ensures |SectionsFrom(lines, i).value| <= |lines| - i
    decreases |lines| - i
  {
    if i < |lines| {
      var p := SectionAt(lines, i, false).value;
      SectionsFromNames(lines, p.next);
    }
  }
}
