/** Writing commands as text and parsing them back. */
module CommandCodec {
  import opened Basics

  datatype Error =
    | EmptyCommand | NoCommandName | EmptyRow | NoParameterName | IncompleteEscape | UnknownEscape
    | InvalidName | NullInValue | EmptyRowWritten | TrailingEmptyRow

  const BELL: char := 7 as char
  const BACKSPACE: char := 8 as char
  const VERTICAL_TAB: char := 11 as char
  const FORM_FEED: char := 12 as char
  const NUL: char := 0 as char

  // ---------------------------------------------------------------- escaping

  /** The letter that stands for a character after a backslash, if it has to be escaped. */
  function EscapeOf(c: char): Option<char> {
    if c == '\\' then Some('\\')
    else if c == '/' then Some('/')
    else if c == ' ' then Some('s')
    else if c == '|' then Some('p')
    else if c == BELL then Some('a')
    else if c == BACKSPACE then Some('b')
    else if c == FORM_FEED then Some('f')
    else if c == '\n' then Some('n')
    else if c == '\r' then Some('r')
    else if c == '\t' then Some('t')
    else if c == VERTICAL_TAB then Some('v')
    else None
  }

  function Unescape(letter: char): Option<char> {
    if letter == '\\' then Some('\\')
    else if letter == '/' then Some('/')
    else if letter == 's' then Some(' ')
    else if letter == 'p' then Some('|')
    else if letter == 'a' then Some(BELL)
    else if letter == 'b' then Some(BACKSPACE)
    else if letter == 'f' then Some(FORM_FEED)
    else if letter == 'n' then Some('\n')
    else if letter == 'r' then Some('\r')
    else if letter == 't' then Some('\t')
    else if letter == 'v' then Some(VERTICAL_TAB)
    else None
  }

  /** Eleven characters are escaped, by their code and letter, and no others. */
  lemma EscapeTable()
    ensures EscapeOf(0x5c as char) == Some('\\') && EscapeOf(0x2f as char) == Some('/')
    ensures EscapeOf(0x20 as char) == Some('s') && EscapeOf(0x7c as char) == Some('p')
    ensures EscapeOf(0x07 as char) == Some('a') && EscapeOf(0x08 as char) == Some('b') && EscapeOf(0x09 as char) == Some('t')
    ensures EscapeOf(0x0a as char) == Some('n') && EscapeOf(0x0b as char) == Some('v') && EscapeOf(0x0c as char) == Some('f')
    ensures EscapeOf(0x0d as char) == Some('r')
    ensures forall c :: EscapeOf(c).Some? ==>
              c as int in {0x5c, 0x2f, 0x20, 0x7c, 0x07, 0x08, 0x09, 0x0a, 0x0b, 0x0c, 0x0d}
  {
  }

  /** Unescaping accepts exactly the letters that escape something. */
  lemma UnescapeIsInverse(c: char, letter: char)
    ensures Unescape(letter) == Some(c) <==> EscapeOf(c) == Some(letter)
  {
  }

  function EncodedChar(c: char): string {
    match EscapeOf(c)
    case Some(letter) => ['\\', letter]
    case None => [c]
  }

  function Encoded(value: string): string {
    if value == [] then [] else EncodedChar(value[0]) + Encoded(value[1..])
  }

  function Decoded(value: string): Result<string, Error> {
    if value == [] then Ok([])
    else if value[0] != '\\' then
      match Decoded(value[1..])
      case Err(e) => Err(e)
      case Ok(rest) => Ok([value[0]] + rest)
    else if |value| == 1 then Err(IncompleteEscape)
    else match Unescape(value[1])
      case None => Err(UnknownEscape)
      case Some(c) =>
        match Decoded(value[2..])
        case Err(e) => Err(e)
        case Ok(rest) => Ok([c] + rest)
  }

  lemma {:induction false} DecodeUndoesEncode(value: string)
    ensures Decoded(Encoded(value)) == Ok(value)
  {
    if value != [] {
      var encoded := Encoded(value);
      DecodeUndoesEncode(value[1..]);
      if EscapeOf(value[0]).Some? {
        assert encoded[2..] == Encoded(value[1..]);
      } else {
        assert encoded[1..] == Encoded(value[1..]);
      }
      assert value == [value[0]] + value[1..];
    }
  }

  /** Encoded values contain none of the characters that structure a command, nor line ends. */
  predicate Plain(c: char) {
    c != ' ' && c != '|' && c != '\r' && c != '\n'
  }

  lemma {:induction false} EncodedIsPlain(value: string)
    ensures forall c :: c in Encoded(value) ==> Plain(c)
  {
    if value != [] {
      EncodedIsPlain(value[1..]);
      assert forall c :: c in EncodedChar(value[0]) ==> Plain(c);
    }
  }

  method EncodeValue(value: string) returns (r: Result<string, Error>)
    ensures r == if NUL in value then Err(NullInValue) else Ok(Encoded(value))
  {
    var result: string := [];
    for i := 0 to |value|
      invariant NUL !in value[..i]
      invariant result == Encoded(value[..i])
    {
      if value[i] == NUL {
        return Err(NullInValue);
      }
      EncodedGrows(value[..i], value[i]);
      assert value[..i + 1] == value[..i] + [value[i]];
      result := result + EncodedChar(value[i]);
    }
    assert value[..|value|] == value;
    return Ok(result);
  }

  lemma {:induction false} EncodedGrows(value: string, c: char)
    ensures Encoded(value + [c]) == Encoded(value) + EncodedChar(c)
  {
    if value == [] {
      assert (value + [c])[1..] == [];
      assert EncodedChar(c) + [] == [] + EncodedChar(c);
    } else {
      assert (value + [c])[1..] == value[1..] + [c];
      EncodedGrows(value[1..], c);
      Associates(EncodedChar(value[0]), Encoded(value[1..]), EncodedChar(c));
    }
  }

  function Prepend(prefix: string, r: Result<string, Error>): Result<string, Error> {
    if r.Ok? then Ok(prefix + r.value) else r
  }

  method DecodeValue(value: string) returns (r: Result<string, Error>)
    ensures r == Decoded(value)
  {
    var result: string := [];
    var i := 0;
    assert value[0..] == value && forall s: string :: [] + s == s;
    while i < |value|
      invariant 0 <= i <= |value|
      invariant Prepend(result, Decoded(value[i..])) == Decoded(value)
    {
      var c := value[i];
      if c == '\\' {
        if i + 1 >= |value| {
          return Err(IncompleteEscape);
        }
        var unescaped := Unescape(value[i + 1]);
        if unescaped.None? {
          return Err(UnknownEscape);
        }
        assert value[i..][2..] == value[i + 2..];
        c := unescaped.value;
        PrependStep(result, c, Decoded(value[i + 2..]));
        i := i + 2;
      } else {
        assert value[i..][1..] == value[i + 1..];
        PrependStep(result, c, Decoded(value[i + 1..]));
        i := i + 1;
      }
      result := result + [c];
    }
    assert result + [] == result;
    return Ok(result);
  }

  lemma PrependStep(prefix: string, c: char, r: Result<string, Error>)
    ensures Prepend(prefix, Prepend([c], r)) == Prepend(prefix + [c], r)
  {
    if r.Ok? {
      assert prefix + ([c] + r.value) == prefix + [c] + r.value;
    }
  }

  // ---------------------------------------------------------------- parsing

  datatype Parameter = Parameter(name: string, value: string)

  type Row = seq<Parameter>

  datatype Command = Command(name: string, rows: seq<Row>)

  predicate LineEnd(c: char) {
    c == '\r' || c == '\n'
  }

  function Trimmed(text: string): string {
    if text != [] && LineEnd(text[|text| - 1]) then Trimmed(text[..|text| - 1]) else text
  }

  /** The position of the first occurrence, or the length if there is none. */
  function Index(text: string, c: char): (i: nat)
    ensures i <= |text| && (i < |text| ==> text[i] == c) && c !in text[..i]
  {
    if text == [] || text[0] == c then 0
    else
      var rest := Index(text[1..], c);
      assert text[..rest + 1] == [text[0]] + text[1..][..rest];
      1 + rest
  }

  function SkipSpaces(text: string): string {
    if text != [] && text[0] == ' ' then SkipSpaces(text[1..]) else text
  }

  function ParseParameter(text: string): Result<Parameter, Error> {
    var separator := Index(text, '=');
    if separator == |text| then Ok(Parameter(text, []))
    else if separator == 0 then Err(NoParameterName)
    else match Decoded(text[separator + 1..])
      case Err(e) => Err(e)
      case Ok(value) => Ok(Parameter(text[..separator], value))
  }

  function Follow<T>(first: Result<T, Error>, rest: Result<seq<T>, Error>): Result<seq<T>, Error> {
    if first.Err? then Err(first.error) else if rest.Err? then rest else Ok([first.value] + rest.value)
  }

  /** The parameters of a row: words between spaces. */
  function ParsedRow(text: string): Result<Row, Error>
    decreases |text|
  {
    var words := SkipSpaces(text);
    if words == [] then Ok([]) else
    SkipShortens(text);
    var end := Index(words, ' ');
    Follow(ParseParameter(words[..end]), if end == |words| then Ok([]) else ParsedRow(words[end + 1..]))
  }

  lemma {:induction false} SkipShortens(text: string)
    ensures |SkipSpaces(text)| <= |text|
  {
    if text != [] && text[0] == ' ' {
      SkipShortens(text[1..]);
    }
  }

  /** The rows of a command: texts between bars. */
  function ParsedRows(text: string): Result<seq<Row>, Error>
    decreases |text|
  {
    var end := Index(text, '|');
    if end == 0 then Err(EmptyRow)
    else Follow(ParsedRow(text[..end]), if end == |text| then Ok([]) else ParsedRows(text[end + 1..]))
  }

  function ParsedTrimmed(text: string): Result<Command, Error> {
    if text == [] then Err(EmptyCommand) else
    var nameEnd := Index(text, ' ');
    if nameEnd == |text| then Ok(Command(text, []))
    else if nameEnd == 0 then Err(NoCommandName)
    else
      var data := SkipSpaces(text[nameEnd..]);
      if data == [] then Ok(Command(text[..nameEnd], [])) else
      match ParsedRows(data)
      case Err(e) => Err(e)
      case Ok(rows) => Ok(Command(text[..nameEnd], rows))
  }

  function Parsed(text: string): Result<Command, Error> {
    ParsedTrimmed(Trimmed(text))
  }

  /** The offset of the first character from `start` on that is not a space. */
  method FindWord(text: string, start: nat) returns (offset: nat)
    requires start <= |text|
    ensures start <= offset <= |text| && text[offset..] == SkipSpaces(text[start..])
  {
    offset := start;
    while offset < |text| && text[offset] == ' '
      invariant start <= offset <= |text|
      invariant SkipSpaces(text[offset..]) == SkipSpaces(text[start..])
    {
      offset := offset + 1;
    }
  }

  /** A name, or a name and an escaped value. */
  method ParseWord(text: string) returns (r: Result<Parameter, Error>)
    ensures r == ParseParameter(text)
  {
    var separator := Index(text, '=');
    if separator == |text| {
      return Ok(Parameter(text, []));
    }
    if separator == 0 {
      return Err(NoParameterName);
    }
    var value := DecodeValue(text[separator + 1..]);
    if value.Err? {
      return Err(value.error);
    }
    return Ok(Parameter(text[..separator], value.value));
  }

  method ParseRow(text: string) returns (r: Result<Row, Error>)
    ensures r == ParsedRow(text)
  {
    var parameters: Row := [];
    var offset := 0;
    assert text[0..] == text;
    AfterNothing(ParsedRow(text));
    while offset < |text|
      invariant 0 <= offset <= |text|
      invariant After(parameters, ParsedRow(text[offset..])) == ParsedRow(text)
    {
      ghost var row := text[offset..];
      offset := FindWord(text, offset);
      var words := text[offset..];
      assert words == SkipSpaces(row);
      if offset == |text| {
        assert words == [] && parameters + [] == parameters;
        return Ok(parameters);
      }
      var end := Index(words, ' ');
      var parameter := ParseWord(words[..end]);
      if parameter.Err? {
        return Err(parameter.error);
      }
      ghost var rest := if end == |words| then Ok([]) else ParsedRow(words[end + 1..]);
      assert ParsedRow(row) == Follow(parameter, rest);
      AfterStep(parameters, parameter.value, rest);
      parameters := parameters + [parameter.value];
      if end == |words| {
        assert parameters + [] == parameters;
        return Ok(parameters);
      }
      assert words[end + 1..] == text[offset + end + 1..];
      offset := offset + end + 1;
    }
    assert parameters + [] == parameters && text[offset..] == [];
    return Ok(parameters);
  }

  function After<T>(done: seq<T>, rest: Result<seq<T>, Error>): Result<seq<T>, Error> {
    if rest.Ok? then Ok(done + rest.value) else rest
  }

  lemma AfterNothing<T>(rest: Result<seq<T>, Error>)
    ensures After([], rest) == rest
  {
    if rest.Ok? {
      assert [] + rest.value == rest.value;
    }
  }

  lemma AfterStep<T>(done: seq<T>, next: T, rest: Result<seq<T>, Error>)
    ensures After(done, Follow(Ok(next), rest)) == After(done + [next], rest)
  {
    if rest.Ok? {
      assert done + ([next] + rest.value) == done + [next] + rest.value;
    }
  }

  /** The rows after the bar at `end`, if there is one. */
  function RowsAfter(text: string, end: nat): Result<seq<Row>, Error>
    requires end <= |text|
  {
    if end == |text| then Ok([]) else ParsedRows(text[end + 1..])
  }

  /** One more row has been parsed, or could not be. */
  lemma RowsStep(done: seq<Row>, text: string, end: nat, row: Result<Row, Error>)
    requires end == Index(text, '|') && row == ParsedRow(text[..end])
    ensures After(done, ParsedRows(text)) ==
            if end == 0 then Err(EmptyRow)
            else if row.Err? then Err(row.error)
            else After(done + [row.value], RowsAfter(text, end))
  {
    if row.Ok? {
      AfterStep(done, row.value, RowsAfter(text, end));
    }
  }

  method ParseRows(data: string) returns (r: Result<seq<Row>, Error>)
    ensures r == ParsedRows(data)
  {
    var rows: seq<Row> := [];
    var text := data;
    AfterNothing(ParsedRows(data));
    while true
      invariant After(rows, ParsedRows(text)) == ParsedRows(data)
      decreases |text|
    {
      var length := Index(text, '|');
      RowsStep(rows, text, length, ParsedRow(text[..length]));
      if length == 0 {
        return Err(EmptyRow);
      }
      var row := ParseRow(text[..length]);
      if row.Err? {
        return Err(row.error);
      }
      rows := rows + [row.value];
      if length == |text| {
        assert rows + [] == rows;
        return Ok(rows);
      }
      text := text[length + 1..];
    }
  }

  method Parse(text: string) returns (r: Result<Command, Error>)
    ensures r == Parsed(text)
  {
    var length := |text|;
    assert text[..length] == text;
    while length > 0 && LineEnd(text[length - 1])
      invariant 0 <= length <= |text|
      invariant Trimmed(text[..length]) == Trimmed(text)
    {
      assert text[..length][..length - 1] == text[..length - 1];
      length := length - 1;
    }
    var trimmed := text[..length];
    if trimmed == [] {
      return Err(EmptyCommand);
    }
    var nameEnd := Index(trimmed, ' ');
    if nameEnd == |trimmed| {
      return Ok(Command(trimmed, []));
    }
    var name := trimmed[..nameEnd];
    if name == [] {
      return Err(NoCommandName);
    }
    var dataStart := FindWord(trimmed, nameEnd);
    if dataStart == |trimmed| {
      return Ok(Command(name, []));
    }
    var rows := ParseRows(trimmed[dataStart..]);
    if rows.Err? {
      return Err(rows.error);
    }
    return Ok(Command(name, rows.value));
  }

  // ---------------------------------------------------------------- parsing is compositional

  function Joined<T>(first: Result<seq<T>, Error>, second: Result<seq<T>, Error>): Result<seq<T>, Error> {
    if first.Err? then first else if second.Err? then second else Ok(first.value + second.value)
  }

  lemma JoinedFollow<T>(first: Result<T, Error>, rest: Result<seq<T>, Error>, more: Result<seq<T>, Error>)
    ensures Joined(Follow(first, rest), more) == Follow(first, Joined(rest, more))
  {
    if first.Ok? && rest.Ok? && more.Ok? {
      assert [first.value] + rest.value + more.value == [first.value] + (rest.value + more.value);
    }
  }

  lemma JoinedNothing<T>(r: Result<seq<T>, Error>)
    ensures Joined(Ok([]), r) == r && Joined(r, Ok([])) == r
  {
    if r.Ok? {
      assert [] + r.value == r.value && r.value + [] == r.value;
    }
  }

  lemma {:induction false} SkipAppend(a: string, b: string)
    ensures SkipSpaces(a + b) == if SkipSpaces(a) == [] then SkipSpaces(b) else SkipSpaces(a) + b
  {
    if a == [] {
      assert a + b == b;
    } else {
      assert (a + b)[1..] == a[1..] + b;
      if a[0] == ' ' {
        SkipAppend(a[1..], b);
      }
    }
  }

  lemma IndexUnique(text: string, c: char, i: nat)
    requires i <= |text| && (i < |text| ==> text[i] == c) && c !in text[..i]
    ensures Index(text, c) == i
  {
  }

  /** The separator splits a text at its first occurrence, whatever follows. */
  lemma IndexAppend(a: string, c: char, b: string)
    ensures Index(a + [c] + b, c) == Index(a, c)
  {
    var i := Index(a, c);
    assert (a + [c] + b)[..i] == a[..i];
    IndexUnique(a + [c] + b, c, i);
  }

  /** Rows are parsed word by word: a space joins what is parsed on either side. */
  lemma {:induction false} RowAppend(a: string, b: string)
    ensures ParsedRow(a + " " + b) == Joined(ParsedRow(a), ParsedRow(b))
    decreases |a|
  {
    var text := a + " " + b;
    assert text == a + (" " + b);
    SkipAppend(a, " " + b);
    SkipAppend(" ", b);
    var words := SkipSpaces(a);
    if words == [] {
      assert SkipSpaces(text) == SkipSpaces(b);
      JoinedNothing(ParsedRow(b));
    } else {
      RowAppendWord(a, b, words);
    }
  }

  lemma {:induction false} RowAppendWord(a: string, b: string, words: string)
    requires words == SkipSpaces(a) && words != [] && SkipSpaces(a + " " + b) == words + (" " + b)
    ensures ParsedRow(a + " " + b) == Joined(ParsedRow(a), ParsedRow(b))
    decreases |a|, 0
  {
    SkipShortens(a);
    var all := words + " " + b;
    assert all == words + (" " + b);
    IndexAppend(words, ' ', b);
    var end := Index(words, ' ');
    assert all[..end] == words[..end];
    var first := ParseParameter(words[..end]);
    if end == |words| {
      assert all[end + 1..] == b;
      JoinedFollow(first, Ok([]), ParsedRow(b));
      JoinedNothing(ParsedRow(b));
    } else {
      assert all[end + 1..] == words[end + 1..] + " " + b;
      RowAppend(words[end + 1..], b);
      JoinedFollow(first, ParsedRow(words[end + 1..]), ParsedRow(b));
    }
  }

  /** A word is a bare name, or a name and an escaped value around the first equals sign; a word that begins with one is refused. */
  lemma ParameterMeaning(name: string, value: string)
    requires '=' !in name
    ensures ParseParameter(name) == Ok(Parameter(name, []))
    ensures ParseParameter(name + "=" + value) ==
            if name == [] then Err(NoParameterName)
            else if Decoded(value).Err? then Err(Decoded(value).error)
            else Ok(Parameter(name, Decoded(value).value))
  {
    IndexUnique(name, '=', |name|);
    IndexAppend(name, '=', value);
    var text := name + "=" + value;
    assert text[..|name|] == name && text[|name| + 1..] == value;
  }

  /** Between spaces there is one word, or nothing. */
  lemma RowOfOneWord(word: string)
    requires ' ' !in word
    ensures ParsedRow(word) == if word == [] then Ok([])
                               else if ParseParameter(word).Err? then Err(ParseParameter(word).error)
                               else Ok([ParseParameter(word).value])
  {
    IndexUnique(word, ' ', |word|);
    assert word[..|word|] == word && (word != [] ==> word[0] in word);
    FollowNothing(ParseParameter(word));
  }

  /** Between bars there is one row, which must not be empty. */
  lemma RowsOfOneRow(row: string)
    requires '|' !in row
    ensures ParsedRows(row) == if row == [] then Err(EmptyRow)
                               else if ParsedRow(row).Err? then Err(ParsedRow(row).error)
                               else Ok([ParsedRow(row).value])
  {
    IndexUnique(row, '|', |row|);
    assert row[..|row|] == row;
    FollowNothing(ParsedRow(row));
  }

  lemma FollowNothing<T>(first: Result<T, Error>)
    ensures Follow(first, Ok([])) == if first.Err? then Err(first.error) else Ok([first.value])
  {
    if first.Ok? {
      assert [first.value] + [] == [first.value];
    }
  }

  /** A command without its line end is a name, or a name, a space and the rows; nothing at all and a missing name are refused. */
  lemma CommandMeaning(name: string, rest: string)
    requires ' ' !in name
    ensures ParsedTrimmed(name) == if name == [] then Err(EmptyCommand) else Ok(Command(name, []))
    ensures ParsedTrimmed(name + " " + rest) ==
            if name == [] then Err(NoCommandName)
            else if SkipSpaces(rest) == [] then Ok(Command(name, []))
            else if ParsedRows(SkipSpaces(rest)).Err? then Err(ParsedRows(SkipSpaces(rest)).error)
            else Ok(Command(name, ParsedRows(SkipSpaces(rest)).value))
  {
    IndexUnique(name, ' ', |name|);
    IndexAppend(name, ' ', rest);
    var text := name + " " + rest;
    assert text[..|name|] == name && text[|name|..] == " " + rest;
    assert (" " + rest)[1..] == rest && text[|name| + 1..] == rest;
  }

  /** Line ends at the end do not matter. */
  lemma LineEndsAreTrimmed(text: string, c: char)
    requires LineEnd(c)
    ensures Parsed(text + [c]) == Parsed(text)
  {
    assert (text + [c])[..|text|] == text;
  }

  /** Likewise a bar joins the rows on either side. */
  lemma {:induction false} RowsAppend(a: string, b: string)
    ensures ParsedRows(a + "|" + b) == Joined(ParsedRows(a), ParsedRows(b))
    decreases |a|
  {
    var all := a + "|" + b;
    IndexAppend(a, '|', b);
    var end := Index(a, '|');
    if end > 0 {
      assert all[..end] == a[..end];
      var first := ParsedRow(a[..end]);
      if end == |a| {
        assert all[end + 1..] == b;
        JoinedFollow(first, Ok([]), ParsedRows(b));
        JoinedNothing(ParsedRows(b));
      } else {
        assert all[end + 1..] == a[end + 1..] + "|" + b;
        RowsAppend(a[end + 1..], b);
        JoinedFollow(first, ParsedRows(a[end + 1..]), ParsedRows(b));
      }
    }
  }

  // ---------------------------------------------------------------- writing

  /** A parameter as it is written, with or without a value. */
  datatype Written = Written(name: string, value: Option<string>)

  predicate ValidName(name: string) {
    name != [] && NUL !in name && ' ' !in name && '=' !in name && '|' !in name
  }

  predicate Sound(w: Written) {
    ValidName(w.name) && (w.value.Some? ==> NUL !in w.value.value)
  }

  function WordOf(w: Written): string {
    match w.value
    case None => w.name
    case Some(value) => w.name + "=" + Encoded(value)
  }

  function RowText(row: seq<Written>): string {
    if row == [] then []
    else if |row| == 1 then WordOf(row[0])
    else RowText(row[..|row| - 1]) + " " + WordOf(row[|row| - 1])
  }

  function RowsText(rows: seq<seq<Written>>): string {
    if rows == [] then []
    else if |rows| == 1 then RowText(rows[0])
    else RowsText(rows[..|rows| - 1]) + "|" + RowText(rows[|rows| - 1])
  }

  /** The text of a command with the given rows, the last of which may still be empty. */
  function CommandText(name: string, rows: seq<seq<Written>>): string {
    if rows == [[]] then name else name + " " + RowsText(rows)
  }

  /** Append a parameter to the last row. */
  function WithParameter(rows: seq<seq<Written>>, w: Written): seq<seq<Written>>
    requires rows != []
  {
    rows[|rows| - 1 := rows[|rows| - 1] + [w]]
  }

  ghost predicate AllSound(rows: seq<seq<Written>>) {
    forall i :: 0 <= i < |rows| ==> SoundRow(rows[i])
  }

  ghost predicate SoundRow(row: seq<Written>) {
    forall i :: 0 <= i < |row| ==> Sound(row[i])
  }

  /** A writer's text and flags stand for the rows written so far. */
  ghost predicate Represents(data: string, firstRow: bool, rowHasParameter: bool, name: string, rows: seq<seq<Written>>) {
    && rows != [] && data == CommandText(name, rows)
    && (firstRow <==> |rows| == 1) && (rowHasParameter <==> rows[|rows| - 1] != [])
    && ValidName(name) && AllSound(rows)
    && (forall i :: 0 <= i < |rows| - 1 ==> rows[i] != [])
  }

  function Separator(firstRow: bool, rowHasParameter: bool): string {
    if firstRow || rowHasParameter then " " else ""
  }

  class CommandWriter {
    var data: string
    var firstRow: bool
    var rowHasParameter: bool

    /** What has been written so far. */
    ghost var name: string
    ghost var rows: seq<seq<Written>>

    ghost predicate Valid()
      reads this
    {
      Represents(data, firstRow, rowHasParameter, name, rows)
    }

    constructor (name: string)
      requires ValidName(name)
      ensures Valid() && this.name == name && rows == [[]]
    {
      data, firstRow, rowHasParameter := name, true, false;
      this.name, rows := name, [[]];
    }

    /** Begin a command; an invalid name is refused. */
    static method Begin(name: string) returns (writer: Option<CommandWriter>)
      ensures writer.Some? <==> ValidName(name)
      ensures writer.Some? ==> fresh(writer.value) && writer.value.Valid()
                               && writer.value.name == name && writer.value.rows == [[]]
    {
      if !ValidName(name) {
        return None;
      }
      var w := new CommandWriter(name);
      return Some(w);
    }

    method Write(parameter: Written) returns (error: Option<Error>)
      requires Valid()
      modifies this
      ensures name == old(name)
      ensures error == if !ValidName(parameter.name) then Some(InvalidName)
                       else if !Sound(parameter) then Some(NullInValue) else None
      ensures error == Some(InvalidName) ==> Valid() && unchanged(this)
      ensures error == Some(NullInValue) ==>
                && rows == old(rows) && firstRow == old(firstRow) && rowHasParameter == old(rowHasParameter)
                && data == old(data) + (Separator(firstRow, rowHasParameter) + (parameter.name + "="))
      ensures error.None? ==> Valid() && rows == WithParameter(old(rows), parameter)
    {
      if !ValidName(parameter.name) {
        return Some(InvalidName);
      }
      var error' := WriteWord(parameter);
      if error'.Some? {
        return error';
      }
      ParameterRepresented(old(data), firstRow, rowHasParameter, name, rows, parameter);
      rowHasParameter := true;
      rows := WithParameter(rows, parameter);
      return None;
    }

    /** Append a separator if one is due, the name, and the value if there is one. */
    method WriteWord(parameter: Written) returns (error: Option<Error>)
      modifies this`data
      ensures error == if parameter.value.Some? && NUL in parameter.value.value then Some(NullInValue) else None
      ensures data == old(data) + (Separator(firstRow, rowHasParameter)
                                   + if error.None? then WordOf(parameter) else parameter.name + "=")
    {
      var separator := Separator(firstRow, rowHasParameter);
      if parameter.value.None? {
        data := data + (separator + parameter.name);
        return None;
      }
      var encoded := EncodeValue(parameter.value.value);
      if encoded.Err? {
        data := data + (separator + (parameter.name + "="));
        return Some(encoded.error);
      }
      data := data + (separator + (parameter.name + "=" + encoded.value));
      return None;
    }

    method NextRow() returns (error: Option<Error>)
      requires Valid()
      modifies this
      ensures Valid() && name == old(name)
      ensures error == if old(rows)[|old(rows)| - 1] == [] then Some(EmptyRowWritten) else None
      ensures rows == if error.None? then old(rows) + [[]] else old(rows)
    {
      if !rowHasParameter {
        return Some(EmptyRowWritten);
      }
      NextRowRepresented(data, firstRow, name, rows);
      data := data + "|";
      firstRow, rowHasParameter := false, false;
      rows := rows + [[]];
      return None;
    }

    method Take() returns (r: Result<string, Error>)
      requires Valid()
      ensures r == if Complete(rows) then Ok(CommandText(name, rows)) else Err(TrailingEmptyRow)
    {
      if !firstRow && !rowHasParameter {
        return Err(TrailingEmptyRow);
      }
      return Ok(data);
    }
  }

  /** A command may be taken if it has no parameters at all or none of its rows is empty. */
  predicate Complete(rows: seq<seq<Written>>) {
    rows == [[]] || (rows != [] && forall i :: 0 <= i < |rows| ==> rows[i] != [])
  }

  lemma Associates(a: string, b: string, c: string)
    ensures a + (b + c) == a + b + c
  {
  }

  /** What appending a parameter appends to the text. */
  lemma ParameterText(name: string, rows: seq<seq<Written>>, w: Written)
    requires rows != []
    ensures var separator := if |rows| == 1 || rows[|rows| - 1] != [] then " " else "";
            CommandText(name, WithParameter(rows, w)) == CommandText(name, rows) + (separator + WordOf(w))
  {
    var head, row := rows[..|rows| - 1], rows[|rows| - 1];
    var grown := WithParameter(rows, w);
    assert rows == head + [row] && grown == head + [row + [w]];
    if rows == [[]] {
      assert row + [w] == [w];
      assert grown == [[w]];
      FirstParameterText(name, w);
    } else {
      RowsGrow(head, row, w);
      LaterParameterText(name, rows, grown, (if row != [] then " " else "") + WordOf(w));
    }
  }

  lemma FirstParameterText(name: string, w: Written)
    ensures CommandText(name, [[w]]) == name + (" " + WordOf(w))
  {
    LastRowText([], [w]);
    RowGrows([], w);
    assert [] + [[w]] == [[w]] && [] + [w] == [w];
    Associates(name, " ", WordOf(w));
  }

  lemma LaterParameterText(name: string, rows: seq<seq<Written>>, grown: seq<seq<Written>>, more: string)
    requires rows != [[]] && grown != [[]] && RowsText(grown) == RowsText(rows) + more
    ensures CommandText(name, grown) == CommandText(name, rows) + more
  {
    Associates(name + " ", RowsText(rows), more);
  }

  /** A parameter in the last row adds its word, after a space unless it is the first. */
  lemma RowsGrow(head: seq<seq<Written>>, row: seq<Written>, w: Written)
    ensures RowsText(head + [row + [w]]) == RowsText(head + [row]) + ((if row != [] then " " else "") + WordOf(w))
  {
    var more := (if row != [] then " " else "") + WordOf(w);
    RowGrows(row, w);
    assert RowText(row + [w]) == RowText(row) + more;
    LastRowText(head, row);
    LastRowText(head, row + [w]);
    if head != [] {
      Associates(RowsText(head) + "|", RowText(row), more);
    }
  }

  /** The text of several rows ends with that of the last. */
  lemma LastRowText(rows: seq<seq<Written>>, last: seq<Written>)
    ensures RowsText(rows + [last]) == if rows == [] then RowText(last) else RowsText(rows) + "|" + RowText(last)
  {
    assert (rows + [last])[..|rows|] == rows;
  }

  lemma ParameterRepresented(data: string, firstRow: bool, rowHasParameter: bool, name: string, rows: seq<seq<Written>>, w: Written)
    requires Represents(data, firstRow, rowHasParameter, name, rows) && Sound(w)
    ensures Represents(data + (Separator(firstRow, rowHasParameter) + WordOf(w)), firstRow, true, name, WithParameter(rows, w))
  {
    ParameterText(name, rows, w);
    var grown := WithParameter(rows, w);
    assert SoundRow(rows[|rows| - 1]) && grown[|rows| - 1] == rows[|rows| - 1] + [w];
    assert forall i :: 0 <= i < |rows| - 1 ==> grown[i] == rows[i];
  }

  lemma NextRowRepresented(data: string, firstRow: bool, name: string, rows: seq<seq<Written>>)
    requires Represents(data, firstRow, true, name, rows)
    ensures Represents(data + "|", false, false, name, rows + [[]])
  {
    NextRowText(name, rows);
    var grown := rows + [[]];
    assert forall i :: 0 <= i < |grown| - 1 ==> grown[i] == rows[i];
  }

  lemma NextRowText(name: string, rows: seq<seq<Written>>)
    requires rows != [] && rows != [[]]
    ensures CommandText(name, rows + [[]]) == CommandText(name, rows) + "|"
  {
    LastRowText(rows, []);
  }

  lemma RowGrows(row: seq<Written>, w: Written)
    ensures RowText(row + [w]) == if row == [] then WordOf(w) else RowText(row) + (" " + WordOf(w))
  {
    assert (row + [w])[..|row|] == row;
  }

  // ---------------------------------------------------------------- parsing undoes writing

  /** How a written parameter reads: a parameter without a value has the empty one. */
  function Read(w: Written): Parameter {
    Parameter(w.name, if w.value.Some? then w.value.value else [])
  }

  function ReadRow(row: seq<Written>): Row {
    if row == [] then [] else ReadRow(row[..|row| - 1]) + [Read(row[|row| - 1])]
  }

  function ReadRows(rows: seq<seq<Written>>): seq<Row> {
    if rows == [] then [] else ReadRows(rows[..|rows| - 1]) + [ReadRow(rows[|rows| - 1])]
  }

  function ReadCommand(name: string, rows: seq<seq<Written>>): Command {
    Command(name, if rows == [[]] then [] else ReadRows(rows))
  }

  lemma WordParses(w: Written)
    requires Sound(w)
    ensures var word := WordOf(w);
            word != [] && ' ' !in word && '|' !in word && ParseParameter(word) == Ok(Read(w))
  {
    var word := WordOf(w);
    match w.value
    case None =>
      assert word[..|word|] == word;
      IndexUnique(word, '=', |word|);
    case Some(value) =>
      EncodedIsPlain(value);
      DecodeUndoesEncode(value);
      assert word[..|w.name|] == w.name && word[|w.name| + 1..] == Encoded(value);
      IndexUnique(word, '=', |w.name|);
  }

  lemma WordIsRow(w: Written)
    requires Sound(w)
    ensures ParsedRow(WordOf(w)) == Ok([Read(w)])
  {
    var word := WordOf(w);
    WordParses(w);
    assert word[0] in word;
    assert word[..|word|] == word;
    IndexUnique(word, ' ', |word|);
    assert [Read(w)] + [] == [Read(w)];
  }

  lemma {:induction false} RowParses(row: seq<Written>)
    requires row != [] && SoundRow(row)
    ensures var text := RowText(row);
            text != [] && text[0] != ' ' && '|' !in text && ParsedRow(text) == Ok(ReadRow(row))
  {
    var last := |row| - 1;
    WordParses(row[last]);
    WordIsRow(row[last]);
    assert row == row[..last] + [row[last]];
    RowGrows(row[..last], row[last]);
    if last == 0 {
      assert WordOf(row[0])[0] in WordOf(row[0]);
      assert ReadRow(row[..0]) + [Read(row[0])] == [Read(row[0])];
    } else {
      RowParses(row[..last]);
      RowAndWord(RowText(row[..last]), WordOf(row[last]));
    }
  }

  lemma RowAndWord(text: string, word: string)
    requires text != [] && ParsedRow(text).Ok? && ParsedRow(word).Ok? && '|' !in text && '|' !in word
    ensures var both := text + (" " + word);
            && both != [] && both[0] == text[0] && '|' !in both
            && ParsedRow(both) == Ok(ParsedRow(text).value + ParsedRow(word).value)
  {
    Associates(text, " ", word);
    RowAppend(text, word);
  }

  lemma {:induction false} RowIsRows(row: seq<Written>)
    requires row != [] && SoundRow(row)
    ensures ParsedRows(RowText(row)) == Ok([ReadRow(row)])
  {
    var text := RowText(row);
    RowParses(row);
    assert text[..|text|] == text;
    IndexUnique(text, '|', |text|);
    assert [ReadRow(row)] + [] == [ReadRow(row)];
  }

  lemma {:induction false} RowsParse(rows: seq<seq<Written>>)
    requires rows != [] && AllSound(rows) && forall i :: 0 <= i < |rows| ==> rows[i] != []
    ensures var text := RowsText(rows);
            text != [] && text[0] != ' ' && ParsedRows(text) == Ok(ReadRows(rows))
  {
    var last := |rows| - 1;
    RowIsRows(rows[last]);
    RowParses(rows[last]);
    if last == 0 {
      assert ReadRows(rows[..0]) + [ReadRow(rows[0])] == [ReadRow(rows[0])];
    } else {
      RowsParse(rows[..last]);
      RowsAppend(RowsText(rows[..last]), RowText(rows[last]));
    }
  }

  /** A name, a space and data that does not start with one. */
  lemma {:induction false} NameAndData(name: string, data: string)
    requires ValidName(name) && (data == [] || data[0] != ' ')
    ensures ParsedTrimmed(name + " " + data) ==
            if data == [] then Ok(Command(name, []))
            else match ParsedRows(data)
              case Err(e) => Err(e)
              case Ok(rows) => Ok(Command(name, rows))
  {
    var text := name + " " + data;
    assert text[..|name|] == name && text[|name|..] == " " + data;
    IndexUnique(text, ' ', |name|);
    SkipAppend(" ", data);
  }

  lemma {:induction false} CompleteTextParses(name: string, rows: seq<seq<Written>>)
    requires ValidName(name) && AllSound(rows) && Complete(rows)
    ensures ParsedTrimmed(CommandText(name, rows)) == Ok(ReadCommand(name, rows))
  {
    if rows == [[]] {
      assert name[..|name|] == name;
      IndexUnique(name, ' ', |name|);
    } else {
      RowsParse(rows);
      NameAndData(name, RowsText(rows));
    }
  }

  /** The last thing written is a bare name that ends in a line end. */
  predicate OpenEnded(name: string, rows: seq<seq<Written>>)
    requires Complete(rows)
  {
    if rows == [[]] then EndsInLineEnd(name)
    else
      LastParameter(rows).value.None? && EndsInLineEnd(LastParameter(rows).name)
  }

  predicate EndsInLineEnd(text: string) {
    text != [] && LineEnd(text[|text| - 1])
  }

  lemma WordEnds(w: Written)
    requires Sound(w)
    ensures EndsInLineEnd(WordOf(w)) <==> w.value.None? && EndsInLineEnd(w.name)
  {
    if w.value.Some? {
      var encoded := Encoded(w.value.value);
      EncodedIsPlain(w.value.value);
      assert encoded != [] ==> Plain(encoded[|encoded| - 1]) && WordOf(w)[|WordOf(w)| - 1] == encoded[|encoded| - 1];
    }
  }

  /** The rows as they were before the last parameter was written. */
  function BeforeLast(rows: seq<seq<Written>>): seq<seq<Written>>
    requires rows != [] && rows[|rows| - 1] != []
  {
    var row := rows[|rows| - 1];
    rows[|rows| - 1 := row[..|row| - 1]]
  }

  function LastParameter(rows: seq<seq<Written>>): Written
    requires rows != [] && rows[|rows| - 1] != []
  {
    rows[|rows| - 1][|rows[|rows| - 1]| - 1]
  }

  /** The text of a command with parameters is that before the last one, a separator if due, and its word. */
  lemma {:induction false} TextBeforeLast(name: string, rows: seq<seq<Written>>)
    requires rows != [] && rows[|rows| - 1] != []
    ensures var earlier := BeforeLast(rows);
            var separator := if |rows| == 1 || earlier[|rows| - 1] != [] then " " else "";
            CommandText(name, rows) == CommandText(name, earlier) + separator + WordOf(LastParameter(rows))
  {
    var earlier, last := BeforeLast(rows), LastParameter(rows);
    assert earlier[|rows| - 1] + [last] == rows[|rows| - 1];
    assert WithParameter(earlier, last) == rows;
    ParameterText(name, earlier, last);
    var separator := if |rows| == 1 || earlier[|rows| - 1] != [] then " " else "";
    Associates(CommandText(name, earlier), separator, WordOf(last));
  }

  lemma {:induction false} TrimmedAppend(prefix: string, text: string)
    ensures Trimmed(prefix + text) == if Trimmed(text) == [] then Trimmed(prefix) else prefix + Trimmed(text)
  {
    if text == [] {
      assert prefix + text == prefix;
    } else {
      assert (prefix + text)[..|prefix + text| - 1] == prefix + text[..|text| - 1];
      if LineEnd(text[|text| - 1]) {
        TrimmedAppend(prefix, text[..|text| - 1]);
      }
    }
  }

  lemma {:induction false} TrimmedPrefix(text: string)
    ensures |Trimmed(text)| <= |text| && Trimmed(text) == text[..|Trimmed(text)|]
    ensures EndsInLineEnd(text) ==> |Trimmed(text)| < |text|
    ensures !EndsInLineEnd(Trimmed(text))
  {
    if EndsInLineEnd(text) {
      TrimmedPrefix(text[..|text| - 1]);
    }
  }

  lemma SuffixEnds(prefix: string, word: string)
    requires word != []
    ensures EndsInLineEnd(prefix + word) <==> EndsInLineEnd(word)
  {
  }

  lemma LastIsSound(rows: seq<seq<Written>>)
    requires AllSound(rows) && rows != [] && rows[|rows| - 1] != []
    ensures Sound(LastParameter(rows)) && AllSound(BeforeLast(rows))
  {
  }

  /** The text ends in a line end exactly if the last thing written is a bare name that does. */
  lemma TextEnds(name: string, rows: seq<seq<Written>>)
    requires ValidName(name) && AllSound(rows) && Complete(rows)
    ensures EndsInLineEnd(CommandText(name, rows)) <==> OpenEnded(name, rows)
  {
    if rows != [[]] {
      var earlier, last := BeforeLast(rows), LastParameter(rows);
      var separator := if |rows| == 1 || earlier[|rows| - 1] != [] then " " else "";
      TextBeforeLast(name, rows);
      LastIsSound(rows);
      WordParses(last);
      SuffixEnds(CommandText(name, earlier) + separator, WordOf(last));
      WordEnds(last);
    }
  }

  /** A command without line end at its end reads back as written. */
  lemma {:induction false} ClosedTextRoundTrips(name: string, rows: seq<seq<Written>>)
    requires ValidName(name) && AllSound(rows) && Complete(rows) && !OpenEnded(name, rows)
    ensures Parsed(CommandText(name, rows)) == Ok(ReadCommand(name, rows))
  {
    CompleteTextParses(name, rows);
    TextEnds(name, rows);
  }

  /** Without its last parameter, but with the separator before it, the text never parses to the same command. */
  lemma WithoutLastDiffers(name: string, rows: seq<seq<Written>>)
    requires ValidName(name) && AllSound(rows) && Complete(rows) && rows != [[]]
    ensures var earlier := BeforeLast(rows);
            var before := CommandText(name, earlier) + if |rows| == 1 || earlier[|rows| - 1] != [] then " " else "";
            before != [] && !EndsInLineEnd(before) && ParsedTrimmed(before) != Ok(ReadCommand(name, rows))
  {
    var earlier := BeforeLast(rows);
    LastIsSound(rows);
    if earlier[|rows| - 1] != [] {
      ShorterRowParses(name, earlier);
      ReadRowsDiffer(rows);
    } else if |rows| == 1 {
      assert earlier == [[]] && name + " " + [] == name + " ";
      NameAndData(name, []);
      assert ReadRows(rows) != [];
    } else {
      var head := rows[..|rows| - 1];
      assert earlier == head + [[]];
      assert AllSound(head) by {
        assert forall i :: 0 <= i < |head| ==> head[i] == rows[i];
      }
      EmptyLastRowFails(name, head);
      assert CommandText(name, earlier) + "" == CommandText(name, earlier);
    }
  }

  lemma TrailingSpaceInRow(text: string)
    ensures ParsedRow(text + " ") == ParsedRow(text)
  {
    RowAppend(text, []);
    assert text + " " + [] == text + " ";
    JoinedNothing(ParsedRow(text));
  }

  /** A text without bars is one row. */
  lemma {:induction false} SingleRow(text: string)
    requires text != [] && '|' !in text
    ensures ParsedRows(text) == Follow(ParsedRow(text), Ok([]))
  {
    assert text[..|text|] == text;
    IndexUnique(text, '|', |text|);
  }

  /** What precedes the first bar is the first row. */
  lemma FirstRow(row: string, rest: string)
    requires row != [] && '|' !in row
    ensures ParsedRows(row + "|" + rest) == Follow(ParsedRow(row), ParsedRows(rest))
  {
    var text := row + "|" + rest;
    assert text[..|row|] == row && text[|row| + 1..] == rest;
    IndexUnique(text, '|', |row|);
  }

  /** A space at the end of the last row goes unnoticed. */
  lemma {:induction false} TrailingSpace(text: string)
    requires text != [] && text[|text| - 1] != '|'
    ensures ParsedRows(text + " ") == ParsedRows(text)
    decreases |text|
  {
    var end := Index(text, '|');
    if end == |text| {
      assert text[..end] == text;
      TrailingSpaceInRow(text);
      SingleRow(text);
      SingleRow(text + " ");
    } else {
      var row, rest := text[..end], text[end + 1..];
      assert text == row + "|" + rest;
      TrailingSpace(rest);
      TrailingSpaceAfter(row, rest);
    }
  }

  lemma TrailingSpaceAfter(row: string, rest: string)
    requires '|' !in row && ParsedRows(rest + " ") == ParsedRows(rest)
    ensures ParsedRows(row + "|" + rest + " ") == ParsedRows(row + "|" + rest)
  {
    assert row + "|" + rest + " " == row + "|" + (rest + " ");
    if row != [] {
      FirstRow(row, rest);
      FirstRow(row, rest + " ");
    } else {
      IndexUnique(row + "|" + rest, '|', 0);
      IndexUnique(row + "|" + (rest + " "), '|', 0);
    }
  }

  lemma {:induction false} RowsTextEnds(rows: seq<seq<Written>>)
    requires rows != [] && AllSound(rows) && forall i :: 0 <= i < |rows| ==> rows[i] != []
    ensures var text := RowsText(rows); text != [] && text[|text| - 1] != '|'
  {
    var row := rows[|rows| - 1];
    assert rows == rows[..|rows| - 1] + [row] && SoundRow(row);
    RowParses(row);
    assert RowText(row)[|RowText(row)| - 1] in RowText(row);
  }

  lemma {:induction false} ShorterRowParses(name: string, rows: seq<seq<Written>>)
    requires ValidName(name) && AllSound(rows) && rows != [] && forall i :: 0 <= i < |rows| ==> rows[i] != []
    ensures ParsedTrimmed(CommandText(name, rows) + " ") == Ok(Command(name, ReadRows(rows)))
  {
    var text := RowsText(rows);
    RowsParse(rows);
    RowsTextEnds(rows);
    TrailingSpace(text);
    NameAndData(name, text + " ");
    Associates(name + " ", text, " ");
  }

  lemma {:induction false} ReadRowShape(row: seq<Written>)
    ensures |ReadRow(row)| == |row| && (row != [] ==> ReadRow(row)[|row| - 1] == Read(row[|row| - 1]))
  {
    if row != [] {
      ReadRowShape(row[..|row| - 1]);
    }
  }

  lemma {:induction false} ReadRowsShape(rows: seq<seq<Written>>)
    ensures |ReadRows(rows)| == |rows| && (rows != [] ==> ReadRows(rows)[|rows| - 1] == ReadRow(rows[|rows| - 1]))
  {
    if rows != [] {
      ReadRowsShape(rows[..|rows| - 1]);
    }
  }

  lemma {:induction false} ReadRowsDiffer(rows: seq<seq<Written>>)
    requires rows != [] && rows[|rows| - 1] != []
    ensures ReadRows(BeforeLast(rows)) != ReadRows(rows)
  {
    ReadRowsShape(rows);
    ReadRowsShape(BeforeLast(rows));
    ReadRowShape(rows[|rows| - 1]);
    ReadRowShape(BeforeLast(rows)[|rows| - 1]);
  }

  /** A bar at the end of the text is an error. */
  lemma EmptyLastRowFails(name: string, head: seq<seq<Written>>)
    requires ValidName(name) && AllSound(head) && head != [] && forall i :: 0 <= i < |head| ==> head[i] != []
    ensures ParsedTrimmed(CommandText(name, head + [[]])).Err?
    ensures !EndsInLineEnd(CommandText(name, head + [[]]))
  {
    RowsParse(head);
    NextRowText(name, head);
    var text := RowsText(head);
    RowsAppend(text, []);
    assert text + "|" + [] == text + "|";
    assert CommandText(name, head + [[]]) == name + " " + (text + "|");
    NameAndData(name, text + "|");
  }

  /** Rows that differ in the name of the last parameter read differently. */
  lemma {:induction false} RenamedDiffers(rows: seq<seq<Written>>, name: string)
    requires rows != [] && rows[|rows| - 1] != [] && name != LastParameter(rows).name
    ensures ReadRows(WithParameter(BeforeLast(rows), Written(name, None))) != ReadRows(rows)
  {
    var renamed := WithParameter(BeforeLast(rows), Written(name, None));
    ReadRowsShape(rows);
    ReadRowsShape(renamed);
    ReadRowShape(rows[|rows| - 1]);
    ReadRowShape(renamed[|rows| - 1]);
  }

  lemma TrimmedNameIsValid(name: string)
    requires ValidName(name) && Trimmed(name) != []
    ensures ValidName(Trimmed(name)) && (EndsInLineEnd(name) ==> Trimmed(name) != name)
  {
    TrimmedPrefix(name);
  }

  /** A command that ends in a line end does not read back: its last name is cut or lost. */
  lemma OpenTextDiffers(name: string, rows: seq<seq<Written>>)
    requires ValidName(name) && AllSound(rows) && Complete(rows) && OpenEnded(name, rows)
    ensures Parsed(CommandText(name, rows)) != Ok(ReadCommand(name, rows))
  {
    if rows == [[]] {
      TrimmedPrefix(name);
      if Trimmed(name) != [] {
        TrimmedNameIsValid(name);
        CompleteTextParses(Trimmed(name), [[]]);
      }
    } else {
      var earlier, last := BeforeLast(rows), LastParameter(rows);
      var separator := if |rows| == 1 || earlier[|rows| - 1] != [] then " " else "";
      var before := CommandText(name, earlier) + separator;
      TextBeforeLast(name, rows);
      TrimmedAppend(before, last.name);
      if Trimmed(last.name) == [] {
        WithoutLastDiffers(name, rows);
      } else {
        CutNameDiffers(name, rows);
      }
    }
  }

  lemma {:induction false} CutNameDiffers(name: string, rows: seq<seq<Written>>)
    requires ValidName(name) && AllSound(rows) && Complete(rows) && rows != [[]] && OpenEnded(name, rows)
    requires Trimmed(LastParameter(rows).name) != []
    ensures var earlier := BeforeLast(rows);
            var separator := if |rows| == 1 || earlier[|rows| - 1] != [] then " " else "";
            ParsedTrimmed(CommandText(name, earlier) + separator + Trimmed(LastParameter(rows).name))
            != Ok(ReadCommand(name, rows))
  {
    var earlier, cut := BeforeLast(rows), Written(Trimmed(LastParameter(rows).name), None);
    var separator := if |rows| == 1 || earlier[|rows| - 1] != [] then " " else "";
    LastIsSound(rows);
    TrimmedNameIsValid(LastParameter(rows).name);
    ParameterText(name, earlier, cut);
    Associates(CommandText(name, earlier), separator, cut.name);
    CompleteTextParses(name, WithParameter(earlier, cut));
    RenamedDiffers(rows, cut.name);
  }

  /**
   Parsing undoes writing for every command that can be taken from a writer,
   exactly unless the last thing written is a bare name ending in a line end.
   */
  lemma {:induction false} RoundTrip(name: string, rows: seq<seq<Written>>)
    requires ValidName(name) && AllSound(rows) && Complete(rows)
    ensures Parsed(CommandText(name, rows)) == Ok(ReadCommand(name, rows)) <==> !OpenEnded(name, rows)
  {
    if OpenEnded(name, rows) {
      OpenTextDiffers(name, rows);
    } else {
      ClosedTextRoundTrips(name, rows);
    }
  }

  /** A concrete command that does not survive: the bare parameter "x" followed by a carriage return. */
  lemma LineEndIsLost()
    ensures Parsed(CommandText("cmd", [[Written("x\r", None)]])) != Ok(ReadCommand("cmd", [[Written("x\r", None)]]))
  {
    var rows := [[Written("x\r", None)]];
    assert SoundRow(rows[0]);
    OpenTextDiffers("cmd", rows);
  }
}
