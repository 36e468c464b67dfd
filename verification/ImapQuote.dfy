/** IMAP quoted strings: what the program writes is what the grammar of RFC 3501, section 9,
    reads back. */
module ImapQuote {
  import opened Common
  import opened PyText

  // ---------------------------------------------------------------- writing

  /** The two replaces of `_q`, backslashes first. */
  function Escaped(name: string): string {
    ReplaceChar(ReplaceChar(name, '\\', "\\\\"), '\"', "\\\"")
  }

  function Quote(name: string): string {
    "\"" + Escaped(name) + "\""
  }

  function SearchCommand(query: string): string {
    "(OR OR FROM " + Quote(query) + " SUBJECT " + Quote(query) + " TEXT " + Quote(query) + ")"
  }

  // ---------------------------------------------------------------- reading

  predicate QuotedSpecial(c: char) {
    c == '\"' || c == '\\'
  }

  /** A seven-bit character other than NUL, CR and LF. */
  predicate TextChar(c: char) {
    1 <= c as int <= 127 && c != '\r' && c != '\n'
  }

  /** The characters up to the closing quote, and what follows it. */
  function ParseChars(text: string): Option<(string, string)>
    decreases |text|
  {
    if text == "" then None
    else if text[0] == '\"' then Some(("", text[1..]))
    else if text[0] == '\\' then
      if |text| < 2 || !QuotedSpecial(text[1]) then None else Prefixed(text[1], ParseChars(text[2..]))
    else if !TextChar(text[0]) then None
    else Prefixed(text[0], ParseChars(text[1..]))
  }

  function Prefixed(c: char, parsed: Option<(string, string)>): Option<(string, string)> {
    if parsed.None? then None else Some(([c] + parsed.value.0, parsed.value.1))
  }

  function ParseQuoted(text: string): Option<(string, string)> {
    if text == "" || text[0] != '\"' then None else ParseChars(text[1..])
  }

  // ---------------------------------------------------------------- round trip

  /** Each character on its own. */
  function EscapedChar(c: char): string {
    if QuotedSpecial(c) then ['\\', c] else [c]
  }

  function EscapedOneByOne(name: string): string {
    if name == "" then "" else EscapedChar(name[0]) + EscapedOneByOne(name[1..])
  }

  lemma EscapedSplits(c: char, rest: string)
    ensures Escaped([c] + rest) == EscapedChar(c) + Escaped(rest)
  {
    var doubled := if c == '\\' then "\\\\" else [c];
    assert ([c] + rest)[1..] == rest;
    assert ReplaceChar([c] + rest, '\\', "\\\\") == doubled + ReplaceChar(rest, '\\', "\\\\");
    ReplaceCharAppend(doubled, ReplaceChar(rest, '\\', "\\\\"), '\"', "\\\"");
    ReplaceOfShort(c, doubled);
  }

  lemma ReplaceOfShort(c: char, doubled: string)
    requires doubled == if c == '\\' then "\\\\" else [c]
    ensures ReplaceChar(doubled, '\"', "\\\"") == EscapedChar(c)
  {
    if c == '\\' {
      assert doubled[0] == '\\' && doubled[1..] == "\\" && doubled[1..][0] == '\\' && doubled[1..][1..] == "";
      assert ReplaceChar("\\", '\"', "\\\"") == "\\";
    } else {
      assert doubled[1..] == "";
    }
  }

  /** The two successive replaces are one escape per character. */
  lemma {:induction false} TwoReplacesAreOneEscape(name: string)
    ensures Escaped(name) == EscapedOneByOne(name)
    decreases |name|
  {
    if name != "" {
      assert name == [name[0]] + name[1..];
      EscapedSplits(name[0], name[1..]);
      TwoReplacesAreOneEscape(name[1..]);
    }
  }

  predicate AllTextChars(name: string) {
    forall i :: 0 <= i < |name| ==> TextChar(name[i])
  }

  /** Reading one escaped character. */
  lemma ParseEscapedChar(c: char, rest: string)
    ensures ParseChars(EscapedChar(c) + rest) == if TextChar(c) then Prefixed(c, ParseChars(rest)) else None
  {
    var text := EscapedChar(c) + rest;
    assert QuotedSpecial(c) ==> text[2..] == rest;
    assert !QuotedSpecial(c) ==> text[1..] == rest;
  }

  lemma {:induction false} ParseEscaped(name: string, suffix: string)
    ensures ParseChars(EscapedOneByOne(name) + "\"" + suffix)
            == if AllTextChars(name) then Some((name, suffix)) else None
    decreases |name|
  {
    if name == "" {
      assert (EscapedOneByOne(name) + "\"" + suffix)[1..] == suffix;
    } else {
      var rest := EscapedOneByOne(name[1..]) + "\"" + suffix;
      assert EscapedOneByOne(name) + "\"" + suffix == EscapedChar(name[0]) + rest;
      ParseEscapedChar(name[0], rest);
      ParseEscaped(name[1..], suffix);
      assert name == [name[0]] + name[1..];
    }
  }

  /** A quoted name followed by anything reads back as that name and the rest exactly when
      the grammar allows all its characters; otherwise it does not read at all. */
  lemma QuoteRoundTripsExactlyWhen(name: string, suffix: string)
    ensures ParseQuoted(Quote(name) + suffix) == if AllTextChars(name) then Some((name, suffix)) else None
  {
    TwoReplacesAreOneEscape(name);
    ParseEscaped(name, suffix);
    assert (Quote(name) + suffix)[1..] == EscapedOneByOne(name) + "\"" + suffix;
  }

  // ---------------------------------------------------------------- the search command

  datatype Key = Or(left: Key, right: Key) | From(text: string) | Subject(text: string) | Body(text: string)

  function WithText(make: string -> Key, parsed: Option<(string, string)>): Option<(Key, string)> {
    if parsed.None? then None else Some((make(parsed.value.0), parsed.value.1))
  }

  /** The search keys in use (RFC 3501, section 6.4.4): OR takes two keys. */
  function ParseKey(text: string): (r: Option<(Key, string)>)
    ensures r.Some? ==> |r.value.1| < |text|
    decreases |text|
  {
    if "OR " <= text then
      var left := ParseKey(text[3..]);
      if left.None? || left.value.1 == "" || left.value.1[0] != ' ' then None
      else
        var right := ParseKey(left.value.1[1..]);
        if right.None? then None else Some((Or(left.value.0, right.value.0), right.value.1))
    else if "FROM " <= text then Shrinking(text, WithText(s => From(s), ParseQuoted(text[5..])))
    else if "SUBJECT " <= text then Shrinking(text, WithText(s => Subject(s), ParseQuoted(text[8..])))
    else if "TEXT " <= text then Shrinking(text, WithText(s => Body(s), ParseQuoted(text[5..])))
    else None
  }

  /** What is left is shorter than what was read. */
  function Shrinking(text: string, r: Option<(Key, string)>): Option<(Key, string)> {
    if r.Some? && |r.value.1| < |text| then r else None
  }

  function ParseCommand(text: string): Option<Key> {
    if text == "" || text[0] != '(' then None
    else
      var key := ParseKey(text[1..]);
      if key.Some? && key.value.1 == ")" then Some(key.value.0) else None
  }

  lemma ParseFrom(query: string, suffix: string)
    ensures ParseKey("FROM " + Quote(query) + suffix) == if AllTextChars(query) then Some((From(query), suffix)) else None
  {
    var text := "FROM " + Quote(query) + suffix;
    assert text[0] == 'F' && text[5..] == Quote(query) + suffix && text[..5] == "FROM ";
    QuoteRoundTripsExactlyWhen(query, suffix);
  }

  lemma ParseSubject(query: string, suffix: string)
    ensures ParseKey("SUBJECT " + Quote(query) + suffix) == if AllTextChars(query) then Some((Subject(query), suffix)) else None
  {
    var text := "SUBJECT " + Quote(query) + suffix;
    assert text[0] == 'S' && text[8..] == Quote(query) + suffix && text[..8] == "SUBJECT ";
    QuoteRoundTripsExactlyWhen(query, suffix);
  }

  lemma ParseText(query: string, suffix: string)
    ensures ParseKey("TEXT " + Quote(query) + suffix) == if AllTextChars(query) then Some((Body(query), suffix)) else None
  {
    var text := "TEXT " + Quote(query) + suffix;
    assert text[0] == 'T' && text[5..] == Quote(query) + suffix && text[..5] == "TEXT ";
    QuoteRoundTripsExactlyWhen(query, suffix);
  }

  lemma ParseOr(left: string, right: string, suffix: string, l: Key, r: Key)
    requires ParseKey(left) == Some((l, " " + right)) && ParseKey(right) == Some((r, suffix))
    ensures ParseKey("OR " + left) == Some((Or(l, r), suffix))
  {
    var text := "OR " + left;
    assert text[3..] == left && text[..3] == "OR ";
    assert (" " + right)[1..] == right;
  }

  /** The command again, grouped the way it is read. */
  lemma CommandShape(q: string)
    ensures "(OR OR FROM " + q + " SUBJECT " + q + " TEXT " + q + ")"
            == "(" + ("OR " + ("OR " + ("FROM " + q + (" " + ("SUBJECT " + q + (" " + ("TEXT " + q + ")")))))))
  {
    var t3 := "TEXT " + q + ")";
    var t2 := "SUBJECT " + q + (" " + t3);
    assert " TEXT " == " " + "TEXT " && " SUBJECT " == " " + "SUBJECT ";
    assert "(OR OR FROM " == "(" + ("OR " + ("OR " + "FROM "));
    Regroup3("(OR OR FROM " + q + " SUBJECT " + q, " ", "TEXT ", q, ")");
    Regroup3("(OR OR FROM " + q, " ", "SUBJECT ", q, " " + t3);
    Regroup4("(", "OR ", "OR ", "FROM ", q, " " + t2);
  }

  lemma Regroup3(before: string, space: string, word: string, q: string, after: string)
    ensures before + (space + word) + q + after == before + (space + (word + q + after))
  {
  }

  lemma Regroup4(a: string, b: string, c: string, word: string, q: string, after: string)
    ensures a + (b + (c + word)) + q + after == a + (b + (c + (word + q + after)))
  {
  }

  lemma ParseOrFails(left: string)
    requires ParseKey(left).None?
    ensures ParseKey("OR " + left).None?
  {
    var text := "OR " + left;
    assert text[3..] == left && text[..3] == "OR ";
  }

  /** A query is read by the server as three copies of it exactly when the grammar has all its
      characters, quotes and backslashes among them; otherwise the command is not one at all. */
  lemma SearchReadsBack(query: string)
    ensures ParseCommand(SearchCommand(query))
            == if AllTextChars(query) then Some(Or(Or(From(query), Subject(query)), Body(query))) else None
  {
    hide ParseKey, ParseCommand, Quote;
    var q := Quote(query);
    var third := "TEXT " + q + ")";
    var second := "SUBJECT " + q + (" " + third);
    var first := "FROM " + q + (" " + second);
    CommandShape(q);
    ParseFrom(query, " " + second);
    if AllTextChars(query) {
      ParseText(query, ")");
      ParseSubject(query, " " + third);
      ParseOr(first, second, " " + third, From(query), Subject(query));
      ParseOr("OR " + first, third, ")", Or(From(query), Subject(query)), Body(query));
    } else {
      ParseOrFails(first);
      ParseOrFails("OR " + first);
    }
    ParseOfCommand("OR " + ("OR " + first));
  }

  lemma ParseOfCommand(inner: string)
    ensures ParseCommand("(" + inner)
            == if ParseKey(inner).Some? && ParseKey(inner).value.1 == ")" then Some(ParseKey(inner).value.0) else None
  {
    assert ("(" + inner)[1..] == inner;
  }
}
