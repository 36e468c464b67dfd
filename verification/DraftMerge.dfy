/** Draft e-mails as one text: a header block, a separator line, the reply being edited and the
    quoted chain below it. Replacing the reply must keep everything else. */
module DraftMerge {
  import opened Common
  import opened PyText

  const SEP := "\n---\n"

  const QUOTE_MARKERS := [
    "---------- Previous message ----------", "-----Original Message-----", "----- Original Message -----"
  ]

  // ---------------------------------------------------------------- quote markers

  /** Begins and ends with a dash and holds no line break. */
  predicate Dashed(m: string) {
    |m| > 1 && m[0] == '-' && m[|m| - 1] == '-' && '\n' !in m
  }

  predicate AllDashed(markers: seq<string>) {
    forall k :: 0 <= k < |markers| ==> Dashed(markers[k])
  }

  lemma QuoteMarkersAreDashed()
    ensures AllDashed(QUOTE_MARKERS)
  {
  }

  predicate MarkerAt(markers: seq<string>, body: string, i: int) {
    exists k :: 0 <= k < |markers| && OccursAt(body, markers[k], i)
  }

  ghost predicate HasMarker(markers: seq<string>, body: string) {
    exists i :: MarkerAt(markers, body, i)
  }

  function Least(a: Option<nat>, b: Option<nat>): Option<nat> {
    if a.None? then b else if b.Some? && b.value < a.value then b else a
  }

  /** Where the quoted chain begins: the first occurrence of any of the markers. */
  function FirstMarker(markers: seq<string>, body: string): Option<nat> {
    if markers == [] then None
    else Least(FirstMarker(markers[..|markers| - 1], body), Find(body, markers[|markers| - 1]))
  }

  lemma {:induction false} FirstMarkerFacts(markers: seq<string>, body: string)
    ensures var r := FirstMarker(markers, body);
            && (r.Some? ==> MarkerAt(markers, body, r.value))
            && (forall j :: MarkerAt(markers, body, j) ==> r.Some? && r.value <= j)
    decreases |markers|
  {
    if markers != [] {
      var init, last := markers[..|markers| - 1], markers[|markers| - 1];
      FirstMarkerFacts(init, body);
      var before := FirstMarker(init, body);
      if before.Some? {
        var k :| 0 <= k < |init| && OccursAt(body, init[k], before.value);
        assert OccursAt(body, markers[k], before.value);
      }
      forall j | MarkerAt(markers, body, j)
        ensures FirstMarker(markers, body).Some? && FirstMarker(markers, body).value <= j
      {
        var k :| 0 <= k < |markers| && OccursAt(body, markers[k], j);
        if k < |init| {
          assert MarkerAt(init, body, j) by { assert OccursAt(body, init[k], j); }
        } else {
          assert Occurs(body, last);
        }
      }
    }
  }

  lemma FirstMarkerIs(markers: seq<string>, body: string, k: nat)
    requires MarkerAt(markers, body, k) && forall j :: 0 <= j < k ==> !MarkerAt(markers, body, j)
    ensures FirstMarker(markers, body) == Some(k)
  {
    FirstMarkerFacts(markers, body);
  }

  /** The marker at a place, and what it looks like there. */
  lemma MarkerShape(markers: seq<string>, body: string, i: int) returns (k: nat)
    requires AllDashed(markers) && MarkerAt(markers, body, i)
    ensures k < |markers| && OccursAt(body, markers[k], i)
    ensures var n := |markers[k]|;
            && n > 1 && body[i] == '-' && body[i + n - 1] == '-'
            && (forall j :: i <= j < i + n ==> body[j] != '\n')
  {
    k :| 0 <= k < |markers| && OccursAt(body, markers[k], i);
    var m := markers[k];
    assert forall j :: i <= j < i + |m| ==> body[j] == body[i..i + |m|][j - i];
  }

  /** A piece of a text has a marker where the text has it, and the other way round. */
  lemma MarkerInPiece(markers: seq<string>, text: string, from: nat, to: nat, i: nat, k: nat)
    requires k < |markers| && from <= i && i + |markers[k]| <= to <= |text|
    ensures OccursAt(text[from..to], markers[k], i - from) <==> OccursAt(text, markers[k], i)
    ensures OccursAt(text, markers[k], i) ==> MarkerAt(markers, text[from..to], i - from)
  {
    SliceOfSlice(text, from, to, i - from, i - from + |markers[k]|);
  }

  lemma MarkerOfPiece(markers: seq<string>, text: string, from: nat, to: nat, i: nat)
    requires from <= to <= |text| && MarkerAt(markers, text[from..to], i)
    ensures MarkerAt(markers, text, from + i)
  {
    var k :| 0 <= k < |markers| && OccursAt(text[from..to], markers[k], i);
    SliceOfSlice(text, from, to, i, i + |markers[k]|);
    assert OccursAt(text, markers[k], from + i);
  }

  // ---------------------------------------------------------------- merging

  function QuoteOf(markers: seq<string>, body: string): string {
    var i := FirstMarker(markers, body);
    if i.Some? && i.value <= |body| then Strip(body[i.value..]) else ""
  }

  function Joined(reply: string, quote: string): string {
    if quote == "" then reply
    else if reply == "" then quote
    else reply + "\n\n" + quote
  }

  /** `_merge_email_reply_body`, for any list of markers. */
  function Merge(markers: seq<string>, content: string, reply: string): string {
    var k := Find(content, SEP);
    if k.None? then reply
    else content[..k.value] + SEP + Joined(Strip(reply), QuoteOf(markers, content[k.value + |SEP|..]))
  }

  /** The merge as the program does it, with a loop over the markers. */
  method MergeReplyBody(content: string, reply: string) returns (merged: string)
    ensures merged == Merge(QUOTE_MARKERS, content, reply)
  {
    var k := Find(content, SEP);
    if k.None? {
      return reply;
    }
    var head, body := content[..k.value], content[k.value + |SEP|..];
    var quoteIndex := EarliestMarker(QUOTE_MARKERS, body);
    var quote := if quoteIndex.Some? then Strip(body[quoteIndex.value..]) else "";
    merged := Strip(reply);
    if quote != "" {
      merged := if merged != "" then merged + "\n\n" + quote else quote;
    }
    merged := head + SEP + merged;
  }

  method EarliestMarker(markers: seq<string>, body: string) returns (quoteIndex: Option<nat>)
    ensures quoteIndex == FirstMarker(markers, body)
    ensures quoteIndex.Some? ==> quoteIndex.value <= |body|
  {
    quoteIndex := None;
    for i := 0 to |markers|
      invariant quoteIndex == FirstMarker(markers[..i], body)
      invariant quoteIndex.Some? ==> quoteIndex.value <= |body|
    {
      assert markers[..i + 1][..i] == markers[..i];
      var idx := Find(body, markers[i]);
      if idx.Some? && (quoteIndex.None? || idx.value < quoteIndex.value) {
        quoteIndex := idx;
      }
    }
    assert markers[..|markers|] == markers;
  }

  // ---------------------------------------------------------------- the head is kept

  /** A text that agrees up to the end of the first separator splits in the same place. */
  lemma SplitsInTheSamePlace(content: string, rest: string)
    requires Find(content, SEP).Some?
    ensures var k := Find(content, SEP).value;
            Find(content[..k] + SEP + rest, SEP) == Some(k)
  {
    var k := Find(content, SEP).value;
    var text := content[..k] + SEP + rest;
    assert content[..k + |SEP|] == content[..k] + SEP == text[..k + |SEP|];
    forall j | 0 <= j <= k
      ensures OccursAt(text, SEP, j) <==> OccursAt(content, SEP, j)
    {
      SameStartSameOccurrences(text, content, k + |SEP|, SEP, j);
    }
    FindIs(text, SEP, k);
  }

  /** The header block survives every merge verbatim. */
  lemma HeadIsKept(markers: seq<string>, content: string, reply: string)
    requires Find(content, SEP).Some?
    ensures var k := Find(content, SEP).value;
            && Find(Merge(markers, content, reply), SEP) == Some(k)
            && Merge(markers, content, reply)[..k] == content[..k]
            && Merge(markers, content, reply)[k + |SEP|..] == Joined(Strip(reply), QuoteOf(markers, content[k + |SEP|..]))
  {
    var k := Find(content, SEP).value;
    SplitsInTheSamePlace(content, Joined(Strip(reply), QuoteOf(markers, content[k + |SEP|..])));
  }

  // ---------------------------------------------------------------- the quote is kept

  /** A quoted chain, once cut out: empty, or it begins with its marker and ends in no
      whitespace. */
  predicate IsQuote(markers: seq<string>, quote: string) {
    quote == "" || (MarkerAt(markers, quote, 0) && Trimmed(quote))
  }

  /** The quoted chain is the tail of the body from the first marker, up to trailing
      whitespace. */
  lemma QuoteShape(markers: seq<string>, body: string) returns (end: nat)
    requires AllDashed(markers)
    ensures IsQuote(markers, QuoteOf(markers, body))
    ensures FirstMarker(markers, body).None? ==> QuoteOf(markers, body) == ""
    ensures var at := FirstMarker(markers, body);
            at.Some? ==>
              && at.value < end <= |body| && QuoteOf(markers, body) == body[at.value..end]
              && (forall k :: end <= k < |body| ==> IsSpace(body[k]))
  {
    end := 0;
    FirstMarkerFacts(markers, body);
    if FirstMarker(markers, body).Some? {
      var at := FirstMarker(markers, body).value;
      var k := MarkerShape(markers, body, at);
      var tail := body[at..];
      var j := StripOfSolid(tail);
      end := at + j;
      assert body[at..end] == tail[..j];
      assert forall l :: at <= l < |body| ==> body[l] == tail[l - at];
      MarkerInPiece(markers, body, at, end, at, k);
    }
  }

  /** Whitespace around a text hides no marker. */
  lemma StripKeepsMarkers(markers: seq<string>, reply: string)
    requires AllDashed(markers)
    ensures HasMarker(markers, Strip(reply)) <==> HasMarker(markers, reply)
  {
    var i, j := StripShape(reply);
    if HasMarker(markers, reply) {
      var at :| MarkerAt(markers, reply, at);
      var k := MarkerShape(markers, reply, at);
      MarkerInPiece(markers, reply, i, j, at, k);
    }
    if HasMarker(markers, Strip(reply)) {
      var at :| MarkerAt(markers, Strip(reply), at);
      MarkerOfPiece(markers, reply, i, j, at);
    }
  }

  /** In a merged body a marker lies within the reply or within the quote, not across. */
  lemma NoMarkerAcross(markers: seq<string>, reply: string, quote: string, at: nat)
    requires AllDashed(markers) && MarkerAt(markers, reply + "\n\n" + quote, at)
    ensures at < |reply| ==> MarkerAt(markers, reply, at)
    ensures at >= |reply| ==> at >= |reply| + 2
  {
    var text := reply + "\n\n" + quote;
    var k := MarkerShape(markers, text, at);
    assert text[|reply|] == '\n' && text[|reply| + 1] == '\n';
    if at < |reply| {
      assert text[0..|reply|] == reply;
      MarkerInPiece(markers, text, 0, |reply|, at, k);
    }
  }

  /** Without a marker in the reply the quoted chain of the merged body is the old one. */
  lemma QuoteIsKept(markers: seq<string>, reply: string, quote: string)
    requires AllDashed(markers) && !HasMarker(markers, reply) && IsQuote(markers, quote)
    ensures QuoteOf(markers, Joined(reply, quote)) == quote
  {
    var text := Joined(reply, quote);
    FirstMarkerFacts(markers, text);
    if quote != "" {
      StripOfTrimmed(quote);
      var start := |text| - |quote|;
      assert text[start..] == quote == text[start..|text|];
      MarkerOfPiece(markers, text, start, |text|, 0);
      forall j | 0 <= j < start
        ensures !MarkerAt(markers, text, j)
      {
        if MarkerAt(markers, text, j) {
          NoMarkerAcross(markers, reply, quote, j);
        }
      }
      FirstMarkerIs(markers, text, start);
    }
  }

  lemma JoinedShape(reply: string, quote: string)
    requires reply != ""
    ensures var text := Joined(reply, quote);
            && |text| >= |reply| + |quote| && text[0..|reply|] == reply
            && (quote != "" ==> text[|text| - 1] == quote[|quote| - 1])
  {
  }

  /** With one, it starts within the reply, and is longer. */
  lemma QuoteIsLost(markers: seq<string>, reply: string, quote: string)
    requires AllDashed(markers) && HasMarker(markers, reply) && IsQuote(markers, quote)
    ensures |QuoteOf(markers, Joined(reply, quote))| > |quote|
  {
    var at :| MarkerAt(markers, reply, at);
    var k := MarkerShape(markers, reply, at);
    JoinedShape(reply, quote);
    var text := Joined(reply, quote);
    MarkerOfPiece(markers, text, 0, |reply|, at);
    FirstMarkerFacts(markers, text);
    var end := QuoteShape(markers, text);
    if quote != "" {
      assert end == |text|;
    }
  }

  lemma JoinedIsInjective(reply: string, q: string, q': string)
    requires Joined(reply, q) == Joined(reply, q')
    ensures q == q'
  {
    if reply != "" {
      assert q != "" ==> Joined(reply, q)[|reply| + 2..] == q;
      assert q' != "" ==> Joined(reply, q')[|reply| + 2..] == q';
    }
  }

  lemma SameTail(head: string, a: string, b: string)
    requires head + a == head + b
    ensures a == b
  {
    assert (head + a)[|head|..] == a && (head + b)[|head|..] == b;
  }

  /** Merging is last-write-wins exactly when the earlier reply contains no quote marker. */
  lemma LastReplyWinsExactlyWhen(content: string, first: string, second: string)
    requires Find(content, SEP).Some?
    ensures Merge(QUOTE_MARKERS, Merge(QUOTE_MARKERS, content, first), second) == Merge(QUOTE_MARKERS, content, second)
            <==> !HasMarker(QUOTE_MARKERS, first)
  {
    QuoteMarkersAreDashed();
    LastReplyWins(QUOTE_MARKERS, content, first, second);
  }

  lemma LastReplyWins(markers: seq<string>, content: string, first: string, second: string)
    requires AllDashed(markers) && Find(content, SEP).Some?
    ensures Merge(markers, Merge(markers, content, first), second) == Merge(markers, content, second)
            <==> !HasMarker(markers, first)
  {
    hide Joined, QuoteOf, HasMarker, Strip, AllDashed;
    var k := Find(content, SEP).value;
    var quote := QuoteOf(markers, content[k + |SEP|..]);
    HeadIsKept(markers, content, first);
    var _ := QuoteShape(markers, content[k + |SEP|..]);
    var kept := QuoteOf(markers, Joined(Strip(first), quote));
    StripKeepsMarkers(markers, first);
    if HasMarker(markers, first) {
      QuoteIsLost(markers, Strip(first), quote);
      if Merge(markers, Merge(markers, content, first), second) == Merge(markers, content, second) {
        SameTail(content[..k] + SEP, Joined(Strip(second), kept), Joined(Strip(second), quote));
        JoinedIsInjective(Strip(second), kept, quote);
      }
    } else {
      QuoteIsKept(markers, Strip(first), quote);
    }
  }

  // ---------------------------------------------------------------- building a draft

  /** Missing optional fields are empty. */
  datatype Headers = Headers(
    to: string, cc: string, bcc: string, subject: string, inReplyTo: string, references: string,
    sourceUid: string, sourceFolder: string)

  function Optional(key: string, value: string): seq<string> {
    if value == "" then [] else [key + value]
  }

  function HeaderLines(h: Headers): seq<string> {
    ["To: " + h.to] + Optional("Cc: ", h.cc) + Optional("Bcc: ", h.bcc) + ["Subject: " + h.subject]
    + Optional("In-Reply-To: ", h.inReplyTo) + Optional("References: ", h.references)
    + Optional("X-Source-UID: ", h.sourceUid) + Optional("X-Source-Folder: ", h.sourceFolder)
  }

  function JoinLines(lines: seq<string>): string {
    if lines == [] then ""
    else if |lines| == 1 then lines[0]
    else JoinLines(lines[..|lines| - 1]) + "\n" + lines[|lines| - 1]
  }

  /** `_build_email_document_content`. */
  function Build(h: Headers, body: string): string {
    JoinLines(HeaderLines(h)) + SEP + body
  }

  /** The separator is found where the header block ends exactly when the block, with the
      dashes after it, contains none. */
  lemma SplitsAtHeadExactlyWhen(head: string, body: string)
    ensures Find(head + SEP + body, SEP) == Some(|head|) <==> !Occurs(head + "\n---", SEP)
  {
    var text, short := head + SEP + body, head + "\n---";
    assert text[..|short|] == short == short[..|short|];
    assert text[|head|..|head| + |SEP|] == SEP;
    forall j | 0 <= j < |head|
      ensures OccursAt(text, SEP, j) <==> OccursAt(short, SEP, j)
    {
      SameStartSameOccurrences(text, short, |short|, SEP, j);
    }
    if Occurs(short, SEP) {
      var j :| OccursAt(short, SEP, j);
      assert OccursAt(text, SEP, j);
    } else {
      FindIs(text, SEP, |head|);
    }
  }

  /** No line break is followed by a dash, and the text does not end in one. */
  predicate NoDashedLine(text: string) {
    (text != "" ==> text[|text| - 1] != '\n') && forall j :: 0 <= j < |text| - 1 && text[j] == '\n' ==> text[j + 1] != '-'
  }

  predicate PlainLine(line: string) {
    line != "" && line[0] != '-' && '\n' !in line
  }

  lemma {:induction false} PlainLinesJoin(lines: seq<string>)
    requires forall k :: 0 <= k < |lines| ==> PlainLine(lines[k])
    ensures NoDashedLine(JoinLines(lines))
    decreases |lines|
  {
    if |lines| > 1 {
      PlainLinesJoin(lines[..|lines| - 1]);
    }
  }

  predicate OneLine(h: Headers) {
    && '\n' !in h.to && '\n' !in h.cc && '\n' !in h.bcc && '\n' !in h.subject && '\n' !in h.inReplyTo
    && '\n' !in h.references && '\n' !in h.sourceUid && '\n' !in h.sourceFolder
  }

  lemma SeparatorChars(text: string, j: int)
    requires OccursAt(text, SEP, j)
    ensures text[j] == '\n' && text[j + 1] == '-' && text[j + 4] == '\n'
  {
    var piece := text[j..j + |SEP|];
    assert piece[0] == text[j] && piece[1] == text[j + 1] && piece[4] == text[j + 4];
  }

  lemma NoDashedLineNoSeparator(head: string)
    requires NoDashedLine(head)
    ensures !Occurs(head + "\n---", SEP)
  {
    var text := head + "\n---";
    if Occurs(text, SEP) {
      var j :| OccursAt(text, SEP, j);
      SeparatorChars(text, j);
    }
  }

  lemma HeaderLinesArePlain(h: Headers)
    requires OneLine(h)
    ensures forall k :: 0 <= k < |HeaderLines(h)| ==> PlainLine(HeaderLines(h)[k])
  {
    var lines := HeaderLines(h);
    assert forall line :: line in ["To: " + h.to] + Optional("Cc: ", h.cc) + Optional("Bcc: ", h.bcc) ==> PlainLine(line);
    assert forall line :: line in ["Subject: " + h.subject] + Optional("In-Reply-To: ", h.inReplyTo) ==> PlainLine(line);
    assert forall line :: line in Optional("References: ", h.references) + Optional("X-Source-UID: ", h.sourceUid) ==> PlainLine(line);
    assert forall line :: line in Optional("X-Source-Folder: ", h.sourceFolder) ==> PlainLine(line);
  }

  /** The draft as it should be after a reply: same headers, same quoted chain. */
  function Rebuilt(h: Headers, body: string, reply: string): string {
    JoinLines(HeaderLines(h)) + SEP + Joined(Strip(reply), QuoteOf(QUOTE_MARKERS, body))
  }

  /** The header block, with the dashes after it, holds no separator of its own. */
  ghost predicate OneBlock(h: Headers) {
    !Occurs(JoinLines(HeaderLines(h)) + "\n---", SEP)
  }

  lemma MergeOfBuild(h: Headers, body: string, reply: string)
    requires OneBlock(h)
    ensures Merge(QUOTE_MARKERS, Build(h, body), reply) == Rebuilt(h, body, reply)
  {
    hide HeaderLines, JoinLines, QuoteOf, Joined, Strip;
    var head := JoinLines(HeaderLines(h));
    SplitsAtHeadExactlyWhen(head, body);
    assert Build(h, body)[..|head|] == head && Build(h, body)[|head| + |SEP|..] == body;
  }

  /** With a separator in the header block, one of two one-letter replies to an empty body is
      put in the wrong place. */
  lemma EarlySplitIsWrong(head: string, k: nat, quote: string, letter: char)
    requires k < |head| && (quote != "" ==> quote[|quote| - 1] != letter)
    ensures head[..k] + SEP + Joined([letter], quote) != head + SEP + [letter]
  {
    var wrong, right := head[..k] + SEP + Joined([letter], quote), head + SEP + [letter];
    if quote == "" {
      assert |wrong| < |right|;
    } else {
      assert wrong[|wrong| - 1] == quote[|quote| - 1] && right[|right| - 1] == letter;
    }
  }

  lemma BrokenBlockLosesSomeReply(h: Headers) returns (reply: string)
    requires !OneBlock(h)
    ensures Merge(QUOTE_MARKERS, Build(h, ""), reply) != Rebuilt(h, "", reply)
  {
    hide HeaderLines, JoinLines, FirstMarker;
    var head := JoinLines(HeaderLines(h));
    var content := Build(h, "");
    SplitsAtHeadExactlyWhen(head, "");
    assert content[|head|..|head| + |SEP|] == SEP;
    assert OccursAt(content, SEP, |head|);
    var k := Find(content, SEP).value;
    assert content[..k] == head[..k];
    var quote := QuoteOf(QUOTE_MARKERS, content[k + |SEP|..]);
    reply := if quote != "" && quote[|quote| - 1] == 'x' then "y" else "x";
    StripOfTrimmed(reply);
    assert FirstMarker(QUOTE_MARKERS, "").None? by { EmptyHasNoMarker(); }
    EarlySplitIsWrong(head, k, quote, reply[0]);
  }

  lemma EmptyHasNoMarker()
    ensures FirstMarker(QUOTE_MARKERS, "").None?
  {
    FirstMarkerFacts(QUOTE_MARKERS, "");
    QuoteMarkersAreDashed();
  }

  /** Merging keeps the headers and the quoted chain of a built draft, whatever its body and the
      reply, exactly when its header block holds no separator; single-line fields hold none. */
  lemma MergeKeepsHeadersExactlyWhen(h: Headers)
    ensures (forall body, reply :: Merge(QUOTE_MARKERS, Build(h, body), reply) == Rebuilt(h, body, reply)) <==> OneBlock(h)
    ensures OneLine(h) ==> OneBlock(h)
  {
    hide Merge, Build, Rebuilt, OneBlock, HeaderLines, JoinLines;
    if OneBlock(h) {
      forall body, reply
        ensures Merge(QUOTE_MARKERS, Build(h, body), reply) == Rebuilt(h, body, reply)
      {
        MergeOfBuild(h, body, reply);
      }
    } else {
      var reply := BrokenBlockLosesSomeReply(h);
    }
    if OneLine(h) {
      OneLineIsOneBlock(h);
    }
  }

  lemma OneLineIsOneBlock(h: Headers)
    requires OneLine(h)
    ensures OneBlock(h)
  {
    hide HeaderLines, JoinLines;
    HeaderLinesArePlain(h);
    PlainLinesJoin(HeaderLines(h));
    NoDashedLineNoSeparator(JoinLines(HeaderLines(h)));
  }
}
