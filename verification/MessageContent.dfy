/** How the content of a chat message is written to a text column and read back: a list of
    blocks goes through JSON, a plain text is stored as it is, and the reader has to guess
    which of the two a text was. */
module MessageContent {
  import opened Common
  import opened PyText

  /** One element of a JSON list: an object with its "type", if that is a string, or
      anything else. `rest` stands for whatever else the element says. */
  datatype Block = Block(kind: Option<string>, rest: string) | Other(rest: string)

  datatype Content = Text(text: string) | Blocks(blocks: seq<Block>)

  datatype Message = Message(role: string, content: Content)

  /** The JSON library. `load` answers only for a text that is a JSON list. */
  datatype Codec = Codec(dump: seq<Block> -> string, load: string -> Option<seq<Block>>)

  const BLOCK_TYPES := {
    "text", "image", "image_url", "audio", "input_audio", "input_image", "document", "file"
  }

  predicate Recognised(blocks: seq<Block>) {
    blocks != [] && forall b :: b in blocks ==> b.Block? && b.kind.Some? && b.kind.value in BLOCK_TYPES
  }

  predicate LooksLikeBlocks(raw: string) {
    "[{" <= raw && Find(raw, "\"type\"").Some?
  }

  ghost predicate Faithful(c: Codec) {
    && (forall bs: seq<Block> :: c.load(c.dump(bs)) == Some(bs))
    && (forall bs: seq<Block> :: Recognised(bs) ==> LooksLikeBlocks(c.dump(bs)))
  }

  function Stored(c: Codec, content: Content): string {
    match content
    case Text(s) => s
    case Blocks(bs) => c.dump(bs)
  }

  function Parsed(c: Codec, raw: string): Content {
    if !LooksLikeBlocks(raw) then Text(raw)
    else
      var list := c.load(raw);
      if list.Some? && Recognised(list.value) then Blocks(list.value) else Text(raw)
  }

  /** What the content is after a round trip through the database. */
  function Reload(c: Codec, content: Content): Content {
    Parsed(c, Stored(c, content))
  }

  /** A text that the reader takes for a dumped list of blocks. */
  predicate Mistaken(c: Codec, text: string) {
    LooksLikeBlocks(text) && c.load(text).Some? && Recognised(c.load(text).value)
  }

  /** The round trip gives the content back exactly when a text is not mistaken for blocks
      and a list has only recognised blocks. */
  lemma ReloadIsExactWhen(c: Codec, content: Content)
    requires Faithful(c)
    ensures Reload(c, content) == content
            <==> if content.Text? then !Mistaken(c, content.text) else Recognised(content.blocks)
  {
    if content.Blocks? {
      assert c.load(c.dump(content.blocks)) == Some(content.blocks);
    }
  }

  /** Whatever the first round trip made of it, further round trips change nothing. */
  lemma ReloadSettles(c: Codec, content: Content)
    requires Faithful(c)
    ensures Reload(c, Reload(c, content)) == Reload(c, content)
  {
    ReloadIsExactWhen(c, Reload(c, content));
  }

  function ReloadMessage(c: Codec, m: Message): Message {
    m.(content := Reload(c, m.content))
  }

  function ReloadAll(c: Codec, ms: seq<Message>): (r: seq<Message>)
    ensures |r| == |ms|
    ensures forall i :: 0 <= i < |ms| ==> r[i] == ReloadMessage(c, ms[i])
  {
    seq(|ms|, i requires 0 <= i < |ms| => ReloadMessage(c, ms[i]))
  }

  lemma ReloadAllAppend(c: Codec, ms: seq<Message>, m: Message)
    ensures ReloadAll(c, ms + [m]) == ReloadAll(c, ms) + [ReloadMessage(c, m)]
  {
  }

  lemma ReloadAllSettles(c: Codec, ms: seq<Message>)
    requires Faithful(c)
    ensures ReloadAll(c, ReloadAll(c, ms)) == ReloadAll(c, ms)
  {
    forall i | 0 <= i < |ms|
      ensures ReloadAll(c, ReloadAll(c, ms))[i] == ReloadAll(c, ms)[i]
    {
      ReloadSettles(c, ms[i].content);
    }
  }

  /** The message comes back from the database as it was given. */
  predicate Exact(c: Codec, m: Message) {
    if m.content.Text? then !Mistaken(c, m.content.text) else Recognised(m.content.blocks)
  }

  lemma ExactMessagesReload(c: Codec, ms: seq<Message>)
    requires Faithful(c)
    ensures ReloadAll(c, ms) == ms <==> forall i :: 0 <= i < |ms| ==> Exact(c, ms[i])
  {
    forall i | 0 <= i < |ms|
      ensures Exact(c, ms[i]) <==> ReloadAll(c, ms)[i] == ms[i]
    {
      ReloadIsExactWhen(c, ms[i].content);
    }
  }
}
