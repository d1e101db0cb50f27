/**
 * The DOM-sourced renderer of `lib/background/markdownRenderer.js`: it pairs each message of
 * the payload's `mapping` with the Markdown the page rendered for that message id, and writes
 * one quoted header and the Markdown per message, in mapping order.
 */
module MarkdownRendering {
  import opened Wrappers
  import opened Seqs
  import opened Text
  import opened Js
  import Timestamp
  import ConversationParser

  /** The default of the constructor's unused `roles` argument. */
  const DefaultRoles := Arr([Str("user"), Str("assistant"), Str("system")])

  /** The en dash between role and time in a header. */
  const HeaderSeparator := " \U{2013} "

  /** One entry of `mapped`. It has no `role` property. */
  datatype MappedMessage = MappedMessage(content: Value, time: string, id: Value, status: Value)

  /** `this.markdownMessages[messageId]` for a truthy id: the own property named by the id's
    * string form. */
  function MarkdownFor(markdownMessages: Value, messageId: Value): Value {
    match JsToString(messageId)
    case Some(key) => Get(markdownMessages, key)
    case None => Undefined
  }

  /** The entry `mapMessages` pushes for a node, or `None` when it skips the node. */
  function MappedOf(node: Value, markdownMessages: Value): Option<MappedMessage> {
    var message := Get(node, "message");
    var messageId := OrNull(Get(message, "id"));
    var content := MarkdownFor(markdownMessages, messageId);
    if !Truthy(message) || !Truthy(messageId) || !Truthy(content) then None
    else
      Some(MappedMessage(content, Timestamp.FormatTimestamp(Get(message, "create_time")),
                         OrNull(Get(message, "id")), OrNull(Get(message, "status"))))
  }

  function MappedFor(markdownMessages: Value): Value -> Option<MappedMessage> {
    node => MappedOf(node, markdownMessages)
  }

  /** What `mapMessages` returns: the entries of the qualifying nodes, in mapping order. */
  function Mapped(mapping: Value, markdownMessages: Value): seq<MappedMessage>
    requires mapping.Arr? || mapping.Obj?
  {
    FilterMap(ObjectValues(mapping), MappedFor(markdownMessages))
  }

  /** `String(content)` as `join` writes it; a number is written as `''` here (see README). */
  function ContentText(content: Value): string {
    match JsToString(content)
    case Some(s) => s
    case None => ""
  }

  /** The header of an entry: `capitalize(message.role)` reads the missing `role`. */
  function Header(m: MappedMessage): string {
    "> " + CapitalizeValue(Undefined) + HeaderSeparator + m.time
  }

  /** `block.join('\n')` for the two lines of an entry. */
  function BlockText(m: MappedMessage): string {
    Join([Header(m), ContentText(m.content)], "\n")
  }

  function TitleEntry(title: string): seq<string> {
    if title != "" then ["# " + title + "\n\n\n"] else []
  }

  /** The `lines` of `renderMarkdown`: the title entry, then one block per entry. */
  function RenderedLines(messages: seq<MappedMessage>, title: string): seq<string> {
    TitleEntry(title) + Map(messages, BlockText)
  }

  function Rendered(messages: seq<MappedMessage>, title: string): string {
    Join(RenderedLines(messages, title), "\n\n")
  }

  /** What `compile` returns. The `roles` field takes no part. */
  function Compiled(payload: Value, markdownMessages: Value): string {
    var mapping := Get(payload, "mapping");
    if !(mapping.Arr? || mapping.Obj?) || !(markdownMessages.Arr? || markdownMessages.Obj?) then ""
    else Rendered(Mapped(mapping, markdownMessages), ConversationParser.ExtractTitle(payload))
  }

  class MarkdownRenderer {
    var payload: Value
    var markdownMessages: Value
    var roles: Value

    constructor (payload: Value, markdownMessages: Value, roles: Value)
      ensures this.payload == payload && this.markdownMessages == markdownMessages && this.roles == roles
    {
      this.payload := payload;
      this.markdownMessages := markdownMessages;
      this.roles := roles;
    }

    /** `new MarkdownRenderer(payload, markdownMessages)`, with the default roles. */
    constructor WithDefaultRoles(payload: Value, markdownMessages: Value)
      ensures this.payload == payload && this.markdownMessages == markdownMessages && roles == DefaultRoles
    {
      this.payload := payload;
      this.markdownMessages := markdownMessages;
      roles := DefaultRoles;
    }

    /** `compile`: `''` without an object `mapping` or an object `markdownMessages`. */
    method Compile() returns (r: string)
      ensures r == Compiled(payload, markdownMessages)
      ensures !(Get(payload, "mapping").Arr? || Get(payload, "mapping").Obj?) ==> r == ""
      ensures !(markdownMessages.Arr? || markdownMessages.Obj?) ==> r == ""
    {
      var mapping := Get(payload, "mapping");
      if !Truthy(mapping) || !IsObjectType(mapping) {
        assert !(mapping.Arr? || mapping.Obj?);
        return "";
      }
      if !Truthy(markdownMessages) || !IsObjectType(markdownMessages) {
        assert !(markdownMessages.Arr? || markdownMessages.Obj?);
        return "";
      }
      var title := ConversationParser.ExtractTitle(payload);
      var mappedMessages := MapMessages(mapping);
      r := RenderMarkdown(mappedMessages, title);
    }

    /** `mapMessages`: no role filter and no sorting. */
    method MapMessages(mapping: Value) returns (mapped: seq<MappedMessage>)
      requires mapping.Arr? || mapping.Obj?
      ensures mapped == Mapped(mapping, markdownMessages)
    {
      var nodes := ObjectValues(mapping);
      mapped := [];
      for k := 0 to |nodes|
        invariant mapped == FilterMap(nodes[..k], MappedFor(markdownMessages))
      {
        FilterMapStep(nodes, k, MappedFor(markdownMessages));
        var message := Get(nodes[k], "message");
        if !Truthy(message) {
          continue;
        }
        var messageId := OrNull(Get(message, "id"));
        if !Truthy(messageId) {
          continue;
        }
        var markdownContent := MarkdownFor(markdownMessages, messageId);
        if !Truthy(markdownContent) {
          continue;
        }
        mapped := mapped + [MappedMessage(markdownContent, Timestamp.FormatTimestamp(Get(message, "create_time")),
                                          OrNull(Get(message, "id")), OrNull(Get(message, "status")))];
      }
      assert nodes[..|nodes|] == nodes;
    }

    /** `renderMarkdown`. */
    method RenderMarkdown(messages: seq<MappedMessage>, title: string) returns (r: string)
      ensures r == Rendered(messages, title)
    {
      var lines: seq<string> := [];
      if title != "" {
        lines := lines + ["# " + title + "\n\n\n"];
      }
      for k := 0 to |messages|
        invariant lines == TitleEntry(title) + Map(messages[..k], BlockText)
      {
        MapStep(messages, k, BlockText);
        var message := messages[k];
        var block: seq<string> := [];
        block := block + [Header(message)];
        block := block + [ContentText(message.content)];
        assert block == [Header(message), ContentText(message.content)];
        lines := lines + [Join(block, "\n")];
        AppendAssoc(TitleEntry(title), Map(messages[..k], BlockText), [BlockText(message)]);
      }
      assert messages[..|messages|] == messages;
      r := Join(lines, "\n\n");
    }
  }

  /** A node yields an entry exactly when it has a message with a truthy id whose Markdown is
    * truthy; the entry holds that Markdown and the formatted time, and there is no role test. */
  lemma MappedOfMeaning(node: Value, markdownMessages: Value)
    ensures var message := Get(node, "message");
            var id := OrNull(Get(message, "id"));
            MappedOf(node, markdownMessages).Some? <==>
              Truthy(message) && Truthy(id) && Truthy(MarkdownFor(markdownMessages, id))
    ensures MappedOf(node, markdownMessages).Some? ==>
              var message := Get(node, "message");
              MappedOf(node, markdownMessages).value.content == MarkdownFor(markdownMessages, OrNull(Get(message, "id")))
              && MappedOf(node, markdownMessages).value.time == Timestamp.FormatTimestamp(Get(message, "create_time"))
  {
  }

  /** The entries are exactly those of the qualifying nodes. */
  lemma MappedMembership(mapping: Value, markdownMessages: Value, m: MappedMessage)
    requires mapping.Arr? || mapping.Obj?
    ensures m in Mapped(mapping, markdownMessages) <==>
            exists i :: 0 <= i < |ObjectValues(mapping)| && MappedOf(ObjectValues(mapping)[i], markdownMessages) == Some(m)
  {
    FilterMapMembership(ObjectValues(mapping), MappedFor(markdownMessages), m);
  }

  /** When every node qualifies, the entries follow the mapping one for one: nothing is sorted. */
  lemma MappedKeepsOrder(mapping: Value, markdownMessages: Value)
    requires mapping.Arr? || mapping.Obj?
    requires forall i :: 0 <= i < |ObjectValues(mapping)| ==> MappedOf(ObjectValues(mapping)[i], markdownMessages).Some?
    ensures |Mapped(mapping, markdownMessages)| == |ObjectValues(mapping)|
    ensures forall i :: 0 <= i < |ObjectValues(mapping)| ==>
              Mapped(mapping, markdownMessages)[i] == MappedOf(ObjectValues(mapping)[i], markdownMessages).value
  {
    FilterMapTotal(ObjectValues(mapping), MappedFor(markdownMessages));
  }

  /** Every header has an empty role: `>`, two spaces, the en dash and the time. */
  lemma HeaderHasNoRole(m: MappedMessage)
    ensures Header(m) == ">  \U{2013} " + m.time
  {
    assert CapitalizeValue(Undefined) == "";
  }

  /** Each block is the header, a newline and the Markdown. */
  lemma BlockTextShape(m: MappedMessage)
    ensures BlockText(m) == Header(m) + "\n" + ContentText(m.content)
  {
    JoinAppend([Header(m)], ContentText(m.content), "\n");
    assert [Header(m)] + [ContentText(m.content)] == [Header(m), ContentText(m.content)];
  }

  /** The rendered entries: the title entry only for a non-empty title, then one block per
    * message in order. */
  lemma RenderedLinesShape(messages: seq<MappedMessage>, title: string)
    ensures var lines, n := RenderedLines(messages, title), |TitleEntry(title)|;
            n == (if title != "" then 1 else 0) && |lines| == n + |messages|
            && (title != "" ==> lines[0] == "# " + title + "\n\n\n")
            && forall k :: 0 <= k < |messages| ==> lines[n + k] == BlockText(messages[k])
  {
    MapIndex(messages, BlockText);
  }

  /** No title and no messages render as `''`; a title alone renders as the title entry. */
  lemma RenderedWithoutMessages(title: string)
    ensures Rendered([], title) == if title != "" then "# " + title + "\n\n\n" else ""
  {
    assert RenderedLines([], title) == TitleEntry(title);
  }
}
