/**
 * The structured-parts transcript builder of `conversation-parser.js`: it walks the `mapping`
 * of a conversation payload, keeps the messages of the wanted roles that have text, orders them
 * by creation time and renders them as Markdown.
 */
module ConversationParser {
  import opened Wrappers
  import opened Seqs
  import opened Text
  import opened Js
  import Timestamp
  import opened TimeOrder

  const RoleUser := "user"
  const RoleAssistant := "assistant"

  /** The three characters that stand between role and time in a header: a UTF-8 en dash
    * read as Windows-1252, kept as the source writes it. */
  const HeaderSeparator := " \U{00E2}\U{20AC}\U{201C} "

  /** One transcript entry, as pushed into `collected`. */
  datatype Record = Record(role: string, content: string, time: string, id: Value, status: Value)

  function RecordTime(r: Record): string { r.time }

  /** `roles.has(role)` for the set built by `buildRoleFilter`. */
  predicate Names(role: Value, name: string) {
    Truthy(role) && JsToString(role).Some? && ToLower(JsToString(role).value) == name
  }

  /** `buildRoleFilter`: the set of roles whose messages are kept. */
  function BuildRoleFilter(role: Value): set<string> {
    if !Truthy(role) then {RoleUser, RoleAssistant}
    else
      match JsToString(role)
      case Some(s) =>
        var normalized := ToLower(s);
        if normalized == RoleUser || normalized == RoleAssistant then {normalized}
        else {RoleUser, RoleAssistant}
      case None => {RoleUser, RoleAssistant}
  }

  /** The filter keeps both roles unless the option names one of them, ignoring ASCII case. */
  lemma BuildRoleFilterCases(role: Value)
    ensures BuildRoleFilter(role) == {RoleUser} <==> Names(role, RoleUser)
    ensures BuildRoleFilter(role) == {RoleAssistant} <==> Names(role, RoleAssistant)
    ensures BuildRoleFilter(role) == {RoleUser, RoleAssistant}
            <==> !Names(role, RoleUser) && !Names(role, RoleAssistant)
  {
    assert RoleUser in {RoleUser, RoleAssistant} && RoleAssistant in {RoleUser, RoleAssistant};
    assert RoleAssistant !in {RoleUser};
    assert RoleUser !in {RoleAssistant};
  }

  /** A role filter naming `User` in any ASCII case selects only the user's messages. */
  lemma UserFilterIgnoresCase(s: string)
    requires |s| == 4 && forall i :: 0 <= i < 4 ==> LowerChar(s[i]) == RoleUser[i]
    ensures BuildRoleFilter(Str(s)) == {RoleUser}
  {
    assert ToLower(s) == RoleUser;
    BuildRoleFilterCases(Str(s));
  }

  /** The text one element of `content.parts` contributes: a string as it is, an object's
    * non-empty string `text`, and nothing otherwise. */
  function PartText(part: Value): Option<string> {
    if part.Str? then Some(part.s)
    else if Truthy(part) && IsObjectType(part) then
      var text := Get(part, "text");
      if text.Str? && text.s != "" then Some(text.s) else None
    else None
  }

  /** The `lines` collected from `parts`, in order. */
  function PartLines(parts: seq<Value>): seq<string> {
    FilterMap(parts, PartText)
  }

  /** What `aggregateContent` returns: the collected lines joined by newlines and trimmed, or
    * `''` when `parts` is not an array. */
  function AggregatedContent(content: Value): string {
    var parts := Get(content, "parts");
    if parts.Arr? then Trim(Join(PartLines(parts.items), "\n")) else ""
  }

  /** `aggregateContent`. */
  method AggregateContent(content: Value) returns (r: string)
    ensures r == AggregatedContent(content)
  {
    var parts := Get(content, "parts");
    if !parts.Arr? {
      return "";
    }
    var lines: seq<string> := [];
    for k := 0 to |parts.items|
      invariant lines == PartLines(parts.items[..k])
    {
      FilterMapStep(parts.items, k, PartText);
      var part := parts.items[k];
      if part.Str? {
        lines := lines + [part.s];
      } else if Truthy(part) && IsObjectType(part) {
        var text := if Get(part, "text").Str? then Get(part, "text").s else "";
        if text != "" {
          lines := lines + [text];
        }
      }
    }
    assert parts.items[..|parts.items|] == parts.items;
    r := Trim(Join(lines, "\n"));
  }

  /** The aggregated content never starts or ends with white space, and is `''` without an
    * array of parts. */
  lemma AggregatedContentTrimmed(content: Value)
    ensures Trim(AggregatedContent(content)) == AggregatedContent(content)
    ensures !Get(content, "parts").Arr? ==> AggregatedContent(content) == ""
  {
    var parts := Get(content, "parts");
    if parts.Arr? {
      TrimIdempotent(Join(PartLines(parts.items), "\n"));
    }
  }

  /** String parts are kept verbatim, empty ones included. */
  lemma PartLinesOfStrings(parts: seq<Value>)
    requires forall i :: 0 <= i < |parts| ==> parts[i].Str?
    ensures |PartLines(parts)| == |parts|
    ensures forall i :: 0 <= i < |parts| ==> PartLines(parts)[i] == parts[i].s
  {
    FilterMapTotal(parts, PartText);
  }

  /** Parts that are neither strings nor objects with a non-empty string `text` add no line. */
  lemma PartLinesSkip(parts: seq<Value>, other: Value)
    requires !other.Str? && (!Truthy(other) || !IsObjectType(other) || !Get(other, "text").Str?
                             || Get(other, "text").s == "")
    ensures PartLines(parts + [other]) == PartLines(parts)
  {
    FilterMapStep(parts + [other], |parts|, PartText);
    assert (parts + [other])[..|parts|] == parts;
  }

  /** The record `extractMessages` pushes for a node, or `None` when it skips the node. */
  function RecordOf(node: Value, roles: set<string>): Option<Record> {
    var message := Get(node, "message");
    var role := Get(Get(message, "author"), "role");
    var content := AggregatedContent(Get(message, "content"));
    if !Truthy(message) || !Truthy(role) || !(role.Str? && role.s in roles) || content == "" then None
    else
      Some(Record(role.s, content, Timestamp.FormatTimestamp(Get(message, "create_time")),
                  OrNull(Get(message, "id")), OrNull(Get(message, "status"))))
  }

  /** `RecordOf` for a fixed role filter. */
  function RecordsFor(roles: set<string>): Value -> Option<Record> {
    node => RecordOf(node, roles)
  }

  /** The records pushed for `nodes`, in node order. */
  function Collect(nodes: seq<Value>, roles: set<string>): seq<Record> {
    FilterMap(nodes, RecordsFor(roles))
  }

  /** `extractMessages`: collect in mapping order, then sort by time. */
  method ExtractMessages(mapping: Value, roles: set<string>) returns (messages: seq<Record>)
    requires mapping.Arr? || mapping.Obj?
    ensures messages == SortByTime(Collect(ObjectValues(mapping), roles), RecordTime)
  {
    var nodes := ObjectValues(mapping);
    var collected: seq<Record> := [];
    for k := 0 to |nodes|
      invariant collected == Collect(nodes[..k], roles)
    {
      FilterMapStep(nodes, k, RecordsFor(roles));
      var node := nodes[k];
      var message := Get(node, "message");
      if !Truthy(message) {
        continue;
      }
      var role := Get(Get(message, "author"), "role");
      if !Truthy(role) || !(role.Str? && role.s in roles) {
        continue;
      }
      var content := AggregateContent(Get(message, "content"));
      if content == "" {
        continue;
      }
      collected := collected + [Record(role.s, content, Timestamp.FormatTimestamp(Get(message, "create_time")),
                                       OrNull(Get(message, "id")), OrNull(Get(message, "status")))];
    }
    assert nodes[..|nodes|] == nodes;
    messages := SortByTime(collected, RecordTime);
  }

  /** A node yields a record exactly when it has a message, a non-empty role in the filter and
    * non-empty content. */
  lemma RecordOfKept(node: Value, roles: set<string>)
    ensures var message := Get(node, "message");
            var role := Get(Get(message, "author"), "role");
            RecordOf(node, roles).Some? <==>
              Truthy(message) && role.Str? && role.s != "" && role.s in roles
              && AggregatedContent(Get(message, "content")) != ""
  {
  }

  /** A record carries a role of the filter, trimmed non-empty text and a formatted or `unknown`
    * time. */
  lemma RecordOfFields(node: Value, roles: set<string>)
    requires RecordOf(node, roles).Some?
    ensures var r := RecordOf(node, roles).value;
            r.role in roles && r.content != "" && Trim(r.content) == r.content
            && (r.time == Timestamp.Unknown || |r.time| == 27 || |r.time| == 30)
  {
    var message := Get(node, "message");
    AggregatedContentTrimmed(Get(message, "content"));
    Timestamp.FormatTimestampLength(Get(message, "create_time"));
  }

  /** The collected records are exactly those of the qualifying nodes. */
  lemma CollectMembership(nodes: seq<Value>, roles: set<string>, r: Record)
    ensures r in Collect(nodes, roles) <==> exists i :: 0 <= i < |nodes| && RecordOf(nodes[i], roles) == Some(r)
  {
    FilterMapMembership(nodes, RecordsFor(roles), r);
  }

  /** Every extracted message comes from a qualifying node, and the list is ordered with known
    * times ascending before every `unknown` one. */
  lemma ExtractedMessages(nodes: seq<Value>, roles: set<string>)
    ensures var ms := SortByTime(Collect(nodes, roles), RecordTime);
            (forall r :: r in ms ==> exists i :: 0 <= i < |nodes| && RecordOf(nodes[i], roles) == Some(r))
            && SortedBy(ms, RecordTime)
  {
    var c := Collect(nodes, roles);
    var ms := SortByTime(c, RecordTime);
    SortPermutes(c, RecordTime);
    SortSorted(c, RecordTime);
    forall r | r in ms
      ensures exists i :: 0 <= i < |nodes| && RecordOf(nodes[i], roles) == Some(r)
    {
      assert r in multiset(ms);
      CollectMembership(nodes, roles, r);
    }
  }

  /** `extractTitle`: the trimmed string title, or `''`. */
  function ExtractTitle(payload: Value): (title: string)
    ensures Get(payload, "title").Str? ==> title == Trim(Get(payload, "title").s)
    ensures !Get(payload, "title").Str? ==> title == ""
    ensures Trim(title) == title
  {
    var t := Get(payload, "title");
    if t.Str? then TrimIdempotent(t.s); Trim(t.s) else ""
  }

  /** The header line of a record. */
  function Header(m: Record): string {
    "### " + Capitalize(m.role) + HeaderSeparator + m.time
  }

  /** The lines pushed for the title. */
  function TitleLines(title: string): seq<string> {
    if title != "" then ["# " + title, ""] else []
  }

  /** The four lines pushed per message: header, blank, content, blank. */
  function Block(m: Record): seq<string> {
    [Header(m), "", m.content, ""]
  }

  function BlockLines(messages: seq<Record>): seq<string> {
    ConcatMap(messages, Block)
  }

  function TranscriptLines(messages: seq<Record>, title: string): seq<string> {
    TitleLines(title) + BlockLines(messages)
  }

  /** `renderMarkdown`. */
  method RenderMarkdown(messages: seq<Record>, title: string) returns (r: string)
    ensures r == Join(TranscriptLines(messages, title), "\n")
  {
    var lines: seq<string> := [];
    if title != "" {
      lines := lines + ["# " + title];
      lines := lines + [""];
    }
    for k := 0 to |messages|
      invariant lines == TitleLines(title) + BlockLines(messages[..k])
    {
      ConcatMapStep(messages, k, Block);
      var message := messages[k];
      ghost var before := lines;
      lines := lines + [Header(message)];
      lines := lines + [""];
      lines := lines + [message.content];
      lines := lines + [""];
      PushFour(before, Header(message), "", message.content, "");
      AppendAssoc(TitleLines(title), BlockLines(messages[..k]), Block(message));
    }
    assert messages[..|messages|] == messages;
    r := Join(lines, "\n");
  }

  /** The transcript starts with the title's lines, then holds each message's block in order. */
  lemma TranscriptBlocks(messages: seq<Record>, title: string)
    ensures var lines, n := TranscriptLines(messages, title), |TitleLines(title)|;
            |lines| == n + 4 * |messages| && lines[..n] == TitleLines(title)
            && forall k :: 0 <= k < |messages| ==> lines[n + 4 * k .. n + 4 * k + 4] == Block(messages[k])
  {
    ConcatMapFour(messages, Block);
    forall k | 0 <= k < |messages|
      ensures TranscriptLines(messages, title)[|TitleLines(title)| + 4 * k .. |TitleLines(title)| + 4 * k + 4]
              == Block(messages[k])
    {
      ConcatMapSlice(TitleLines(title), messages, Block, k);
    }
  }

  /** Two title lines only for a non-empty title, then four lines per message. */
  lemma TranscriptLineCount(messages: seq<Record>, title: string)
    ensures |TranscriptLines(messages, title)| == (if title != "" then 2 else 0) + 4 * |messages|
  {
    TranscriptBlocks(messages, title);
  }

  /** The transcript of a payload, as `conversationToMarkdown` builds it. */
  function Transcript(payload: Value, role: Value): string {
    var mapping := Get(payload, "mapping");
    if !(mapping.Arr? || mapping.Obj?) then ""
    else
      var messages := SortByTime(Collect(ObjectValues(mapping), BuildRoleFilter(role)), RecordTime);
      Join(TranscriptLines(messages, ExtractTitle(payload)), "\n")
  }

  /** `conversationToMarkdown(payload, {role})`. */
  method ConversationToMarkdown(payload: Value, role: Value) returns (r: string)
    ensures r == Transcript(payload, role)
    ensures !(Get(payload, "mapping").Arr? || Get(payload, "mapping").Obj?) ==> r == ""
  {
    var mapping := Get(payload, "mapping");
    if !Truthy(mapping) || !IsObjectType(mapping) {
      assert !(mapping.Arr? || mapping.Obj?);
      return "";
    }
    var roles := BuildRoleFilter(role);
    var messages := ExtractMessages(mapping, roles);
    var title := ExtractTitle(payload);
    r := RenderMarkdown(messages, title);
  }
}
