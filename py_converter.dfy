/**
 * The Python reference converter `example_chatgpt_to_markdown.py`: it collects the messages of
 * a saved payload's `mapping`, sorts them by their readable time and renders them as Markdown.
 * Its semantics differ from the extension's own transcript builder: Python truthiness, no
 * trimming, `str.capitalize`, and exceptions where a payload has the wrong shape. An exception
 * is an `Err` carrying the exception's class name.
 */
module PyConverter {
  import opened Wrappers
  import opened Text
  import opened Js
  import opened Seqs
  import TimeOrder
  import Timestamp

  /** One collected message dict; `id` and `status` are whatever the payload holds there, a
    * missing `status` being `None` (`Null`). */
  datatype PyMessage = PyMessage(role: string, time: string, content: string, id: Value, status: Value)

  function MessageTime(m: PyMessage): string { m.time }

  /** Python truthiness of a JSON value: `None`, `False`, zero, and empty strings, lists and
    * dicts are false. */
  predicate PyTruthy(v: Value) {
    match v
    case Undefined => false
    case Null => false
    case Bool(b) => b
    case Num(n) => !(n.Finite? && n.r == 0.0)
    case Str(s) => s != ""
    case Arr(items) => items != []
    case Obj(fields) => fields != []
  }

  predicate HasKey(fields: seq<Field>, key: string) {
    exists i :: 0 <= i < |fields| && fields[i].key == key
  }

  /** `d.get(key, default)` on a dict. */
  function PyGet(fields: seq<Field>, key: string, default: Value): Value {
    if HasKey(fields, key) then Lookup(fields, key) else default
  }

  /** What `for part in x` visits: a list's items, a dict's keys, a string's characters; other
    * values are not iterable. */
  function Iterated(x: Value): Result<seq<Value>> {
    match x
    case Arr(items) => Ok(items)
    case Obj(fields) => Ok(seq(|fields|, i requires 0 <= i < |fields| => Str(fields[i].key)))
    case Str(s) => Ok(seq(|s|, i requires 0 <= i < |s| => Str([s[i]])))
    case _ => Err("TypeError")
  }

  /** What one part appends to `content`: a dict's `text` (default `""`), a string as it is. */
  function PartPiece(part: Value): Option<Value> {
    if part.Obj? then Some(PyGet(part.fields, "text", Str("")))
    else if part.Str? then Some(part)
    else None
  }

  /** The inner loop of `extract_messages`: the pieces of every part, in order. */
  method ContentPieces(parts: seq<Value>) returns (content: seq<Value>)
    ensures content == FilterMap(parts, PartPiece)
  {
    content := [];
    for k := 0 to |parts|
      invariant content == FilterMap(parts[..k], PartPiece)
    {
      FilterMapStep(parts, k, PartPiece);
      var part := parts[k];
      if part.Obj? {
        content := content + [PyGet(part.fields, "text", Str(""))];
      } else if part.Str? {
        content := content + [part];
      }
    }
    assert parts[..|parts|] == parts;
  }

  /** `"\n".join(pieces)`, which raises unless every piece is a string. */
  function JoinLines(pieces: seq<Value>): (r: Result<string>)
    ensures r.Ok? <==> forall i :: 0 <= i < |pieces| ==> pieces[i].Str?
  {
    if forall i :: 0 <= i < |pieces| ==> pieces[i].Str? then
      Ok(Join(seq(|pieces|, i requires 0 <= i < |pieces| => pieces[i].s), "\n"))
    else Err("TypeError")
  }

  /** Pieces of string parts are the parts themselves, and a dict part without `text` still
    * contributes an empty piece. */
  lemma PartPieceMeaning(part: Value)
    ensures part.Str? ==> PartPiece(part) == Some(part)
    ensures part.Obj? && !HasKey(part.fields, "text") ==> PartPiece(part) == Some(Str(""))
    ensures PartPiece(part).None? <==> !(part.Obj? || part.Str?)
  {
  }

  /** Content of string parts is their exact newline join: nothing is trimmed or dropped, not
    * even empty strings. */
  lemma ContentOfStrings(parts: seq<Value>)
    requires forall i :: 0 <= i < |parts| ==> parts[i].Str?
    ensures JoinLines(FilterMap(parts, PartPiece)) == Ok(Join(seq(|parts|, i requires 0 <= i < |parts| => parts[i].s), "\n"))
  {
    FilterMapTotal(parts, PartPiece);
    var pieces := FilterMap(parts, PartPiece);
    assert pieces == parts by {
      forall i | 0 <= i < |parts|
        ensures pieces[i] == parts[i]
      {
        assert PartPiece(parts[i]) == Some(parts[i]);
      }
    }
  }

  /** `epoch_to_readable`: `"unknown"` for `None`; otherwise `localTime`, the local-time
    * rendering, which may raise. */
  function EpochToReadable(ts: Value, localTime: Value -> Result<string>): (r: Result<string>)
    ensures ts.Null? ==> r == Ok(Timestamp.Unknown)
  {
    if ts.Null? then Ok(Timestamp.Unknown) else localTime(ts)
  }

  /** What one node of the mapping contributes to `collected`. */
  function Entry(node: Value, keepRoles: set<string>, localTime: Value -> Result<string>): (r: Result<Option<PyMessage>>)
    ensures r.Ok? && r.value.Some? ==> r.value.value.role in keepRoles
    ensures r.Ok? ==> node.Obj?
  {
    if !node.Obj? then Err("AttributeError")
    else
      var msg := PyGet(node.fields, "message", Null);
      if !PyTruthy(msg) then Ok(None)
      else if !msg.Obj? then Err("TypeError")
      else if !HasKey(msg.fields, "author") then Err("KeyError")
      else
        var author := Lookup(msg.fields, "author");
        if !author.Obj? then Err("TypeError")
        else if !HasKey(author.fields, "role") then Err("KeyError")
        else
          var role := Lookup(author.fields, "role");
          if role.Arr? || role.Obj? then Err("TypeError")
          else if !(role.Str? && role.s in keepRoles) then Ok(None)
          else if !HasKey(msg.fields, "content") then Err("KeyError")
          else
            var content := Lookup(msg.fields, "content");
            if !content.Obj? then Err("AttributeError")
            else
              match Iterated(PyGet(content.fields, "parts", Arr([])))
              case Err(e) => Err(e)
              case Ok(parts) =>
                match EpochToReadable(PyGet(msg.fields, "create_time", Null), localTime)
                case Err(e) => Err(e)
                case Ok(time) =>
                  match JoinLines(FilterMap(parts, PartPiece))
                  case Err(e) => Err(e)
                  case Ok(text) =>
                    if !HasKey(msg.fields, "id") then Err("KeyError")
                    else Ok(Some(PyMessage(role.s, time, text, Lookup(msg.fields, "id"),
                                           PyGet(msg.fields, "status", Null))))
  }

  /** A node is skipped exactly when it is a dict whose `message` is falsy, or whose role is a
    * hashable value outside `keepRoles` (an error may still come first). */
  lemma EntrySkips(node: Value, keepRoles: set<string>, localTime: Value -> Result<string>)
    ensures Entry(node, keepRoles, localTime) == Ok(None) <==>
      node.Obj? &&
      var msg := PyGet(node.fields, "message", Null);
      (!PyTruthy(msg)
       || (msg.Obj? && HasKey(msg.fields, "author") && Lookup(msg.fields, "author").Obj?
           && HasKey(Lookup(msg.fields, "author").fields, "role")
           && var role := Lookup(Lookup(msg.fields, "author").fields, "role");
              !(role.Arr? || role.Obj?) && !(role.Str? && role.s in keepRoles)))
  {
  }

  /** `collected` after the loop over `nodes`: the first exception stops it. */
  function Collected(nodes: seq<Value>, keepRoles: set<string>, localTime: Value -> Result<string>): Result<seq<PyMessage>> {
    if nodes == [] then Ok([])
    else
      match Collected(nodes[..|nodes| - 1], keepRoles, localTime)
      case Err(e) => Err(e)
      case Ok(ms) =>
        match Entry(nodes[|nodes| - 1], keepRoles, localTime)
        case Err(e) => Err(e)
        case Ok(entry) => Ok(ms + if entry.Some? then [entry.value] else [])
  }

  /** Once an exception is raised, later nodes do not matter. */
  lemma {:induction false} CollectedErrStays(nodes: seq<Value>, k: int, keepRoles: set<string>, localTime: Value -> Result<string>)
    requires 0 <= k <= |nodes| && Collected(nodes[..k], keepRoles, localTime).Err?
    ensures Collected(nodes, keepRoles, localTime) == Collected(nodes[..k], keepRoles, localTime)
    decreases |nodes| - k
  {
    if k < |nodes| {
      assert nodes[..k + 1][..k] == nodes[..k];
      CollectedErrStays(nodes, k + 1, keepRoles, localTime);
    } else {
      assert nodes[..k] == nodes;
    }
  }

  /** Every collected message has a kept role, and a node yields at most one message. */
  lemma {:induction false} CollectedRoles(nodes: seq<Value>, keepRoles: set<string>, localTime: Value -> Result<string>)
    requires Collected(nodes, keepRoles, localTime).Ok?
    ensures var ms := Collected(nodes, keepRoles, localTime).value;
            |ms| <= |nodes| && forall i :: 0 <= i < |ms| ==> ms[i].role in keepRoles
    ensures forall i :: 0 <= i < |nodes| ==> nodes[i].Obj?
  {
    if nodes != [] {
      var init := nodes[..|nodes| - 1];
      CollectedRoles(init, keepRoles, localTime);
      forall i | 0 <= i < |nodes| ensures nodes[i].Obj? {
        if i < |init| { assert nodes[i] == init[i]; }
      }
    }
  }

  /** `extract_messages`: the collected messages, stably sorted by `(time == "unknown", time)`. */
  function Extracted(nodes: seq<Value>, keepRoles: set<string>, localTime: Value -> Result<string>): Result<seq<PyMessage>> {
    match Collected(nodes, keepRoles, localTime)
    case Err(e) => Err(e)
    case Ok(ms) => Ok(TimeOrder.SortByTime(ms, MessageTime))
  }

  /** The body of the loop of `extract_messages` for one node: `None` where it `continue`s. */
  method NodeEntry(node: Value, keepRoles: set<string>, localTime: Value -> Result<string>)
    returns (r: Result<Option<PyMessage>>)
    ensures r == Entry(node, keepRoles, localTime)
  {
    if !node.Obj? {
      return Err("AttributeError");
    }
    var msg := PyGet(node.fields, "message", Null);
    if !PyTruthy(msg) {
      return Ok(None);
    }
    if !msg.Obj? {
      return Err("TypeError");
    }
    if !HasKey(msg.fields, "author") {
      return Err("KeyError");
    }
    var author := Lookup(msg.fields, "author");
    if !author.Obj? {
      return Err("TypeError");
    }
    if !HasKey(author.fields, "role") {
      return Err("KeyError");
    }
    var role := Lookup(author.fields, "role");
    if role.Arr? || role.Obj? {
      return Err("TypeError");
    }
    if !(role.Str? && role.s in keepRoles) {
      return Ok(None);
    }
    if !HasKey(msg.fields, "content") {
      return Err("KeyError");
    }
    var content := Lookup(msg.fields, "content");
    if !content.Obj? {
      return Err("AttributeError");
    }
    var contentParts := Iterated(PyGet(content.fields, "parts", Arr([])));
    if contentParts.Err? {
      return Err(contentParts.message);
    }
    var pieces := ContentPieces(contentParts.value);
    var time := EpochToReadable(PyGet(msg.fields, "create_time", Null), localTime);
    if time.Err? {
      return Err(time.message);
    }
    var text := JoinLines(pieces);
    if text.Err? {
      return Err(text.message);
    }
    if !HasKey(msg.fields, "id") {
      return Err("KeyError");
    }
    r := Ok(Some(PyMessage(role.s, time.value, text.value, Lookup(msg.fields, "id"), PyGet(msg.fields, "status", Null))));
  }

  /** `extract_messages` over `mapping.values()`. */
  method ExtractMessages(nodes: seq<Value>, keepRoles: set<string>, localTime: Value -> Result<string>)
    returns (r: Result<seq<PyMessage>>)
    ensures r == Extracted(nodes, keepRoles, localTime)
  {
    var collected: seq<PyMessage> := [];
    for k := 0 to |nodes|
      invariant Collected(nodes[..k], keepRoles, localTime) == Ok(collected)
    {
      assert nodes[..k + 1][..k] == nodes[..k] && nodes[..k + 1][k] == nodes[k];
      var entry := NodeEntry(nodes[k], keepRoles, localTime);
      if entry.Err? {
        CollectedErrStays(nodes, k + 1, keepRoles, localTime);
        return Err(entry.message);
      }
      if entry.value.Some? {
        collected := collected + [entry.value.value];
      } else {
        assert collected + [] == collected;
      }
    }
    assert nodes[..|nodes|] == nodes;
    r := Ok(TimeOrder.SortByTime(collected, MessageTime));
  }

  /** The extracted list holds the collected messages, no pair is out of key order, and among
    * equal times the mapping order is kept. */
  lemma ExtractedSorted(nodes: seq<Value>, keepRoles: set<string>, localTime: Value -> Result<string>, t: string)
    requires Extracted(nodes, keepRoles, localTime).Ok?
    ensures var collected := Collected(nodes, keepRoles, localTime).value;
            var ms := Extracted(nodes, keepRoles, localTime).value;
            multiset(ms) == multiset(collected)
            && (forall i, j :: 0 <= i < j < |ms| ==> !TimeOrder.PyKeyLess(ms[j].time, ms[i].time))
            && TimeOrder.WithTime(ms, MessageTime, t) == TimeOrder.WithTime(collected, MessageTime, t)
  {
    var collected := Collected(nodes, keepRoles, localTime).value;
    var ms := TimeOrder.SortByTime(collected, MessageTime);
    TimeOrder.SortPermutes(collected, MessageTime);
    TimeOrder.SortSorted(collected, MessageTime);
    TimeOrder.SortStable(collected, MessageTime, t);
    forall i, j | 0 <= i < j < |ms| ensures !TimeOrder.PyKeyLess(ms[j].time, ms[i].time) {
      assert TimeOrder.TimeLE(ms[i].time, ms[j].time);
      TimeOrder.PyKeyMatchesComparator(ms[j].time, ms[i].time);
      TimeOrder.CompareTimesMeaning(ms[i].time, ms[j].time);
    }
  }

  /** The header separator, an en dash between spaces. */
  const Dash := " – "

  function Header(m: PyMessage): string {
    "### " + PyCapitalize(m.role) + Dash + m.time
  }

  /** The lines `to_markdown` adds for one message: none for empty content, else header, blank,
    * content, blank. */
  function Block(m: PyMessage): seq<string> {
    if m.content == "" then [] else [Header(m), "", m.content, ""]
  }

  function MarkdownLines(messages: seq<PyMessage>): seq<string> {
    ConcatMap(messages, Block)
  }

  /** `to_markdown`. */
  method ToMarkdown(messages: seq<PyMessage>) returns (r: string)
    ensures r == Join(MarkdownLines(messages), "\n")
  {
    var lines: seq<string> := [];
    for k := 0 to |messages|
      invariant lines == MarkdownLines(messages[..k])
    {
      ConcatMapStep(messages, k, Block);
      var m := messages[k];
      if m.content == "" {
        continue;
      }
      var header := "### " + PyCapitalize(m.role) + Dash + m.time;
      lines := lines + [header, "", m.content, ""];
    }
    assert messages[..|messages|] == messages;
    r := Join(lines, "\n");
  }

  function NonEmpty(messages: seq<PyMessage>): seq<PyMessage> {
    if messages == [] then []
    else NonEmpty(messages[..|messages| - 1]) + if messages[|messages| - 1].content != "" then [messages[|messages| - 1]] else []
  }

  /** Messages with empty content leave no trace. */
  lemma {:induction false} MarkdownLinesSkipEmpty(messages: seq<PyMessage>)
    ensures MarkdownLines(messages) == MarkdownLines(NonEmpty(messages))
  {
    if messages != [] {
      var init, last := messages[..|messages| - 1], messages[|messages| - 1];
      MarkdownLinesSkipEmpty(init);
      var kept := NonEmpty(init);
      assert MarkdownLines(messages) == MarkdownLines(init) + Block(last);
      assert NonEmpty(messages) == kept + if last.content != "" then [last] else [];
      if last.content != "" {
        var xs := kept + [last];
        assert xs[..|xs| - 1] == kept && xs[|xs| - 1] == last;
        calc {
          MarkdownLines(messages);
          MarkdownLines(init) + Block(last);
          MarkdownLines(kept) + Block(last);
          { assert ConcatMap(xs, Block) == ConcatMap(xs[..|xs| - 1], Block) + Block(xs[|xs| - 1]); }
          MarkdownLines(xs);
        }
      } else {
        assert MarkdownLines(init) + Block(last) == MarkdownLines(init);
        assert kept + [] == kept;
      }
    }
  }

  /** The other messages give four lines each, in order. */
  lemma MarkdownLayout(messages: seq<PyMessage>)
    ensures var kept := NonEmpty(messages);
            |MarkdownLines(messages)| == 4 * |kept|
            && forall k :: 0 <= k < |kept| ==> MarkdownLines(messages)[4 * k .. 4 * k + 4] == [Header(kept[k]), "", kept[k].content, ""]
  {
    MarkdownLinesSkipEmpty(messages);
    var kept := NonEmpty(messages);
    NonEmptyContents(messages);
    assert forall i :: 0 <= i < |kept| ==> kept[i] in kept;
    ConcatMapFour(kept, Block);
    forall k | 0 <= k < |kept|
      ensures MarkdownLines(kept)[4 * k .. 4 * k + 4] == [Header(kept[k]), "", kept[k].content, ""]
    {
      ConcatMapSlice([], kept, Block, k);
      assert [] + MarkdownLines(kept) == MarkdownLines(kept);
    }
  }

  lemma {:induction false} NonEmptyContents(messages: seq<PyMessage>)
    ensures forall m :: m in NonEmpty(messages) ==> m.content != "" && m in messages
  {
    if messages != [] {
      NonEmptyContents(messages[..|messages| - 1]);
      forall m | m in messages[..|messages| - 1] ensures m in messages {
        var i :| 0 <= i < |messages| - 1 && messages[..|messages| - 1][i] == m;
        assert messages[i] == m;
      }
    }
  }

  /** The Markdown is empty exactly when no message has content. */
  lemma MarkdownEmpty(messages: seq<PyMessage>)
    ensures Join(MarkdownLines(messages), "\n") == "" <==> forall i :: 0 <= i < |messages| ==> messages[i].content == ""
  {
    MarkdownLayout(messages);
    NonEmptyAll(messages);
    var lines := MarkdownLines(messages);
    if |lines| > 0 {
      JoinLong(lines, "\n");
    }
  }

  lemma {:induction false} NonEmptyAll(messages: seq<PyMessage>)
    ensures NonEmpty(messages) == [] <==> forall i :: 0 <= i < |messages| ==> messages[i].content == ""
  {
    if messages != [] {
      NonEmptyAll(messages[..|messages| - 1]);
      assert forall i :: 0 <= i < |messages| - 1 ==> messages[..|messages| - 1][i] == messages[i];
    }
  }

  lemma {:induction false} JoinLong(parts: seq<string>, sep: string)
    requires |parts| >= 2
    ensures |Join(parts, sep)| >= |sep|
  {
  }

  /** The roles `main` keeps: `--user-only` and `--assistant-only` are mutually exclusive,
    * and without either both roles are kept. */
  function KeepRoles(userOnly: bool, assistantOnly: bool): (r: Result<set<string>>)
    ensures r.Err? <==> userOnly && assistantOnly
    ensures r.Ok? ==> ("user" in r.value <==> !assistantOnly) && ("assistant" in r.value <==> !userOnly)
                      && r.value <= {"user", "assistant"}
  {
    if userOnly && assistantOnly then Err("usage")
    else if userOnly then Ok({"user"})
    else if assistantOnly then Ok({"assistant"})
    else Ok({"user", "assistant"})
  }

  const NoMapping := "No 'mapping' key found in the provided payload."

  /** The Markdown `main` writes for a parsed payload, or why it stops. */
  function Converted(data: Value, userOnly: bool, assistantOnly: bool, localTime: Value -> Result<string>): Result<string> {
    match KeepRoles(userOnly, assistantOnly)
    case Err(e) => Err(e)
    case Ok(keepRoles) =>
      if !data.Obj? then Err("AttributeError")
      else
        var mapping := PyGet(data.fields, "mapping", Null);
        if !PyTruthy(mapping) then Err(NoMapping)
        else if !mapping.Obj? then Err("AttributeError")
        else
          match Extracted(ObjectValues(mapping), keepRoles, localTime)
          case Err(e) => Err(e)
          case Ok(messages) => Ok(Join(MarkdownLines(messages), "\n"))
  }

  /** `main` after the payload is read: choose the roles, check the mapping, extract and
    * render. */
  method Convert(data: Value, userOnly: bool, assistantOnly: bool, localTime: Value -> Result<string>)
    returns (r: Result<string>)
    ensures r == Converted(data, userOnly, assistantOnly, localTime)
    ensures data.Obj? && !PyTruthy(PyGet(data.fields, "mapping", Null)) && !(userOnly && assistantOnly) ==> r == Err(NoMapping)
  {
    var keepRoles := KeepRoles(userOnly, assistantOnly);
    if keepRoles.Err? {
      return Err(keepRoles.message);
    }
    if !data.Obj? {
      return Err("AttributeError");
    }
    var mapping := PyGet(data.fields, "mapping", Null);
    if !PyTruthy(mapping) {
      return Err(NoMapping);
    }
    if !mapping.Obj? {
      return Err("AttributeError");
    }
    var messages := ExtractMessages(ObjectValues(mapping), keepRoles.value, localTime);
    if messages.Err? {
      return Err(messages.message);
    }
    var markdown := ToMarkdown(messages.value);
    r := Ok(markdown);
  }
}
