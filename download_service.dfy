/**
 * The background download service of `lib/background/index.js`: it accepts a download request
 * message, checks the conversation payload, picks the format and the file name, renders the
 * file's text and encodes it into a `data:` URL for the download.
 */
module DownloadService {
  import opened Wrappers
  import opened Text
  import opened Js
  import opened Base64
  import opened Seqs
  import MarkdownRendering
  import ConversationParser

  const DownloadRequestType := "CHATGPT_SAVE_DOWNLOAD_REQUEST"
  const MissingConversation := "openAI response payload missing or invalid."
  const DefaultFilenameBase := "chatgpt-conversation"
  const ChunkSize := 0x8000

  /** `isPlainObject`: not `null`, of type `object`, and not an array. */
  predicate IsPlainObject(v: Value) {
    v.Obj?
  }

  /** `normalizeFormat`. */
  function NormalizeFormat(value: Value): string {
    if !value.Str? then "json"
    else if ToLower(value.s) == "markdown" then "markdown"
    else "json"
  }

  /** Markdown is chosen exactly for a string spelling `markdown` in any mix of ASCII cases;
    * anything else, strings or not, means JSON. */
  lemma NormalizeFormatMeaning(value: Value)
    ensures NormalizeFormat(value) == "markdown" || NormalizeFormat(value) == "json"
    ensures NormalizeFormat(value) == "markdown" <==>
      value.Str? && |value.s| == 8
      && forall i :: 0 <= i < 8 ==> value.s[i] == "markdown"[i] || value.s[i] == "MARKDOWN"[i]
  {
    if value.Str? {
      ToLowerEquals(value.s, "markdown");
    }
  }

  /** `requireConversation`. */
  function RequireConversation(response: Value): (r: Result<Value>)
    ensures r.Ok? <==> IsPlainObject(response)
    ensures r.Ok? ==> r.value == response
    ensures r.Err? ==> r.message == MissingConversation
  {
    if !IsPlainObject(response) then Err(MissingConversation) else Ok(response)
  }

  predicate IsSlugChar(c: char) { IsAsciiLower(c) || IsAsciiDigit(c) }

  /** `.replace(/[^a-z0-9]+/g, '-')`: every run of other characters becomes one `-`; `inRun`
    * says the character before `s` already belonged to such a run. */
  function Collapse(s: string, inRun: bool): string
    decreases |s|
  {
    if s == [] then []
    else if IsSlugChar(s[0]) then [s[0]] + Collapse(s[1..], false)
    else if inRun then Collapse(s[1..], true)
    else ['-'] + Collapse(s[1..], true)
  }

  /** `.replace(/^-+|-+$/g, '')`, first half. */
  function StripLeading(s: string): (r: string)
    ensures |r| <= |s| && r == s[|s| - |r|..]
    ensures r == [] || r[0] != '-'
    decreases |s|
  {
    if s != [] && s[0] == '-' then StripLeading(s[1..]) else s
  }

  /** `.replace(/^-+|-+$/g, '')`, second half. */
  function StripTrailing(s: string): (r: string)
    ensures |r| <= |s| && r == s[..|r|]
    ensures r == [] || r[|r| - 1] != '-'
    decreases |s|
  {
    if s != [] && s[|s| - 1] == '-' then StripTrailing(s[..|s| - 1]) else s
  }

  /** `slugify`: `''` for a non-string. */
  function Slugify(value: Value): string {
    if !value.Str? then ""
    else StripTrailing(StripLeading(Collapse(ToLower(Trim(value.s)), false)))
  }

  /** Only `a`-`z`, `0`-`9` and `-`, with no `-` doubled. */
  predicate SlugChars(s: string) {
    (forall i :: 0 <= i < |s| ==> IsSlugChar(s[i]) || s[i] == '-')
    && forall i :: 0 <= i < |s| - 1 ==> !(s[i] == '-' && s[i + 1] == '-')
  }

  /** A slug: slug characters, and no `-` at either end. */
  predicate IsSlug(s: string) {
    SlugChars(s) && (s != [] ==> s[0] != '-' && s[|s| - 1] != '-')
  }

  lemma {:induction false} CollapseShape(s: string, inRun: bool)
    ensures SlugChars(Collapse(s, inRun))
    ensures inRun ==> Collapse(s, inRun) == [] || Collapse(s, inRun)[0] != '-'
    decreases |s|
  {
    if s != [] {
      CollapseShape(s[1..], !IsSlugChar(s[0]));
    }
  }

  lemma SlugCharsSlice(s: string, i: int, j: int)
    requires SlugChars(s) && 0 <= i <= j <= |s|
    ensures SlugChars(s[i..j])
  {
    var t := s[i..j];
    assert forall k :: 0 <= k < |t| ==> t[k] == s[i + k];
  }

  /** Every slug is made of `a`-`z`, `0`-`9` and single `-` between them. */
  lemma SlugifyShape(value: Value)
    ensures IsSlug(Slugify(value))
  {
    if value.Str? {
      var c := Collapse(ToLower(Trim(value.s)), false);
      CollapseShape(ToLower(Trim(value.s)), false);
      var l := StripLeading(c);
      SlugCharsSlice(c, |c| - |l|, |c|);
      SlugCharsSlice(l, 0, |StripTrailing(l)|);
    }
  }

  lemma {:induction false} CollapseFixed(s: string, inRun: bool)
    requires SlugChars(s) && (inRun ==> s == [] || s[0] != '-')
    ensures Collapse(s, inRun) == s
    decreases |s|
  {
    if s != [] {
      SlugCharsSlice(s, 1, |s|);
      CollapseFixed(s[1..], s[0] == '-');
    }
  }

  lemma TrimOfSlug(s: string)
    requires IsSlug(s)
    ensures Trim(s) == s
  {
    var t := Trim(s);
    var k := |s| - |TrimStart(s)|;
    if s != [] {
      assert !IsJsWhitespace(s[0]) && !IsJsWhitespace(s[|s| - 1]);
      assert k == 0;
      assert k + |t| == |s|;
    }
  }

  lemma ToLowerOfSlug(s: string)
    requires IsSlug(s)
    ensures ToLower(s) == s
  {
    assert forall i :: 0 <= i < |s| ==> LowerChar(s[i]) == s[i];
  }

  /** A slug passes through `slugify` unchanged, so slugifying twice is slugifying once. */
  lemma SlugifyIdempotent(value: Value)
    ensures Slugify(Str(Slugify(value))) == Slugify(value)
  {
    var s := Slugify(value);
    SlugifyShape(value);
    TrimOfSlug(s);
    ToLowerOfSlug(s);
    CollapseFixed(s, false);
    assert StripLeading(s) == s;
    assert StripTrailing(s) == s;
  }

  /** `[title, id, conversation_id]`. */
  function Candidates(response: Value): seq<Value> {
    [Get(response, "title"), Get(response, "id"), Get(response, "conversation_id")]
  }

  /** The first non-empty slug of the candidates, else the default name. */
  function FirstSlug(candidates: seq<Value>): string {
    if candidates == [] then DefaultFilenameBase
    else if Slugify(candidates[0]) != "" then Slugify(candidates[0])
    else FirstSlug(candidates[1..])
  }

  function FilenameBase(response: Value): string {
    FirstSlug(Candidates(response))
  }

  /** `deriveFilenameBase`. */
  method DeriveFilenameBase(response: Value) returns (base: string)
    ensures base == FilenameBase(response)
    ensures (exists i :: 0 <= i < 3 && Slugify(Candidates(response)[i]) != "" && base == Slugify(Candidates(response)[i])
                         && forall j :: 0 <= j < i ==> Slugify(Candidates(response)[j]) == "")
         || ((forall i :: 0 <= i < 3 ==> Slugify(Candidates(response)[i]) == "") && base == DefaultFilenameBase)
  {
    var candidates := Candidates(response);
    for k := 0 to |candidates|
      invariant forall j :: 0 <= j < k ==> Slugify(candidates[j]) == ""
      invariant FirstSlug(candidates[k..]) == FilenameBase(response)
    {
      assert candidates[k..][1..] == candidates[k + 1..];
      var slug := Slugify(candidates[k]);
      if slug != "" {
        return slug;
      }
    }
    base := DefaultFilenameBase;
  }

  lemma DefaultIsSlug()
    ensures IsSlug(DefaultFilenameBase)
  {
    assert forall i :: 0 <= i < |DefaultFilenameBase| ==> IsSlugChar(DefaultFilenameBase[i]) || DefaultFilenameBase[i] == '-';
  }

  /** Every file name base is a non-empty slug. */
  lemma FilenameBaseShape(response: Value)
    ensures FilenameBase(response) != "" && IsSlug(FilenameBase(response))
  {
    var cs := Candidates(response);
    SlugifyShape(cs[0]);
    SlugifyShape(cs[1]);
    SlugifyShape(cs[2]);
    if Slugify(cs[0]) == "" {
      assert FirstSlug(cs) == FirstSlug(cs[1..]);
      if Slugify(cs[1]) == "" {
        assert FirstSlug(cs[1..]) == FirstSlug(cs[2..]);
        if Slugify(cs[2]) == "" {
          assert FirstSlug(cs[2..]) == FirstSlug([]);
          DefaultIsSlug();
        }
      }
    }
  }

  /** `String.fromCharCode` of each byte: one character per byte, with that code. */
  function BinaryString(bytes: seq<Byte>): (r: string)
    ensures |r| == |bytes|
  {
    seq(|bytes|, i requires 0 <= i < |bytes| => bytes[i] as char)
  }

  /** `btoa`: the base 64 text of the characters' codes, or the error it throws for a character
    * beyond U+00FF. */
  function Btoa(binary: string): Result<string> {
    if forall i :: 0 <= i < |binary| ==> binary[i] as int < 256 then
      Ok(Encode(seq(|binary|, i requires 0 <= i < |binary| => binary[i] as int)))
    else Err("InvalidCharacterError")
  }

  /** The `data:` URL of some bytes. */
  function DataUrl(mimeType: string, bytes: seq<Byte>): string {
    "data:" + mimeType + ";base64," + Encode(bytes)
  }

  lemma BinaryStringAppend(a: seq<Byte>, b: seq<Byte>)
    ensures BinaryString(a + b) == BinaryString(a) + BinaryString(b)
  {
  }

  /** A binary string of bytes encodes as the bytes themselves. */
  lemma BtoaOfBinary(bytes: seq<Byte>)
    ensures Btoa(BinaryString(bytes)) == Ok(Encode(bytes))
  {
    var binary := BinaryString(bytes);
    assert seq(|binary|, i requires 0 <= i < |binary| => binary[i] as int) == bytes;
  }

  /** `encodeDataUrl` on the bytes of the content: the chunked loop converts every byte once, in
    * order, and the URL carries their base 64 text. */
  method EncodeDataUrl(bytes: seq<Byte>, mimeType: string) returns (url: string)
    ensures url == DataUrl(mimeType, bytes)
  {
    var binary := "";
    var offset := 0;
    while offset < |bytes|
      invariant 0 <= offset <= |bytes| || (offset > |bytes| && offset - ChunkSize < |bytes|)
      invariant binary == BinaryString(bytes[..if offset < |bytes| then offset else |bytes|])
      decreases |bytes| - offset
    {
      var end := if offset + ChunkSize < |bytes| then offset + ChunkSize else |bytes|;
      var chunk := bytes[offset..end];
      BinaryStringAppend(bytes[..offset], chunk);
      assert bytes[..offset] + chunk == bytes[..end];
      binary := binary + BinaryString(chunk);
      offset := offset + ChunkSize;
    }
    assert bytes[..|bytes|] == bytes;
    BtoaOfBinary(bytes);
    var base64 := Btoa(binary);
    url := "data:" + mimeType + ";base64," + base64.value;
  }

  /** The text after the URL's header decodes back to exactly the content's bytes. */
  lemma DataUrlRoundTrip(mimeType: string, bytes: seq<Byte>)
    ensures var header := "data:" + mimeType + ";base64,";
            DataUrl(mimeType, bytes)[..|header|] == header
            && Decode(DataUrl(mimeType, bytes)[|header|..]) == Some(bytes)
  {
    var header := "data:" + mimeType + ";base64,";
    assert DataUrl(mimeType, bytes)[|header|..] == Encode(bytes);
    DecodeEncode(bytes);
  }

  /** What `processDownload` hands to `triggerDownload` and reports. */
  datatype Download = Download(format: string, filename: string, content: string, mimeType: string)

  /** `s || ''` for a string. */
  function OrEmpty(s: string): string {
    if Truthy(Str(s)) then s else ""
  }

  /** `new MarkdownRenderer(response, markdownMessages || {}).compile() || ''`. */
  function MarkdownText(response: Value, markdownMessages: Value): string {
    OrEmpty(MarkdownRendering.Compiled(response, if Truthy(markdownMessages) then markdownMessages else Obj([])))
  }

  /** `processDownload`; `stringify` is `JSON.stringify(_, null, 2)`. */
  function ProcessDownload(payload: Value, stringify: Value -> string): Result<Download> {
    var format := NormalizeFormat(Get(payload, "format"));
    match RequireConversation(Get(payload, "openAIResponse"))
    case Err(message) => Err(message)
    case Ok(response) =>
      var base := FilenameBase(response);
      if format == "markdown" then
        Ok(Download(format, base + ".md", MarkdownText(response, Get(payload, "markdownMessages")), "text/markdown"))
      else
        Ok(Download("json", base + ".json", stringify(response), "application/json"))
  }

  /** The file is `<slug>.md` with the rendered transcript for the Markdown format, and
    * `<slug>.json` with the serialised response otherwise; a payload without a plain-object
    * response fails with the fixed message. */
  lemma ProcessDownloadMeaning(payload: Value, stringify: Value -> string)
    ensures ProcessDownload(payload, stringify).Err? <==> !IsPlainObject(Get(payload, "openAIResponse"))
    ensures ProcessDownload(payload, stringify).Err? ==> ProcessDownload(payload, stringify).message == MissingConversation
    ensures ProcessDownload(payload, stringify).Ok? ==>
      var d, response := ProcessDownload(payload, stringify).value, Get(payload, "openAIResponse");
      var base := FilenameBase(response);
      base != "" && IsSlug(base)
      && (NormalizeFormat(Get(payload, "format")) == "markdown" ==>
            var markdownMessages := Get(payload, "markdownMessages");
            d == Download("markdown", base + ".md",
                          MarkdownRendering.Compiled(response, if Truthy(markdownMessages) then markdownMessages else Obj([])),
                          "text/markdown"))
      && (NormalizeFormat(Get(payload, "format")) != "markdown" ==>
            d == Download("json", base + ".json", stringify(response), "application/json"))
  {
    FilenameBaseShape(Get(payload, "openAIResponse"));
    NormalizeFormatMeaning(Get(payload, "format"));
    var markdownMessages := Get(payload, "markdownMessages");
    OrEmptyKeeps(MarkdownRendering.Compiled(Get(payload, "openAIResponse"), if Truthy(markdownMessages) then markdownMessages else Obj([])));
  }

  /** With no Markdown from the page, no message is rendered. */
  lemma NothingMapped(mapping: Value)
    requires mapping.Arr? || mapping.Obj?
    ensures MarkdownRendering.Mapped(mapping, Obj([])) == []
  {
    var mapped := MarkdownRendering.Mapped(mapping, Obj([]));
    if mapped != [] {
      var f := MarkdownRendering.MappedFor(Obj([]));
      FilterMapMembership(ObjectValues(mapping), f, mapped[0]);
      assert false;
    }
  }

  /** `|| ''` leaves every string as it is. */
  lemma OrEmptyKeeps(s: string)
    ensures OrEmpty(s) == s
  {
  }

  lemma CompiledWithoutMarkdown(response: Value)
    requires var mapping := Get(response, "mapping"); mapping.Arr? || mapping.Obj?
    ensures MarkdownRendering.Compiled(response, Obj([]))
         == MarkdownRendering.Rendered([], ConversationParser.ExtractTitle(response))
  {
    NothingMapped(Get(response, "mapping"));
  }

  /** The page's `''` for a thread without articles counts as no Markdown at all: the Markdown
    * file then holds the title entry and nothing else. */
  lemma EmptyParseGivesTitleOnly(payload: Value, stringify: Value -> string)
    requires NormalizeFormat(Get(payload, "format")) == "markdown"
    requires IsPlainObject(Get(payload, "openAIResponse"))
    requires var mapping := Get(Get(payload, "openAIResponse"), "mapping"); mapping.Arr? || mapping.Obj?
    requires Get(payload, "markdownMessages") == Str("")
    ensures var title := ConversationParser.ExtractTitle(Get(payload, "openAIResponse"));
            ProcessDownload(payload, stringify).Ok?
            && ProcessDownload(payload, stringify).value.content == (if title != "" then "# " + title + "\n\n\n" else "")
  {
    var response := Get(payload, "openAIResponse");
    OrEmptyKeeps(MarkdownRendering.Compiled(response, Obj([])));
    CompiledWithoutMarkdown(response);
    MarkdownRendering.RenderedWithoutMessages(ConversationParser.ExtractTitle(response));
  }

  /** What `handleMessage` returns, and the response it eventually sends, if any. */
  datatype Handled = Handled(returned: Value, response: Option<Value>)

  /** The response object for the outcome of `processDownload`. */
  function ResponseFor(outcome: Result<Download>): Value {
    match outcome
    case Ok(d) => Obj([Field("ok", Bool(true)), Field("format", Str(d.format)), Field("filename", Str(d.filename))])
    case Err(message) => Obj([Field("ok", Bool(false)), Field("error", Str(message))])
  }

  /** `handleMessage`: `true` keeps the channel open for the asynchronous response. */
  function HandleMessage(message: Value, stringify: Value -> string): Handled {
    if !IsPlainObject(message) then Handled(Undefined, None)
    else if Get(message, "type") == Str(DownloadRequestType) then
      Handled(Bool(true), Some(ResponseFor(ProcessDownload(Get(message, "payload"), stringify))))
    else Handled(Undefined, None)
  }

  /** Only a plain-object download request is answered, and then asynchronously with `true`;
    * every other message gets `undefined` and no response. */
  lemma HandleMessageMeaning(message: Value, stringify: Value -> string)
    ensures HandleMessage(message, stringify).returned == Bool(true) <==>
      IsPlainObject(message) && Get(message, "type") == Str(DownloadRequestType)
    ensures HandleMessage(message, stringify).returned != Bool(true) ==>
      HandleMessage(message, stringify) == Handled(Undefined, None)
    ensures HandleMessage(message, stringify).response.Some? ==>
      var r := HandleMessage(message, stringify).response.value;
      Get(r, "ok") == Bool(ProcessDownload(Get(message, "payload"), stringify).Ok?)
  {
  }
}
