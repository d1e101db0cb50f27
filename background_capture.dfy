/**
 * The response capture of `background.js`: it remembers each conversation request's
 * `Content-Encoding`, picks the decompression format for the captured body, names the
 * conversation by the id in the URL path, and forgets the request afterwards.
 */
module BackgroundCapture {
  import opened Wrappers
  import opened Text
  import opened Js
  import opened Base64

  const ContentEncoding := "content-encoding"
  const ConversationPrefix := "conversation/"

  /** `normalizeEncoding`: the `DecompressionStream` format for a content coding, or `None`
    * (`null`) for no coding, `identity` and codings it does not know. `None` in the argument is
    * `undefined`. */
  function NormalizeEncoding(encoding: Option<string>): Option<string> {
    if encoding.None? then None
    else
      var value := ToLower(Trim(encoding.value));
      if value == "" || value == "identity" then None
      else if value == "gzip" || value == "x-gzip" then Some("gzip")
      else if value == "br" then Some("brotli")
      else if value == "deflate" then Some("deflate")
      else None
  }

  /** The coding names of section 8.4.1 of RFC 9110 map to their decompressors, `x-gzip` counting
    * as `gzip`; every other name, `identity`, blank text and `undefined` mean no decompression. */
  lemma NormalizeEncodingMeaning(encoding: string)
    ensures var value := ToLower(Trim(encoding));
      && (NormalizeEncoding(Some(encoding)) == Some("gzip") <==> value == "gzip" || value == "x-gzip")
      && (NormalizeEncoding(Some(encoding)) == Some("brotli") <==> value == "br")
      && (NormalizeEncoding(Some(encoding)) == Some("deflate") <==> value == "deflate")
      && (NormalizeEncoding(Some(encoding)).None? <==> value !in ["gzip", "x-gzip", "br", "deflate"])
    ensures NormalizeEncoding(None) == None
    ensures AllWhitespace(encoding) ==> NormalizeEncoding(Some(encoding)) == None
  {
  }

  /** `conversation/` starts at `p` and is followed by at least one character other than `/`. */
  predicate IdStartsAt(path: string, p: int) {
    0 <= p && p + 13 < |path| && path[p..p + 13] == ConversationPrefix && path[p + 13] != '/'
  }

  function IdFrom(path: string, p: int): Option<string>
    requires 0 <= p <= |path|
    decreases |path| - p
  {
    if p == |path| then None
    else if IdStartsAt(path, p) then Some(path[p + 13..IndexFrom(path, p + 13, '/')])
    else IdFrom(path, p + 1)
  }

  /** `extractConversationId` given the parsed URL's path, `None` when the URL does not parse:
    * `pathname.match(/conversation\/([^/]+)/)?.[1]`. */
  function ExtractConversationId(pathname: Option<string>): Option<string> {
    if pathname.None? then None else IdFrom(pathname.value, 0)
  }

  /** `i` is the first position where an id follows `conversation/`. */
  predicate FirstIdAt(path: string, i: int) {
    0 <= i < |path| && IdStartsAt(path, i) && forall i' :: 0 <= i' < i ==> !IdStartsAt(path, i')
  }

  lemma {:induction false} IdFromMeaning(path: string, p: int)
    requires 0 <= p <= |path|
    requires forall i' :: 0 <= i' < p ==> !IdStartsAt(path, i')
    ensures IdFrom(path, p).None? <==> forall i :: p <= i < |path| ==> !IdStartsAt(path, i)
    ensures IdFrom(path, p).Some? ==>
      exists i :: FirstIdAt(path, i) && IdFrom(path, p).value == path[i + 13..IndexFrom(path, i + 13, '/')]
    decreases |path| - p
  {
    if p < |path| && !IdStartsAt(path, p) {
      IdFromMeaning(path, p + 1);
      assert IdFrom(path, p) == IdFrom(path, p + 1);
    } else if p < |path| {
      assert FirstIdAt(path, p);
    }
  }

  /** The id is not empty and holds no `/`; it runs up to the next `/` or the end. */
  lemma IdShape(path: string, i: int)
    requires 0 <= i < |path| && IdStartsAt(path, i)
    ensures var id := path[i + 13..IndexFrom(path, i + 13, '/')];
            id != [] && '/' !in id
  {
    var id := path[i + 13..IndexFrom(path, i + 13, '/')];
    assert forall k :: 0 <= k < |id| ==> id[k] == path[i + 13 + k];
  }

  /** The id is the non-empty run of characters other than `/` right after the first
    * `conversation/` that has one, anywhere in the path; without one there is no id. */
  lemma ExtractConversationIdMeaning(path: string)
    ensures ExtractConversationId(Some(path)).None? <==> forall i :: 0 <= i < |path| ==> !IdStartsAt(path, i)
    ensures ExtractConversationId(Some(path)).Some? ==>
      var id := ExtractConversationId(Some(path)).value;
      id != [] && '/' !in id && exists i :: FirstIdAt(path, i) && id == path[i + 13..IndexFrom(path, i + 13, '/')]
    ensures ExtractConversationId(None) == None
  {
    IdFromMeaning(path, 0);
    if ExtractConversationId(Some(path)).Some? {
      var id := ExtractConversationId(Some(path)).value;
      var i :| FirstIdAt(path, i) && id == path[i + 13..IndexFrom(path, i + 13, '/')];
      IdShape(path, i);
    }
  }

  /** A response header as the `webRequest` API reports it. */
  datatype HttpHeader = HttpHeader(name: Option<string>, value: Option<string>)

  predicate IsEncodingHeader(h: HttpHeader) {
    h.name.Some? && ToLower(h.name.value) == ContentEncoding
  }

  /** `find` of the first `Content-Encoding` header, by ASCII-insensitive name. */
  function FindEncodingHeader(headers: seq<HttpHeader>): Option<HttpHeader> {
    if headers == [] then None
    else if IsEncodingHeader(headers[0]) then Some(headers[0])
    else FindEncodingHeader(headers[1..])
  }

  /** The coding the header listener records, if any: the first `Content-Encoding` header's
    * value in lower case, when it is not empty. A missing header list counts as empty. */
  function RecordedEncoding(headers: Option<seq<HttpHeader>>): Option<string> {
    var found := FindEncodingHeader(if headers.Some? then headers.value else []);
    if found.Some? && found.value.value.Some? && found.value.value.value != "" then
      Some(ToLower(found.value.value.value))
    else None
  }

  lemma {:induction false} FindEncodingHeaderMeaning(headers: seq<HttpHeader>)
    ensures FindEncodingHeader(headers).None? <==> forall i :: 0 <= i < |headers| ==> !IsEncodingHeader(headers[i])
    ensures FindEncodingHeader(headers).Some? ==>
      exists i :: (0 <= i < |headers| && headers[i] == FindEncodingHeader(headers).value && IsEncodingHeader(headers[i])
                   && forall j :: 0 <= j < i ==> !IsEncodingHeader(headers[j]))
  {
    if headers != [] && !IsEncodingHeader(headers[0]) {
      FindEncodingHeaderMeaning(headers[1..]);
      if FindEncodingHeader(headers).Some? {
        var i :| 0 <= i < |headers[1..]| && headers[1..][i] == FindEncodingHeader(headers).value
                 && IsEncodingHeader(headers[1..][i]) && forall j :: 0 <= j < i ==> !IsEncodingHeader(headers[1..][j]);
        assert headers[i + 1] == headers[1..][i];
        assert forall j :: 1 <= j < i + 1 ==> headers[j] == headers[1..][j - 1];
      }
    }
  }

  /** A recorded coding is the lower-cased, non-empty value of the first `Content-Encoding`
    * header; a later header of that name is never consulted. */
  lemma RecordedEncodingMeaning(headers: seq<HttpHeader>)
    ensures RecordedEncoding(Some(headers)).Some? ==>
      var e := RecordedEncoding(Some(headers)).value;
      e != "" && exists i :: (0 <= i < |headers| && IsEncodingHeader(headers[i])
                              && headers[i].value.Some? && e == ToLower(headers[i].value.value)
                              && forall j :: 0 <= j < i ==> !IsEncodingHeader(headers[j]))
    ensures RecordedEncoding(None) == None
  {
    FindEncodingHeaderMeaning(headers);
  }

  /** The module-level maps `requestEncodings` and `requestChunks`. */
  class RequestTracker {
    var encodings: map<string, string>
    var chunks: map<string, seq<seq<Byte>>>

    /** Every recorded coding is truthy, so `|| 'identity'` only applies to a missing one. */
    predicate Valid()
      reads this
    {
      forall id :: id in encodings ==> encodings[id] != ""
    }

    constructor ()
      ensures Valid() && encodings == map[] && chunks == map[]
    {
      encodings := map[];
      chunks := map[];
    }

    /** The `onHeadersReceived` listener. */
    method OnHeadersReceived(requestId: string, headers: Option<seq<HttpHeader>>)
      requires Valid()
      modifies this
      ensures Valid()
      ensures encodings == if RecordedEncoding(headers).Some? then old(encodings)[requestId := RecordedEncoding(headers).value]
                           else old(encodings)
      ensures chunks == old(chunks)
    {
      var found := FindEncodingHeader(if headers.Some? then headers.value else []);
      if found.Some? && found.value.value.Some? && found.value.value.value != "" {
        encodings := encodings[requestId := ToLower(found.value.value.value)];
      }
    }

    /** The `onBeforeRequest` listener: a fresh chunk list for the request. */
    method OnBeforeRequest(requestId: string)
      requires Valid()
      modifies this
      ensures Valid() && encodings == old(encodings) && chunks == old(chunks)[requestId := []]
    {
      chunks := chunks[requestId := []];
    }

    /** `ondata`: a copy of the data is pushed onto the request's chunk list. */
    method OnData(requestId: string, data: seq<Byte>)
      requires Valid()
      modifies this
      ensures Valid() && encodings == old(encodings)
      ensures chunks == if requestId in old(chunks) then old(chunks)[requestId := old(chunks)[requestId] + [data]]
                        else old(chunks)
    {
      if requestId in chunks {
        chunks := chunks[requestId := chunks[requestId] + [data]];
      }
    }

    /** `requestEncodings.get(requestId) || 'identity'`. */
    function EncodingFor(requestId: string): (e: string)
      requires Valid()
      reads this
      ensures e != ""
      ensures requestId in encodings ==> e == encodings[requestId]
      ensures requestId !in encodings ==> e == "identity"
    {
      if requestId in encodings && encodings[requestId] != "" then encodings[requestId] else "identity"
    }

    /** `cleanupRequest`: the request leaves both maps; every other entry stays as it was. */
    method CleanupRequest(requestId: string)
      requires Valid()
      modifies this
      ensures Valid()
      ensures encodings == old(encodings) - {requestId} && chunks == old(chunks) - {requestId}
    {
      encodings := encodings - {requestId};
      chunks := chunks - {requestId};
    }

    /** `processCapturedResponse`. `decodeAndParse` stands for `decodeBody` and `parseJsonSafe`
      * given the decompression format: `None` when decoding throws, `null` when the text is not
      * JSON. The result is the snapshot handed to storage, if any. Whatever happens, the request
      * is forgotten. */
    method ProcessCapturedResponse(requestId: string, pathname: Option<string>,
                                   decodeAndParse: Option<string> -> Option<Value>)
      returns (snapshot: Option<(string, Value)>)
      requires Valid()
      modifies this
      ensures Valid()
      ensures encodings == old(encodings) - {requestId} && chunks == old(chunks) - {requestId}
      ensures var payload := decodeAndParse(NormalizeEncoding(Some(old(EncodingFor(requestId)))));
              snapshot.Some? <==> payload.Some? && Truthy(payload.value) && ExtractConversationId(pathname).Some?
      ensures snapshot.Some? ==>
              snapshot.value == (ExtractConversationId(pathname).value,
                                 decodeAndParse(NormalizeEncoding(Some(old(EncodingFor(requestId))))).value)
    {
      var encoding := EncodingFor(requestId);
      var payload := decodeAndParse(NormalizeEncoding(Some(encoding)));
      snapshot := None;
      if payload.Some? && Truthy(payload.value) {
        var conversationId := ExtractConversationId(pathname);
        if conversationId.Some? {
          snapshot := Some((conversationId.value, payload.value));
        }
      }
      CleanupRequest(requestId);
    }
  }
}
