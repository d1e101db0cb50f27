/**
 * The page-side lookups of `lib/content/apiHandler.js`: the conversation id from the page URL,
 * the UUID test, the cookie reader and the device id fallback chain. The page's storage, its
 * cookie string, the URL's query and `decodeURIComponent` are parameters.
 */
module ApiHandler {
  import opened Wrappers
  import opened Text

  predicate IsHexDigit(c: char) {
    '0' <= c <= '9' || 'a' <= c <= 'f' || 'A' <= c <= 'F'
  }

  /** `s[i..i + n]` is `n` hexadecimal digits. */
  predicate HexRun(s: string, i: int, n: int) {
    0 <= i && 0 <= n && i + n <= |s| && forall k :: i <= k < i + n ==> IsHexDigit(s[k])
  }

  /** `isUuid`: `/^[0-9a-f]{8}-[0-9a-f]{4}-[0-9a-f]{4}-[0-9a-f]{4}-[0-9a-f]{12}$/i`. */
  predicate IsUuid(s: string) {
    |s| == 36
    && HexRun(s, 0, 8) && s[8] == '-' && HexRun(s, 9, 4) && s[13] == '-' && HexRun(s, 14, 4)
    && s[18] == '-' && HexRun(s, 19, 4) && s[23] == '-' && HexRun(s, 24, 12)
  }

  /** The UUID test ignores case, and a UUID is a path segment: not empty and without `/`. */
  lemma IsUuidMeaning(s: string)
    ensures IsUuid(ToLower(s)) <==> IsUuid(s)
    ensures IsUuid(s) ==> s != "" && '/' !in s
    ensures IsUuid(s) ==> forall i :: 0 <= i < 36 ==> (s[i] == '-' <==> i == 8 || i == 13 || i == 18 || i == 23)
  {
    var t := ToLower(s);
    assert forall k :: 0 <= k < |s| ==> t[k] == LowerChar(s[k]);
    assert forall k :: 0 <= k < |s| ==> (IsHexDigit(t[k]) <==> IsHexDigit(s[k]));
    assert forall k :: 0 <= k < |s| ==> (t[k] == '-' <==> s[k] == '-');
  }

  /** `pathname.split('/').filter(Boolean)`: the non-empty pieces between slashes. */
  function Segments(s: string): seq<string>
    decreases |s|
  {
    var e := IndexFrom(s, 0, '/');
    (if e > 0 then [s[..e]] else []) + (if e < |s| then Segments(s[e + 1..]) else [])
  }

  /** Every segment is non-empty and holds no `/`. */
  lemma {:induction false} SegmentsAreSegments(s: string)
    ensures forall seg :: seg in Segments(s) ==> seg != "" && '/' !in seg
    decreases |s|
  {
    var e := IndexFrom(s, 0, '/');
    if e < |s| {
      SegmentsAreSegments(s[e + 1..]);
    }
    assert forall k :: 0 <= k < e ==> s[..e][k] == s[k];
  }

  /** A segment is a non-empty string without `/`. */
  predicate IsSegment(x: string) { x != "" && '/' !in x }

  lemma SlashAfter(x: string, rest: string)
    requires IsSegment(x)
    ensures IndexFrom(x + "/" + rest, 0, '/') == |x|
  {
    var s := x + "/" + rest;
    assert s[|x|] == '/';
    forall k | 0 <= k < |x| ensures s[k] != '/' {
      assert s[k] == x[k] && x[k] in x;
    }
  }

  lemma SlashAbsent(x: string)
    requires IsSegment(x)
    ensures IndexFrom(x, 0, '/') == |x|
  {
  }

  /** A leading `/` adds only an empty piece, which is dropped. */
  lemma LeadingSlash(s: string)
    ensures Segments("/" + s) == Segments(s)
  {
    var t := "/" + s;
    assert IndexFrom(t, 0, '/') == 0;
    assert t[1..] == s;
  }

  lemma SegmentsCons(x: string, rest: string)
    requires IsSegment(x)
    ensures Segments(x + "/" + rest) == [x] + Segments(rest)
  {
    var s := x + "/" + rest;
    SlashAfter(x, rest);
    assert s[..|x|] == x;
    assert s[|x| + 1..] == rest;
  }

  lemma SegmentsSingle(x: string)
    requires IsSegment(x)
    ensures Segments(x) == [x]
  {
    SlashAbsent(x);
    assert x[..|x|] == x;
  }

  /** Splitting the slash-joined segments gives them back. */
  lemma {:induction false} SegmentsOfJoin(xs: seq<string>)
    requires forall i :: 0 <= i < |xs| ==> IsSegment(xs[i])
    ensures Segments(Join(xs, "/")) == xs
    decreases |xs|
  {
    if |xs| == 1 {
      SegmentsSingle(xs[0]);
    } else if |xs| > 1 {
      var rest := xs[1..];
      SegmentsOfJoin(rest);
      JoinPrepend(xs[0], rest, "/");
      assert [xs[0]] + rest == xs;
      SegmentsCons(xs[0], Join(rest, "/"));
    }
  }

  /** `indexOf`: the first position of `x`, or -1. */
  function IndexOf(xs: seq<string>, x: string): (r: int)
    ensures -1 <= r < |xs|
    ensures r >= 0 ==> xs[r] == x && forall j :: 0 <= j < r ==> xs[j] != x
    ensures r == -1 ==> x !in xs
  {
    if xs == [] then -1
    else if xs[0] == x then 0
    else var r := IndexOf(xs[1..], x); if r == -1 then -1 else r + 1
  }

  /** `a || b` for two results of `searchParams.get`. */
  function OrElse(a: Option<string>, b: Option<string>): Option<string> {
    if a.Some? && a.value != "" then a else b
  }

  /** `currentConversationId`, given the page URL's path and its query lookup. */
  function CurrentConversationId(pathname: string, query: string -> Option<string>): Option<string> {
    IdFromSegments(Segments(pathname), query)
  }

  /** The choice `currentConversationId` makes once the path is split into segments. */
  function IdFromSegments(segments: seq<string>, query: string -> Option<string>): Option<string> {
    var deepLinkIndex := IndexOf(segments, "c");
    if deepLinkIndex != -1 && |segments| > deepLinkIndex + 1 then Some(segments[deepLinkIndex + 1])
    else if |segments| > 0 && IsUuid(segments[|segments| - 1]) then Some(segments[|segments| - 1])
    else OrElse(query("conversationId"), query("conversation_id"))
  }

  /** The segment after the first `c` segment wins when there is one; otherwise a UUID last
    * segment; otherwise the query's `conversationId`, unless empty, then its `conversation_id`. */
  lemma CurrentConversationIdMeaning(pathname: string, query: string -> Option<string>)
    ensures var segs := Segments(pathname);
      forall i :: (0 <= i < |segs| - 1 && segs[i] == "c" && (forall j :: 0 <= j < i ==> segs[j] != "c"))
                  ==> CurrentConversationId(pathname, query) == Some(segs[i + 1])
    ensures var segs := Segments(pathname);
      ((forall i :: 0 <= i < |segs| - 1 ==> segs[i] != "c") && segs != [] && IsUuid(segs[|segs| - 1]))
      ==> CurrentConversationId(pathname, query) == Some(segs[|segs| - 1])
    ensures var segs := Segments(pathname);
      ((forall i :: 0 <= i < |segs| - 1 ==> segs[i] != "c") && (segs == [] || !IsUuid(segs[|segs| - 1])))
      ==> CurrentConversationId(pathname, query) ==
            if query("conversationId").Some? && query("conversationId").value != "" then query("conversationId")
            else query("conversation_id")
  {
    var segs := Segments(pathname);
    forall i | 0 <= i < |segs| - 1 && segs[i] == "c" && (forall j :: 0 <= j < i ==> segs[j] != "c")
      ensures IdFromSegments(segs, query) == Some(segs[i + 1])
    {
      DeepLinkChosen(segs, query, i);
    }
    if forall i :: 0 <= i < |segs| - 1 ==> segs[i] != "c" {
      NoDeepLink(segs, query);
    }
  }

  lemma DeepLinkChosen(segs: seq<string>, query: string -> Option<string>, i: int)
    requires 0 <= i < |segs| - 1 && segs[i] == "c" && forall j :: 0 <= j < i ==> segs[j] != "c"
    ensures IdFromSegments(segs, query) == Some(segs[i + 1])
  {
    assert IndexOf(segs, "c") == i;
  }

  lemma NoDeepLink(segs: seq<string>, query: string -> Option<string>)
    requires forall i :: 0 <= i < |segs| - 1 ==> segs[i] != "c"
    ensures IdFromSegments(segs, query) ==
      if segs != [] && IsUuid(segs[|segs| - 1]) then Some(segs[|segs| - 1])
      else OrElse(query("conversationId"), query("conversation_id"))
  {
    var idx := IndexOf(segs, "c");
    assert idx == -1 || idx == |segs| - 1;
  }

  lemma DeepLinkSegments(xs: seq<string>)
    requires forall i :: 0 <= i < |xs| ==> IsSegment(xs[i])
    ensures Segments("/" + Join(xs, "/")) == xs
  {
    SegmentsOfJoin(xs);
    LeadingSlash(Join(xs, "/"));
  }

  /** A chat page `/c/<id>` names its conversation, whatever segments follow the id. */
  lemma DeepLink(xs: seq<string>, query: string -> Option<string>)
    requires |xs| >= 2 && xs[0] == "c" && forall i :: 0 <= i < |xs| ==> IsSegment(xs[i])
    ensures CurrentConversationId("/" + Join(xs, "/"), query) == Some(xs[1])
  {
    DeepLinkSegments(xs);
    FirstSegmentC("/" + Join(xs, "/"), query);
  }

  lemma FirstSegmentC(pathname: string, query: string -> Option<string>)
    requires var segs := Segments(pathname); |segs| >= 2 && segs[0] == "c"
    ensures CurrentConversationId(pathname, query) == Some(Segments(pathname)[1])
  {
  }

  /** The name is matched where the cookie string starts or right after `; `, followed by `=`. */
  predicate CookieAt(cookie: string, name: string, p: int) {
    0 <= p && p + |name| < |cookie|
    && (p == 0 || (p >= 2 && cookie[p - 2..p] == "; "))
    && cookie[p..p + |name|] == name && cookie[p + |name|] == '='
  }

  /** The first position at or after `p` where the cookie `name` is set, or the end. */
  function CookieFrom(cookie: string, name: string, p: int): (r: int)
    requires 0 <= p <= |cookie|
    ensures p <= r <= |cookie| && (r < |cookie| ==> CookieAt(cookie, name, r))
    ensures forall i :: p <= i < r ==> !CookieAt(cookie, name, i)
    decreases |cookie| - p
  {
    if p == |cookie| || CookieAt(cookie, name, p) then p else CookieFrom(cookie, name, p + 1)
  }

  /** The raw text `readCookie` finds for `name`: `([^;]*)` after the first match of
    * `(?:^|; )name=`, the name taken literally as its escaping makes it. */
  function CookieText(cookie: string, name: string): Option<string> {
    var p := CookieFrom(cookie, name, 0);
    if p == |cookie| then None
    else Some(ValueAfter(cookie, name, p))
  }

  /** The `([^;]*)` text after `name=` at a match position `p`. */
  function ValueAfter(cookie: string, name: string, p: int): string
    requires CookieAt(cookie, name, p)
  {
    cookie[p + |name| + 1..IndexFrom(cookie, p + |name| + 1, ';')]
  }

  /** `readCookie`: the decoded text, `None` (`null`) without a match; `decode` is
    * `decodeURIComponent`, which throws on malformed escapes. */
  function ReadCookie(cookie: string, name: string, decode: string -> Result<string>): Result<Option<string>> {
    match CookieText(cookie, name)
    case None => Ok(None)
    case Some(raw) =>
      match decode(raw)
      case Ok(text) => Ok(Some(text))
      case Err(e) => Err(e)
  }

  /** `p` is the first position where the cookie `name` is set. */
  predicate FirstCookieAt(cookie: string, name: string, p: int) {
    0 <= p < |cookie| && CookieAt(cookie, name, p) && forall p' :: 0 <= p' < p ==> !CookieAt(cookie, name, p')
  }

  /** The cookie's text runs from after the first `name=` at the start or after `; ` up to the
    * next `;`, and holds no `;`; without such a `name=` there is none. */
  lemma CookieTextMeaning(cookie: string, name: string)
    ensures CookieText(cookie, name).None? <==> forall i :: 0 <= i < |cookie| ==> !CookieAt(cookie, name, i)
    ensures CookieText(cookie, name).Some? ==>
      var v := CookieText(cookie, name).value;
      ';' !in v
      && exists i :: FirstCookieAt(cookie, name, i) && v == ValueAfter(cookie, name, i)
  {
    CookieTextNone(cookie, name);
    if CookieText(cookie, name).Some? {
      CookieTextSome(cookie, name);
    }
  }

  lemma CookieTextNone(cookie: string, name: string)
    ensures CookieText(cookie, name).None? <==> forall i :: 0 <= i < |cookie| ==> !CookieAt(cookie, name, i)
  {
    var p := CookieFrom(cookie, name, 0);
    if p < |cookie| {
      assert CookieAt(cookie, name, p);
    }
  }

  lemma CookieTextSome(cookie: string, name: string)
    requires CookieText(cookie, name).Some?
    ensures var p := CookieFrom(cookie, name, 0);
      FirstCookieAt(cookie, name, p)
      && CookieText(cookie, name).value == ValueAfter(cookie, name, p)
      && ';' !in CookieText(cookie, name).value
  {
    var p := CookieFrom(cookie, name, 0);
    ValueHasNoSemicolon(cookie, p + |name| + 1);
  }

  /** The text between `j` and the next `;` holds no `;`. */
  lemma ValueHasNoSemicolon(cookie: string, j: int)
    requires 0 <= j <= |cookie|
    ensures ';' !in cookie[j..IndexFrom(cookie, j, ';')]
  {
    var v := cookie[j..IndexFrom(cookie, j, ';')];
    assert forall k :: 0 <= k < |v| ==> v[k] == cookie[j + k];
  }

  /** A cookie string holding `name=value` first reads back the value. */
  lemma CookieRoundTrip(name: string, value: string, rest: string)
    requires ';' !in value
    ensures CookieText(name + "=" + value + "; " + rest, name) == Some(value)
    ensures CookieText(name + "=" + value, name) == Some(value)
  {
    var c1 := name + "=" + value + "; " + rest;
    var c2 := name + "=" + value;
    assert CookieAt(c1, name, 0) && CookieAt(c2, name, 0);
    var n := |name| + 1;
    var e1, e2 := IndexFrom(c1, n, ';'), IndexFrom(c2, n, ';');
    assert c1[n + |value|] == ';';
    assert forall k :: n <= k < n + |value| ==> c1[k] == value[k - n] && c2[k] == value[k - n];
    assert e1 == n + |value|;
    assert e2 == n + |value|;
    assert c1[n..e1] == value;
    assert c2[n..e2] == value;
  }

  const DeviceIdKeys := ["oai_device_id", "oai-device-id", "oai_deviceId", "oaiDeviceId"]

  /** `getDeviceId`: the first non-empty stored value under the four keys, in order, else the
    * `oai_device_id` cookie when non-empty, else the `oai-device-id` cookie. `storage` is
    * `localStorage.getItem`. */
  method GetDeviceId(storage: string -> Option<string>, cookie: string, decode: string -> Result<string>)
    returns (r: Result<Option<string>>)
    ensures (exists i :: 0 <= i < 4 && storage(DeviceIdKeys[i]).Some? && storage(DeviceIdKeys[i]).value != ""
                         && (forall j :: 0 <= j < i ==> storage(DeviceIdKeys[j]).None? || storage(DeviceIdKeys[j]).value == "")
                         && r == Ok(storage(DeviceIdKeys[i])))
         || ((forall j :: 0 <= j < 4 ==> storage(DeviceIdKeys[j]).None? || storage(DeviceIdKeys[j]).value == "")
             && r == FromCookies(cookie, decode))
  {
    var keys := DeviceIdKeys;
    for k := 0 to |keys|
      invariant forall j :: 0 <= j < k ==> storage(keys[j]).None? || storage(keys[j]).value == ""
    {
      var stored := storage(keys[k]);
      if stored.Some? && stored.value != "" {
        return Ok(stored);
      }
    }
    var first := ReadCookie(cookie, "oai_device_id", decode);
    if first.Err? {
      return Err(first.message);
    }
    if first.value.Some? && first.value.value != "" {
      return first;
    }
    r := ReadCookie(cookie, "oai-device-id", decode);
  }

  /** `readCookie('oai_device_id') || readCookie('oai-device-id')`; a throw in either
    * propagates. */
  function FromCookies(cookie: string, decode: string -> Result<string>): Result<Option<string>> {
    match ReadCookie(cookie, "oai_device_id", decode)
    case Err(e) => Err(e)
    case Ok(first) =>
      if first.Some? && first.value != "" then Ok(first)
      else ReadCookie(cookie, "oai-device-id", decode)
  }
}
