/**
 * The page-side Markdown collector of `lib/content/chatMarkdownParser.js`, over an element tree:
 * `normalizePreCode` reduces each `pre` that holds a `code` element to that single `code`
 * element, carrying a `language-*` class over from either of them; `parse` maps each article's
 * turn id to the Markdown the HTML-to-Markdown converter makes of the normalised article.
 */
module ChatMarkdown {
  import opened Wrappers
  import opened Text
  import opened Js

  datatype Attribute = Attribute(name: string, value: string)

  /** A DOM node: an element (lower-case tag name, `class` attribute, other attributes and
    * children) or character data. */
  datatype Node =
    | Element(tag: string, className: string, attributes: seq<Attribute>, children: seq<Node>)
    | TextNode(text: string)

  function NodeSize(n: Node): nat
    decreases n, 1
  {
    match n
    case TextNode(_) => 1
    case Element(_, _, _, children) => 1 + ForestSize(children)
  }

  function ForestSize(nodes: seq<Node>): nat
    decreases nodes, 0
  {
    if nodes == [] then 0 else NodeSize(nodes[0]) + ForestSize(nodes[1..])
  }

  lemma SizeSplit(nodes: seq<Node>)
    requires nodes != []
    ensures ForestSize(nodes[1..]) < ForestSize(nodes)
    ensures nodes[0].Element? ==> ForestSize(nodes[0].children) < ForestSize(nodes)
  {
  }

  predicate IsCode(n: Node) { n.Element? && n.tag == "code" }

  /** The element nodes of `nodes` and of their subtrees, in document order. */
  function Descendants(nodes: seq<Node>): seq<Node>
    decreases ForestSize(nodes)
  {
    if nodes == [] then []
    else
      var n := nodes[0];
      SizeSplit(nodes);
      (if n.Element? then [n] + Descendants(n.children) else []) + Descendants(nodes[1..])
  }

  /** The first `code` element of a list. */
  function FirstCodeIn(elements: seq<Node>): Option<Node> {
    if elements == [] then None
    else if IsCode(elements[0]) then Some(elements[0])
    else FirstCodeIn(elements[1..])
  }

  /** `codes[0]` of `pre.querySelectorAll('code')`: the first `code` element below `nodes`. */
  function FirstCode(nodes: seq<Node>): (r: Option<Node>)
    ensures r.Some? ==> IsCode(r.value) && NodeSize(r.value) <= ForestSize(nodes)
    decreases ForestSize(nodes)
  {
    if nodes == [] then None
    else
      var n := nodes[0];
      SizeSplit(nodes);
      if IsCode(n) then Some(n)
      else
        var inner := if n.Element? then FirstCode(n.children) else None;
        if inner.Some? then inner else FirstCode(nodes[1..])
  }

  lemma {:induction false} FirstCodeInAppend(a: seq<Node>, b: seq<Node>)
    ensures FirstCodeIn(a + b) == if FirstCodeIn(a).Some? then FirstCodeIn(a) else FirstCodeIn(b)
  {
    if a == [] {
      assert a + b == b;
    } else {
      FirstCodeInAppend(a[1..], b);
      assert (a + b)[0] == a[0];
      assert (a + b)[1..] == a[1..] + b;
    }
  }

  /** The `code` the normaliser keeps is the first `code` element in document order. */
  lemma {:induction false} FirstCodeInDocumentOrder(nodes: seq<Node>)
    ensures FirstCode(nodes) == FirstCodeIn(Descendants(nodes))
    decreases ForestSize(nodes)
  {
    if nodes != [] {
      var n := nodes[0];
      SizeSplit(nodes);
      FirstCodeInDocumentOrder(nodes[1..]);
      if n.Element? {
        FirstCodeInDocumentOrder(n.children);
        FirstCodeInAppend([n], Descendants(n.children));
        FirstCodeInAppend([n] + Descendants(n.children), Descendants(nodes[1..]));
      } else {
        FirstCodeInAppend([], Descendants(nodes[1..]));
      }
    }
  }

  /** `language-…` starts a class token at `j`: at the start or after white space, with at least
    * one more non-space character. */
  predicate HintStartsAt(s: string, j: int) {
    0 <= j && j + 9 < |s| && (j == 0 || IsJsWhitespace(s[j - 1]))
    && s[j..j + 9] == "language-" && !IsJsWhitespace(s[j + 9])
  }

  /** Where the run of non-space characters from `j` ends. */
  function TokenEnd(s: string, j: int): (e: int)
    requires 0 <= j <= |s|
    ensures j <= e <= |s| && (e == |s| || IsJsWhitespace(s[e]))
    ensures forall i :: j <= i < e ==> !IsJsWhitespace(s[i])
    decreases |s| - j
  {
    if j == |s| || IsJsWhitespace(s[j]) then j else TokenEnd(s, j + 1)
  }

  /** The class token that starts at `j`. */
  function TokenAt(s: string, j: int): string
    requires 0 <= j <= |s|
  {
    s[j..TokenEnd(s, j)]
  }

  /** `i` is the first position at or after `j` where a hint starts. */
  predicate FirstHintFrom(s: string, j: int, i: int) {
    j <= i < |s| && HintStartsAt(s, i) && forall i' :: j <= i' < i ==> !HintStartsAt(s, i')
  }

  /** The first position at or after `j` where a hint starts, or the end. */
  function HintPos(s: string, j: int): (r: int)
    requires 0 <= j <= |s|
    ensures j <= r <= |s| && (r < |s| ==> HintStartsAt(s, r))
    ensures forall i :: j <= i < r ==> !HintStartsAt(s, i)
    decreases |s| - j
  {
    if j == |s| || HintStartsAt(s, j) then j else HintPos(s, j + 1)
  }

  /** The regular expression's scan from `j`: the token at the first hint position. */
  function HintFrom(s: string, j: int): Option<string>
    requires 0 <= j <= |s|
  {
    var p := HintPos(s, j);
    if p == |s| then None else Some(TokenAt(s, p))
  }

  /** `className.match(/(^|\s)(language-[^\s]+)/)?.[2]`. */
  function LanguageHint(s: string): Option<string> {
    HintFrom(s, 0)
  }

  lemma HintFromMeaning(s: string, j: int)
    requires 0 <= j <= |s|
    ensures HintFrom(s, j).None? <==> forall i :: j <= i < |s| ==> !HintStartsAt(s, i)
    ensures HintFrom(s, j).Some? ==>
      exists i :: 0 <= j <= i && FirstHintFrom(s, j, i) && HintFrom(s, j).value == TokenAt(s, i)
  {
    var p := HintPos(s, j);
    if p < |s| {
      assert HintStartsAt(s, p);
      assert FirstHintFrom(s, j, p);
    }
  }

  /** A hint token starts with `language-`, has more after it and holds no white space. */
  lemma HintShape(s: string, i: int)
    requires 0 <= i < |s| && HintStartsAt(s, i)
    ensures var t := TokenAt(s, i);
            |t| > 9 && t[..9] == "language-" && forall k :: 0 <= k < |t| ==> !IsJsWhitespace(t[k])
  {
    var e := TokenEnd(s, i);
    assert forall k :: i <= k < i + 9 ==> s[k] == s[i..i + 9][k - i];
    assert e > i + 9;
    assert s[i..e][..9] == s[i..i + 9];
  }

  /** The hint is the first `language-` class token: it starts with `language-`, holds no white
    * space, and no earlier position starts one. */
  lemma LanguageHintMeaning(s: string)
    ensures LanguageHint(s).None? <==> forall i :: 0 <= i < |s| ==> !HintStartsAt(s, i)
    ensures LanguageHint(s).Some? ==>
      exists i :: 0 <= i && FirstHintFrom(s, 0, i) && LanguageHint(s).value == TokenAt(s, i)
    ensures LanguageHint(s).Some? ==>
      var t := LanguageHint(s).value;
      |t| > 9 && t[..9] == "language-" && forall k :: 0 <= k < |t| ==> !IsJsWhitespace(t[k])
  {
    HintFromMeaning(s, 0);
    if LanguageHint(s).Some? {
      var i :| 0 <= i && FirstHintFrom(s, 0, i) && LanguageHint(s).value == TokenAt(s, i);
      HintShape(s, i);
    }
  }

  /** The ASCII white space that separates the tokens of a `class` attribute. */
  predicate IsAsciiWhitespace(c: char) {
    c == '\t' || c == '\n' || c == '\U{000C}' || c == '\r' || c == ' '
  }

  function WordEnd(s: string): (e: nat)
    ensures 0 < e <= |s| || (s == [] && e == 0)
    ensures forall i :: 0 <= i < e ==> !IsAsciiWhitespace(s[i]) || (i == 0 && IsAsciiWhitespace(s[0]))
    decreases |s|
  {
    if s == [] then 0
    else if |s| == 1 || IsAsciiWhitespace(s[1]) then 1
    else 1 + WordEnd(s[1..])
  }

  /** The class tokens of `s`, in order, duplicates included. */
  function Tokens(s: string): seq<string>
    decreases |s|
  {
    if s == [] then []
    else if IsAsciiWhitespace(s[0]) then Tokens(s[1..])
    else [s[..WordEnd(s)]] + Tokens(s[WordEnd(s)..])
  }

  /** Later copies dropped: the ordered set a `DOMTokenList` holds. */
  function Dedupe(xs: seq<string>): seq<string> {
    if xs == [] then []
    else if xs[|xs| - 1] in xs[..|xs| - 1] then Dedupe(xs[..|xs| - 1])
    else Dedupe(xs[..|xs| - 1]) + [xs[|xs| - 1]]
  }

  /** `classList.add(token)`: the token set with `token` appended, written back to `class`
    * separated by single spaces. */
  function ClassListAdd(className: string, token: string): string {
    Join(Dedupe(Tokens(className) + [token]), " ")
  }

  /** The surviving `code`, with the language hint of either element carried over. */
  function WithLanguage(code: Node, preClassName: string): (r: Node)
    requires code.Element?
    ensures r.Element? && r.tag == code.tag && r.attributes == code.attributes && r.children == code.children
    ensures NodeSize(r) == NodeSize(code)
  {
    var hint := if LanguageHint(code.className).Some? then LanguageHint(code.className)
                else LanguageHint(preClassName);
    if hint.Some? && !Contains(code.className, hint.value) then
      code.(className := ClassListAdd(code.className, hint.value))
    else code
  }

  /** `normalizePreCode` on one node: every `pre` that has a `code` element below it keeps
    * only that element; everything else keeps its tag, class and attributes. */
  function NormalizeNode(n: Node): (r: Node)
    decreases NodeSize(n), 0
  {
    match n
    case TextNode(_) => n
    case Element(tag, className, attributes, children) =>
      if tag == "pre" then
        match FirstCode(children)
        case None => n
        case Some(code) => Element(tag, className, attributes, [NormalizeNode(WithLanguage(code, className))])
      else Element(tag, className, attributes, NormalizeForest(children))
  }

  function NormalizeForest(nodes: seq<Node>): (r: seq<Node>)
    ensures |r| == |nodes|
    decreases ForestSize(nodes), 1
  {
    if nodes == [] then [] else [NormalizeNode(nodes[0])] + NormalizeForest(nodes[1..])
  }

  /** A `pre` without a `code` element below it is left as it is; one with a `code` element
    * keeps exactly one child: the first `code` element in document order, with the language
    * hint carried over and its own subtree normalised. The `pre` keeps its class and attributes. */
  lemma NormalizePre(n: Node)
    requires n.Element? && n.tag == "pre"
    ensures FirstCodeIn(Descendants(n.children)).None? ==> NormalizeNode(n) == n
    ensures FirstCodeIn(Descendants(n.children)).Some? ==>
      var code := FirstCodeIn(Descendants(n.children)).value;
      IsCode(code)
      && NormalizeNode(n) == n.(children := [NormalizeNode(WithLanguage(code, n.className))])
  {
    FirstCodeInDocumentOrder(n.children);
  }

  /** Normalisation changes children only: every node keeps its kind, tag, class and
    * attributes, and character data is untouched. */
  lemma NormalizeKeepsNode(n: Node)
    ensures n.TextNode? ==> NormalizeNode(n) == n
    ensures n.Element? ==>
      var r := NormalizeNode(n);
      r.Element? && r.tag == n.tag && r.className == n.className && r.attributes == n.attributes
  {
  }

  /** No `pre` element anywhere in `nodes`. */
  predicate NoPre(nodes: seq<Node>) {
    forall d :: d in Descendants(nodes) ==> !(d.Element? && d.tag == "pre")
  }

  /** Markup without a `pre` element comes out unchanged. */
  lemma {:induction false} NormalizeWithoutPre(nodes: seq<Node>)
    requires NoPre(nodes)
    ensures NormalizeForest(nodes) == nodes
    decreases ForestSize(nodes)
  {
    if nodes != [] {
      var n := nodes[0];
      SizeSplit(nodes);
      var own := if n.Element? then [n] + Descendants(n.children) else [];
      assert Descendants(nodes) == own + Descendants(nodes[1..]);
      NormalizeWithoutPre(nodes[1..]);
      if n.Element? {
        assert n in own;
        NormalizeWithoutPre(n.children);
      }
      assert NormalizeNode(n) == n;
    }
  }

  /** A language hint already in the `code` element's own class is never added twice. */
  lemma OwnHintKept(code: Node, preClassName: string)
    requires code.Element? && LanguageHint(code.className).Some?
    ensures WithLanguage(code, preClassName) == code
  {
    var s := code.className;
    LanguageHintMeaning(s);
    var i :| 0 <= i && FirstHintFrom(s, 0, i) && LanguageHint(s).value == TokenAt(s, i);
    assert OccursAt(s, LanguageHint(s).value, i);
  }

  /** Without its own hint, the `code` element takes the `pre` element's hint, when there is
    * one and the class text does not contain it already; otherwise it is unchanged. */
  lemma PreHintAdded(code: Node, preClassName: string)
    requires code.Element? && LanguageHint(code.className).None?
    ensures match LanguageHint(preClassName)
            case Some(t) =>
              WithLanguage(code, preClassName) ==
                if Contains(code.className, t) then code
                else code.(className := ClassListAdd(code.className, t))
            case None => WithLanguage(code, preClassName) == code
  {
  }

  /** The elements of `xs` are pairwise different. */
  predicate Distinct(xs: seq<string>) {
    forall i, j :: 0 <= i < j < |xs| ==> xs[i] != xs[j]
  }

  /** `Dedupe` keeps every value once and adds none. */
  lemma {:induction false} DedupeMeaning(xs: seq<string>)
    ensures Distinct(Dedupe(xs))
    ensures forall x :: x in Dedupe(xs) <==> x in xs
  {
    if xs != [] {
      var init, last := xs[..|xs| - 1], xs[|xs| - 1];
      DedupeMeaning(init);
      assert xs == init + [last];
    }
  }

  /** Every class token is a non-empty run without white space. */
  lemma {:induction false} TokensAreWords(s: string)
    ensures forall t :: t in Tokens(s) ==> t != [] && forall k :: 0 <= k < |t| ==> !IsAsciiWhitespace(t[k])
    decreases |s|
  {
    if s != [] {
      if IsAsciiWhitespace(s[0]) {
        TokensAreWords(s[1..]);
      } else {
        TokensAreWords(s[WordEnd(s)..]);
      }
    }
  }

  /** Adding a token that is not yet present: the token list, duplicates dropped, then the new
    * token, separated by single spaces; every earlier token survives exactly once. */
  lemma ClassListAddAppends(className: string, token: string)
    requires token !in Tokens(className)
    ensures var kept := Dedupe(Tokens(className));
            ClassListAdd(className, token) == if kept == [] then token else Join(kept, " ") + " " + token
    ensures Distinct(Dedupe(Tokens(className)) + [token])
    ensures forall t :: t in Dedupe(Tokens(className)) <==> t in Tokens(className)
  {
    var ts := Tokens(className);
    assert (ts + [token])[..|ts|] == ts;
    DedupeMeaning(ts);
    if Dedupe(ts) != [] {
      JoinAppend(Dedupe(ts), token, " ");
    }
  }

  /** One `article` of the thread: its `data-turn-id` attribute (`None` when absent) and its
    * content. */
  datatype Article = Article(turnId: Option<string>, content: seq<Node>)

  /** `messages[key] = value`: an existing own property keeps its place and takes the new
    * value; a new one goes last. */
  function SetProperty(fields: seq<Field>, key: string, value: Value): seq<Field> {
    if fields == [] then [Field(key, value)]
    else if fields[0].key == key then [Field(key, value)] + fields[1..]
    else [fields[0]] + SetProperty(fields[1..], key, value)
  }

  /** The id under which `parse` stores an article, or `None` when it skips the article. */
  function MarkdownEntry(article: Article, turndown: seq<Node> -> string): Option<Field> {
    if article.turnId.None? || article.turnId.value == "" then None
    else
      var markdown := turndown(NormalizeForest(article.content));
      if markdown == "" then None else Some(Field(article.turnId.value, Str(markdown)))
  }

  /** The properties of `messages` after the loop has seen `articles`. */
  function Collected(articles: seq<Article>, turndown: seq<Node> -> string): seq<Field> {
    if articles == [] then []
    else
      var fields := Collected(articles[..|articles| - 1], turndown);
      match MarkdownEntry(articles[|articles| - 1], turndown)
      case None => fields
      case Some(f) => SetProperty(fields, f.key, f.val)
  }

  /** What `parse` returns: `''` when the thread has no articles, otherwise the object. */
  function Parsed(articles: seq<Article>, turndown: seq<Node> -> string): Value {
    if articles == [] then Str("") else Obj(Collected(articles, turndown))
  }

  class ChatMarkdownParser {
    /** The configured HTML-to-Markdown converter, applied to the normalised content. */
    var turndown: seq<Node> -> string

    constructor (turndown: seq<Node> -> string)
      ensures this.turndown == turndown
    {
      this.turndown := turndown;
    }

    /** `parse` over the articles the thread selector finds. */
    method Parse(articles: seq<Article>) returns (r: Value)
      ensures r == Parsed(articles, turndown)
      ensures articles == [] <==> r == Str("")
    {
      var messages: seq<Field> := [];
      if |articles| == 0 {
        return Str("");
      }
      for k := 0 to |articles|
        invariant messages == Collected(articles[..k], turndown)
      {
        assert articles[..k + 1][..k] == articles[..k];
        var article := articles[k];
        if article.turnId.None? || article.turnId.value == "" {
          continue;
        }
        var messageId := article.turnId.value;
        var normalized := NormalizeForest(article.content);
        var markdownContent := turndown(normalized);
        if markdownContent == "" {
          continue;
        }
        messages := SetProperty(messages, messageId, Str(markdownContent));
      }
      assert articles[..|articles|] == articles;
      r := Obj(messages);
    }
  }

  /** Storing under a key: that key now reads the new value and every other key reads what
    * it read before. */
  lemma {:induction false} SetPropertyLookup(fields: seq<Field>, key: string, value: Value, other: string)
    ensures Lookup(SetProperty(fields, key, value), other) == if other == key then value else Lookup(fields, other)
  {
    if fields != [] && fields[0].key != key {
      SetPropertyLookup(fields[1..], key, value, other);
    }
  }

  /** Storing keeps the keys distinct and brings in no property but the stored one. */
  lemma {:induction false} SetPropertyFields(fields: seq<Field>, key: string, value: Value)
    ensures DistinctKeys(fields) ==> DistinctKeys(SetProperty(fields, key, value))
    ensures forall f :: f in SetProperty(fields, key, value) ==> f in fields || f == Field(key, value)
  {
    if fields != [] && fields[0].key != key {
      SetPropertyFields(fields[1..], key, value);
      var rest := SetProperty(fields[1..], key, value);
      assert forall f :: f in rest ==> f.key == key || f in fields[1..];
    }
  }

  /** `parse` stores a Markdown string under `id` for this article. */
  predicate Stores(article: Article, turndown: seq<Node> -> string, id: string) {
    MarkdownEntry(article, turndown).Some? && MarkdownEntry(article, turndown).value.key == id
  }

  /** An id no article is stored under reads `undefined`. */
  lemma {:induction false} CollectedMissing(articles: seq<Article>, turndown: seq<Node> -> string, id: string)
    requires forall i :: 0 <= i < |articles| ==> !Stores(articles[i], turndown, id)
    ensures Lookup(Collected(articles, turndown), id) == Undefined
  {
    if articles != [] {
      var init := articles[..|articles| - 1];
      CollectedMissing(init, turndown, id);
      match MarkdownEntry(articles[|articles| - 1], turndown)
      case None =>
      case Some(f) =>
        SetPropertyLookup(Collected(init, turndown), f.key, f.val, id);
    }
  }

  /** An id reads the Markdown of the last article stored under it: a later article with the
    * same id overwrites the earlier entry. */
  lemma {:induction false} CollectedLast(articles: seq<Article>, turndown: seq<Node> -> string, id: string, i: int)
    requires 0 <= i < |articles| && Stores(articles[i], turndown, id)
    requires forall j :: i < j < |articles| ==> !Stores(articles[j], turndown, id)
    ensures Lookup(Collected(articles, turndown), id) == MarkdownEntry(articles[i], turndown).value.val
  {
    var init := articles[..|articles| - 1];
    if i < |articles| - 1 {
      CollectedLast(init, turndown, id, i);
    }
    match MarkdownEntry(articles[|articles| - 1], turndown)
    case None =>
    case Some(f) =>
      SetPropertyLookup(Collected(init, turndown), f.key, f.val, id);
  }

  /** Each id is stored once, and every stored value is the non-empty Markdown of an article
    * with that id. */
  lemma {:induction false} CollectedEntries(articles: seq<Article>, turndown: seq<Node> -> string)
    ensures DistinctKeys(Collected(articles, turndown))
    ensures forall f :: f in Collected(articles, turndown) ==>
      exists i :: 0 <= i < |articles| && MarkdownEntry(articles[i], turndown) == Some(f)
  {
    if articles != [] {
      var init := articles[..|articles| - 1];
      CollectedEntries(init, turndown);
      match MarkdownEntry(articles[|articles| - 1], turndown)
      case None =>
      case Some(f) =>
        SetPropertyFields(Collected(init, turndown), f.key, f.val);
    }
  }

  /** A stored entry is a non-empty string under a non-empty id. */
  lemma MarkdownEntryShape(article: Article, turndown: seq<Node> -> string)
    ensures MarkdownEntry(article, turndown).Some? <==>
      article.turnId.Some? && article.turnId.value != "" && turndown(NormalizeForest(article.content)) != ""
    ensures MarkdownEntry(article, turndown).Some? ==>
      MarkdownEntry(article, turndown).value == Field(article.turnId.value, Str(turndown(NormalizeForest(article.content))))
  {
  }
}
