/**
 * The HTML helpers of the analyzer: entity escaping, tag stripping, and
 * the replacement of `:shortcode:` custom emoji in a display name by
 * `<img>` tags after the name has been escaped.
 */
module Sanitize {
  import opened Wrappers
  import opened Text
  import opened Posts

  // ---------------------------------------------------------------------------
  // escapeHtml

  /** Five global replaces, `&` first so that no entity is escaped twice. */
  function EscapeHtml(s: string): string {
    if s == "" then ""
    else
      ReplaceChar(ReplaceChar(ReplaceChar(ReplaceChar(ReplaceChar(
        s, '&', "&amp;"), '<', "&lt;"), '>', "&gt;"), '"', "&quot;"), '\'', "&#039;")
  }

  /** The entity of one character, or the character itself. */
  function EscapeChar(c: char): string {
    if c == '&' then "&amp;"
    else if c == '<' then "&lt;"
    else if c == '>' then "&gt;"
    else if c == '"' then "&quot;"
    else if c == '\'' then "&#039;"
    else [c]
  }

  /** Reference definition: every character escaped on its own. */
  function EscapeEach(s: string): string
    decreases |s|
  {
    if s == [] then [] else EscapeChar(s[0]) + EscapeEach(s[1..])
  }

  /** Decoding of the five entities `escapeHtml` produces. */
  function Unescape(s: string): string
    decreases |s|
  {
    if s == [] then []
    else if s[0] != '&' then [s[0]] + Unescape(s[1..])
    else if StartsWith(s, "&amp;") then "&" + Unescape(s[5..])
    else if StartsWith(s, "&lt;") then "<" + Unescape(s[4..])
    else if StartsWith(s, "&gt;") then ">" + Unescape(s[4..])
    else if StartsWith(s, "&quot;") then "\"" + Unescape(s[6..])
    else if StartsWith(s, "&#039;") then "'" + Unescape(s[6..])
    else [s[0]] + Unescape(s[1..])
  }

  /** The characters that could open a tag or close an attribute value. */
  predicate Markup(c: char) {
    c == '<' || c == '>' || c == '"' || c == '\''
  }

  function Chain(s: string): string {
    ReplaceChar(ReplaceChar(ReplaceChar(ReplaceChar(ReplaceChar(
      s, '&', "&amp;"), '<', "&lt;"), '>', "&gt;"), '"', "&quot;"), '\'', "&#039;")
  }

  lemma ChainAppend(a: string, b: string)
    ensures Chain(a + b) == Chain(a) + Chain(b)
  {
    var a1, b1 := ReplaceChar(a, '&', "&amp;"), ReplaceChar(b, '&', "&amp;");
    ReplaceCharAppend(a, b, '&', "&amp;");
    var a2, b2 := ReplaceChar(a1, '<', "&lt;"), ReplaceChar(b1, '<', "&lt;");
    ReplaceCharAppend(a1, b1, '<', "&lt;");
    var a3, b3 := ReplaceChar(a2, '>', "&gt;"), ReplaceChar(b2, '>', "&gt;");
    ReplaceCharAppend(a2, b2, '>', "&gt;");
    var a4, b4 := ReplaceChar(a3, '"', "&quot;"), ReplaceChar(b3, '"', "&quot;");
    ReplaceCharAppend(a3, b3, '"', "&quot;");
    ReplaceCharAppend(a4, b4, '\'', "&#039;");
  }

  lemma ReplaceCharSingle(c: char, d: char, rep: string)
    ensures ReplaceChar([c], d, rep) == if c == d then rep else [c]
  {
    assert [c][1..] == [];
  }

  /** Five single-character replaces on one character, where no entity holds a character replaced after it. */
  lemma ChainOfOne(c: char, amp: string, lt: string, gt: string, quot: string, apos: string)
    requires '<' !in amp && '>' !in amp && '"' !in amp && '\'' !in amp
    requires '>' !in lt && '"' !in lt && '\'' !in lt
    requires '"' !in gt && '\'' !in gt
    requires '\'' !in quot
    ensures ReplaceChar(ReplaceChar(ReplaceChar(ReplaceChar(ReplaceChar(
      [c], '&', amp), '<', lt), '>', gt), '"', quot), '\'', apos)
      == if c == '&' then amp else if c == '<' then lt else if c == '>' then gt
         else if c == '"' then quot else if c == '\'' then apos else [c]
  {
    var s1 := ReplaceChar([c], '&', amp);
    ReplaceCharSingle(c, '&', amp);
    var s2 := ReplaceChar(s1, '<', lt);
    if c == '&' { ReplaceCharAbsent(s1, '<', lt); } else { ReplaceCharSingle(c, '<', lt); }
    var s3 := ReplaceChar(s2, '>', gt);
    if c == '&' || c == '<' { ReplaceCharAbsent(s2, '>', gt); } else { ReplaceCharSingle(c, '>', gt); }
    var s4 := ReplaceChar(s3, '"', quot);
    if c == '&' || c == '<' || c == '>' { ReplaceCharAbsent(s3, '"', quot); } else { ReplaceCharSingle(c, '"', quot); }
    if c == '&' || c == '<' || c == '>' || c == '"' { ReplaceCharAbsent(s4, '\'', apos); } else { ReplaceCharSingle(c, '\'', apos); }
  }

  lemma ChainChar(c: char)
    ensures Chain([c]) == EscapeChar(c)
  {
    ChainOfOne(c, "&amp;", "&lt;", "&gt;", "&quot;", "&#039;");
  }

  /** The chain of global replaces escapes each character independently. */
  lemma {:induction false} EscapeHtmlIsEach(s: string)
    ensures EscapeHtml(s) == EscapeEach(s)
    decreases |s|
  {
    if s != [] {
      if |s| > 1 {
        EscapeHtmlIsEach(s[1..]);
      }
      assert s == [s[0]] + s[1..];
      ChainAppend([s[0]], s[1..]);
      ChainChar(s[0]);
    }
  }

  lemma {:induction false} EscapeEachSafe(s: string)
    ensures forall k :: 0 <= k < |EscapeEach(s)| ==> !Markup(EscapeEach(s)[k])
    decreases |s|
  {
    if s != [] {
      EscapeEachSafe(s[1..]);
    }
  }

  lemma UnescapeStep(c: char, t: string)
    ensures Unescape(EscapeChar(c) + t) == [c] + Unescape(t)
  {
    var s := EscapeChar(c) + t;
    if c == '&' {
      assert StartsWith(s, "&amp;") && s[5..] == t;
    } else if c == '<' {
      assert s[1] == 'l' && !StartsWith(s, "&amp;");
      assert StartsWith(s, "&lt;") && s[4..] == t;
    } else if c == '>' {
      assert s[1] == 'g' && !StartsWith(s, "&amp;") && !StartsWith(s, "&lt;");
      assert StartsWith(s, "&gt;") && s[4..] == t;
    } else if c == '"' {
      assert s[1] == 'q' && !StartsWith(s, "&amp;") && !StartsWith(s, "&lt;") && !StartsWith(s, "&gt;");
      assert StartsWith(s, "&quot;") && s[6..] == t;
    } else if c == '\'' {
      assert s[1] == '#';
      assert !StartsWith(s, "&amp;") && !StartsWith(s, "&lt;") && !StartsWith(s, "&gt;") && !StartsWith(s, "&quot;");
      assert StartsWith(s, "&#039;") && s[6..] == t;
    } else {
      assert s[0] == c && s[1..] == t;
    }
  }

  /**
   * Escaping loses nothing and never escapes an entity twice: decoding the
   * five entities gives back the original string.
   */
  lemma {:induction false} UnescapeEscape(s: string)
    ensures Unescape(EscapeHtml(s)) == s
    decreases |s|
  {
    EscapeHtmlIsEach(s);
    if s != [] {
      UnescapeEscape(s[1..]);
      EscapeHtmlIsEach(s[1..]);
      UnescapeStep(s[0], EscapeEach(s[1..]));
      assert s == [s[0]] + s[1..];
    }
  }

  /** No character of an escaped string can open a tag or end an attribute value. */
  lemma EscapedIsInert(s: string)
    ensures forall k :: 0 <= k < |EscapeHtml(s)| ==> !Markup(EscapeHtml(s)[k])
  {
    EscapeHtmlIsEach(s);
    EscapeEachSafe(s);
  }

  // ---------------------------------------------------------------------------
  // stripHtml

  /** No `<` is followed, anywhere later, by a `>`: nothing a tag pattern matches. */
  predicate TagFree(s: string) {
    forall i, j :: 0 <= i < j < |s| && s[i] == '<' ==> s[j] != '>'
  }

  /**
   * `html.replace(/<[^>]*>/g, '')`: each `<` up to the first `>` after it is
   * removed; a `<` with no `>` after it ends the matching.
   */
  function StripHtml(s: string): (r: string)
    ensures |r| <= |s|
    ensures TagFree(r)
    decreases |s|
  {
    if s == [] then []
    else if s[0] == '<' then
      match IndexOf(s, ">")
      case None =>
        assert forall j :: 0 <= j < |s| ==> s[j] != '>' by {
          forall j | 0 <= j < |s| ensures s[j] != '>' {
            assert !OccursAt(s, ">", j);
            assert s[j..j + 1] == [s[j]];
          }
        }
        s
      case Some(i) =>
        assert s[i..i + 1] == ">";
        StripHtml(s[i + 1..])
    else
      var rest := StripHtml(s[1..]);
      var r := [s[0]] + rest;
      assert forall j :: 0 < j < |r| ==> r[j] == rest[j - 1];
      r
  }

  /** Text with no tag left in it is returned unchanged. */
  lemma {:induction false} StripTagFree(s: string)
    requires TagFree(s)
    ensures StripHtml(s) == s
    decreases |s|
  {
    if s != [] {
      if s[0] == '<' {
        forall j: nat ensures !OccursAt(s, ">", j) {
          if j + 1 <= |s| {
            assert s[j] != '>';
            assert s[j..j + 1] == [s[j]];
          }
        }
      } else {
        assert TagFree(s[1..]) by {
          forall i, j | 0 <= i < j < |s[1..]| && s[1..][i] == '<' ensures s[1..][j] != '>' {
            assert s[i + 1] == '<';
          }
        }
        StripTagFree(s[1..]);
      }
    }
  }

  /** Stripping twice strips nothing more. */
  lemma StripIdempotent(s: string)
    ensures StripHtml(StripHtml(s)) == StripHtml(s)
  {
    StripTagFree(StripHtml(s));
  }

  /** A complete tag at the front is removed together with everything it holds. */
  lemma StripTag(body: string, rest: string)
    requires '>' !in body
    ensures StripHtml("<" + body + ">" + rest) == StripHtml(rest)
  {
    var s := "<" + body + ">" + rest;
    var i := |body| + 1;
    assert OccursAt(s, ">", i) by { assert s[i..i + 1] == ">"; }
    forall j: nat | j < i ensures !OccursAt(s, ">", j) {
      if j > 0 { assert s[j] == body[j - 1]; }
      assert s[j..j + 1] == [s[j]];
    }
    assert IndexOf(s, ">") == Some(i);
    assert s[i + 1..] == rest;
  }

  /** Text without `<` before a point is kept literally. */
  lemma {:induction false} StripPlain(a: string, rest: string)
    requires '<' !in a
    ensures StripHtml(a + rest) == a + StripHtml(rest)
    decreases |a|
  {
    if a != [] {
      assert (a + rest)[0] == a[0];
      assert (a + rest)[1..] == a[1..] + rest;
      StripPlain(a[1..], rest);
      assert a == [a[0]] + a[1..];
    } else {
      assert a + rest == rest;
    }
  }

  // ---------------------------------------------------------------------------
  // emojifyDisplayName

  /** `/^[a-z0-9_]+$/i`. */
  predicate ShortcodeChar(c: char) {
    'a' <= c <= 'z' || 'A' <= c <= 'Z' || '0' <= c <= '9' || c == '_'
  }

  predicate ValidShortcode(code: string) {
    |code| > 0 && forall k :: 0 <= k < |code| ==> ShortcodeChar(code[k])
  }

  /** `emoji.static_url || emoji.url`: the static image unless it is missing or empty. */
  function EmojiUrl(e: Emoji): Option<string> {
    if e.staticUrl.Some? && e.staticUrl.value != "" then e.staticUrl else e.url
  }

  /** What an image tag holds after its URL: the closing quote of `src` and the other attributes. */
  function AfterUrl(code: string): string {
    "\" alt=\"" + EscapeHtml(code) + "\" class=\"emoji\" draggable=\"false\" loading=\"lazy\" />"
  }

  function ImgTag(url: string, code: string): string {
    "<img src=\"" + EscapeHtml(url) + AfterUrl(code)
  }

  /** An emoji to insert: the text it replaces and the tag that replaces it. */
  datatype Insertion = Insertion(pattern: string, tag: string)

  /**
   * The checks an emoji must pass, in order: a valid shortcode, a non-empty
   * URL, an `https://` prefix, and a URL the parser accepts (`parses`). The
   * parser's `https:` protocol test always passes after the prefix test.
   */
  function Accept(e: Emoji, parses: string -> bool): (r: Option<Insertion>)
    ensures r.Some? ==> e.shortcode.Some? && ValidShortcode(e.shortcode.value)
    ensures r.Some? ==> EmojiUrl(e).Some? && StartsWith(EmojiUrl(e).value, "https://") && parses(EmojiUrl(e).value)
    ensures r.Some? ==> r.value.pattern == ":" + e.shortcode.value + ":" && |r.value.pattern| >= 3
    ensures r.Some? <==>
      && e.shortcode.Some? && ValidShortcode(e.shortcode.value)
      && EmojiUrl(e).Some? && EmojiUrl(e).value != ""
      && StartsWith(EmojiUrl(e).value, "https://") && parses(EmojiUrl(e).value)
    ensures r.Some? ==> r.value.tag == ImgTag(EmojiUrl(e).value, e.shortcode.value)
  {
    if e.shortcode.None? || !ValidShortcode(e.shortcode.value) then None
    else
      var url := EmojiUrl(e);
      if url.None? || url.value == "" then None
      else if !StartsWith(url.value, "https://") then None
      else if !parses(url.value) then None
      else
        var code := e.shortcode.value;
        Some(Insertion(":" + code + ":", ImgTag(url.value, code)))
  }

  /** One pass of the loop: split on `:code:` and join with the tag. */
  function Apply(html: string, e: Emoji, parses: string -> bool): string {
    match Accept(e, parses)
    case None => html
    case Some(ins) => ReplaceAll(html, ins.pattern, ins.tag)
  }

  /** The escaped name after the emoji of `es` have been applied in order. */
  function Emojified(name: string, es: seq<Emoji>, parses: string -> bool): string
    decreases |es|
  {
    if es == [] then EscapeHtml(name)
    else Apply(Emojified(name, es[..|es| - 1], parses), es[|es| - 1], parses)
  }

  method EmojifyDisplayName(displayName: string, emojis: seq<Emoji>, parses: string -> bool)
    returns (html: string)
    ensures displayName == "" ==> html == ""
    ensures displayName != "" && emojis == [] ==> html == EscapeHtml(displayName)
    ensures displayName != "" ==> html == Emojified(displayName, emojis, parses)
  {
    if displayName == "" {
      return "";
    }
    html := EscapeHtml(displayName);
    if |emojis| == 0 {
      return html;
    }
    for i := 0 to |emojis|
      invariant html == Emojified(displayName, emojis[..i], parses)
    {
      assert emojis[..i + 1][..i] == emojis[..i];
      var e := emojis[i];
      if e.shortcode.None? || !ValidShortcode(e.shortcode.value) {
        continue;
      }
      var url := EmojiUrl(e);
      if url.None? || url.value == "" {
        continue;
      }
      if !StartsWith(url.value, "https://") {
        continue;
      }
      if !parses(url.value) {
        continue;
      }
      var code := e.shortcode.value;
      var imgTag := ImgTag(url.value, code);
      html := ReplaceAll(html, ":" + code + ":", imgTag);
    }
    assert emojis[..|emojis|] == emojis;
  }

  /** An emoji that fails a check changes nothing. */
  lemma RejectedIsSkipped(name: string, es: seq<Emoji>, e: Emoji, parses: string -> bool)
    requires Accept(e, parses).None?
    ensures Emojified(name, es + [e], parses) == Emojified(name, es, parses)
  {
    assert (es + [e])[..|es|] == es;
  }

  /** When no emoji passes the checks, the result is the escaped name, which holds no markup. */
  lemma {:induction false} NothingAcceptedIsInert(name: string, es: seq<Emoji>, parses: string -> bool)
    requires forall k :: 0 <= k < |es| ==> Accept(es[k], parses).None?
    ensures Emojified(name, es, parses) == EscapeHtml(name)
    ensures forall k :: 0 <= k < |Emojified(name, es, parses)| ==> !Markup(Emojified(name, es, parses)[k])
    decreases |es|
  {
    if es != [] {
      NothingAcceptedIsInert(name, es[..|es| - 1], parses);
    }
    EscapedIsInert(name);
  }

  /** An accepted emoji whose `:code:` does not occur leaves the text as it was. */
  lemma AbsentShortcodeIsKept(html: string, e: Emoji, parses: string -> bool)
    requires Accept(e, parses).Some? && !Contains(html, Accept(e, parses).value.pattern)
    ensures Apply(html, e, parses) == html
  {
    ReplaceAllAbsent(html, Accept(e, parses).value.pattern, Accept(e, parses).value.tag);
  }

  /**
   * The `src` value of an image tag is exactly the escaped URL, closed by
   * the quote that follows it; neither the escaped URL nor the escaped
   * shortcode holds a quote that could end its attribute value early.
   */
  lemma TagAttributesInert(url: string, code: string)
    ensures ImgTag(url, code)[..10] == "<img src=\""
    ensures ImgTag(url, code)[10..10 + |EscapeHtml(url)|] == EscapeHtml(url)
    ensures ImgTag(url, code)[10 + |EscapeHtml(url)|] == '"'
    ensures '"' !in EscapeHtml(url) && '"' !in EscapeHtml(code)
  {
    var o, u, a := "<img src=\"", EscapeHtml(url), AfterUrl(code);
    assert a[0] == '"';
    SliceThree(o, u, a);
    EscapedIsInert(url);
    EscapedIsInert(code);
  }

  /** The three parts of a concatenation are read back by slicing at their lengths. */
  lemma SliceThree(o: string, u: string, a: string)
    requires |a| > 0
    ensures (o + u + a)[..|o|] == o
    ensures (o + u + a)[|o|..|o| + |u|] == u
    ensures (o + u + a)[|o| + |u|] == a[0]
  {
  }

  /**
   * An accepted emoji replaces its first `:code:` by its image tag and
   * goes on with the rest of the text.
   */
  lemma AcceptedReplacesFirst(a: string, e: Emoji, b: string, parses: string -> bool)
    requires Accept(e, parses).Some?
    requires !Contains(a, Accept(e, parses).value.pattern)
    requires forall j: nat :: j < |a| ==>
      !OccursAt(a + Accept(e, parses).value.pattern + b, Accept(e, parses).value.pattern, j)
    ensures Apply(a + Accept(e, parses).value.pattern + b, e, parses)
      == a + ImgTag(EmojiUrl(e).value, e.shortcode.value) + Apply(b, e, parses)
  {
    var ins := Accept(e, parses).value;
    ReplaceAllStep(a, ins.pattern, b, ins.tag);
  }

  // ---------------------------------------------------------------------------
  // Tags inserted by one emoji are rewritten by the next

  /** A string with none of the five characters `escapeHtml` rewrites is escaped to itself. */
  lemma EscapePlain(s: string)
    requires '&' !in s && '<' !in s && '>' !in s && '"' !in s && '\'' !in s
    ensures EscapeHtml(s) == s
  {
    if s != "" {
      ReplaceCharAbsent(s, '&', "&amp;");
      ReplaceCharAbsent(s, '<', "&lt;");
      ReplaceCharAbsent(s, '>', "&gt;");
      ReplaceCharAbsent(s, '"', "&quot;");
      ReplaceCharAbsent(s, '\'', "&#039;");
    }
  }

  /** A pattern cannot start where its first character does not occur. */
  lemma NoOccurrenceIn(s: string, pat: string, lo: nat, hi: nat)
    requires lo <= hi <= |s| && |pat| > 0 && pat[0] !in s[lo..hi]
    ensures forall j: nat :: lo <= j < hi ==> !OccursAt(s, pat, j)
  {
    forall j: nat | lo <= j < hi ensures !OccursAt(s, pat, j) {
      assert s[lo..hi][j - lo] == s[j];
      if j + |pat| <= |s| {
        assert s[j..j + |pat|][0] == s[j];
      }
    }
  }

  /**
   * Two accepted emoji where the first one's tag holds the second one's
   * `:code:`: the second pass rewrites the first tag from that point on.
   */
  lemma TagRewritten(name: string, e1: Emoji, e2: Emoji, parses: string -> bool, pre: string, post: string)
    requires Accept(e1, parses).Some? && Accept(e2, parses).Some?
    requires EscapeHtml(name) == Accept(e1, parses).value.pattern
    requires Accept(e1, parses).value.tag == pre + Accept(e2, parses).value.pattern + post
    requires !Contains(pre, Accept(e2, parses).value.pattern)
    requires forall j: nat :: j < |pre| ==>
      !OccursAt(pre + Accept(e2, parses).value.pattern + post, Accept(e2, parses).value.pattern, j)
    ensures Emojified(name, [e1, e2], parses)
      == pre + Accept(e2, parses).value.tag + ReplaceAll(post, Accept(e2, parses).value.pattern, Accept(e2, parses).value.tag)
  {
    var i2 := Accept(e2, parses).value;
    NameIsPattern(name, e1, parses);
    assert [e1, e2][..1] == [e1];
    ReplaceAllStep(pre, i2.pattern, post, i2.tag);
  }

  /** A name that is exactly an accepted emoji's `:code:` becomes that emoji's tag. */
  lemma NameIsPattern(name: string, e: Emoji, parses: string -> bool)
    requires Accept(e, parses).Some? && EscapeHtml(name) == Accept(e, parses).value.pattern
    ensures Emojified(name, [e], parses) == Accept(e, parses).value.tag
  {
    var ins := Accept(e, parses).value;
    ReplaceAllWhole(ins.pattern, ins.tag);
    assert [e][..0] == [];
  }

  lemma {:induction false} EscapeEachAppend(a: string, b: string)
    ensures EscapeEach(a + b) == EscapeEach(a) + EscapeEach(b)
    decreases |a|
  {
    if a == [] {
      assert a + b == b;
    } else {
      assert (a + b)[0] == a[0];
      assert (a + b)[1..] == a[1..] + b;
      EscapeEachAppend(a[1..], b);
    }
  }

  /** An emoji's `:code:` holds none of the characters `escapeHtml` rewrites. */
  lemma PatternPlain(code: string)
    requires ValidShortcode(code)
    ensures EscapeHtml(":" + code + ":") == ":" + code + ":"
  {
    var p := ":" + code + ":";
    assert forall k :: 0 < k < |p| - 1 ==> p[k] == code[k - 1];
    assert forall k :: 0 <= k < |p| ==> p[k] == ':' || ShortcodeChar(p[k]);
    EscapePlain(p);
  }

  /** Escaping a URL that holds a `:code:` after a plain head keeps the head and the code. */
  lemma EscapeAroundPattern(h: string, code: string, q: string)
    requires ValidShortcode(code)
    requires '&' !in h && '<' !in h && '>' !in h && '"' !in h && '\'' !in h
    ensures EscapeHtml(h + (":" + code + ":") + q) == h + (":" + code + ":") + EscapeHtml(q)
  {
    var p := ":" + code + ":";
    PatternPlain(code);
    EscapePlain(h);
    EscapeHtmlIsEach(h + p + q);
    EscapeHtmlIsEach(h);
    EscapeHtmlIsEach(p);
    EscapeHtmlIsEach(q);
    EscapeEachAppend(h + p, q);
    EscapeEachAppend(h, p);
  }

  /**
   * A `:code:` that first occurs in a URL right after its head `h` cannot
   * start earlier in a tag that opens `<img src="` followed by `h`.
   */
  lemma NoPatternInHead(h: string, pat: string, rest: string)
    requires |pat| > 0 && pat[0] == ':'
    requires forall j: nat :: j < |h| ==> !OccursAt(h + pat, pat, j)
    ensures !Contains("<img src=\"" + h, pat)
    ensures forall j: nat :: j < |"<img src=\"" + h| ==> !OccursAt("<img src=\"" + h + pat + rest, pat, j)
  {
    var open := "<img src=\"";
    var pre := open + h;
    var t := pre + pat + rest;
    assert ':' !in open;
    assert t[0..10] == open && pre[0..10] == open;
    NoOccurrenceIn(t, pat, 0, 10);
    NoOccurrenceIn(pre, pat, 0, 10);
    forall j: nat | 10 <= j < |pre| ensures !OccursAt(t, pat, j) {
      if j + |pat| <= |t| {
        assert t[j..j + |pat|] == (h + pat)[j - 10..j - 10 + |pat|];
        assert !OccursAt(h + pat, pat, j - 10);
      }
    }
    forall j: nat | 10 <= j <= |pre| ensures !OccursAt(pre, pat, j) {
      if j + |pat| <= |pre| {
        assert pre[j..j + |pat|] == (h + pat)[j - 10..j - 10 + |pat|];
        assert !OccursAt(h + pat, pat, j - 10);
      }
    }
  }

  lemma Regroup(o: string, h: string, p: string, r: string, c: string)
    ensures o + (h + p + r) + c == (o + h) + p + (r + c)
  {
  }

  lemma TagAround(url: string, code: string, h: string, p: string, r: string)
    requires EscapeHtml(url) == h + p + r
    ensures ImgTag(url, code) == ("<img src=\"" + h) + p + (r + AfterUrl(code))
  {
    Regroup("<img src=\"", h, p, r, AfterUrl(code));
  }

  /**
   * An accepted URL that holds a later accepted emoji's `:code:` after a
   * plain head `h`: when the name is the first emoji's `:code:`, the
   * output opens the first tag, copies `h`, and then opens the second tag
   * inside the first one's `src` attribute.
   */
  lemma CodeInUrlIsRewritten(e1: Emoji, e2: Emoji, parses: string -> bool, h: string, q: string)
    requires Accept(e1, parses).Some? && Accept(e2, parses).Some?
    requires EmojiUrl(e1).value == h + Accept(e2, parses).value.pattern + q
    requires forall j: nat :: j < |h| ==>
      !OccursAt(h + Accept(e2, parses).value.pattern, Accept(e2, parses).value.pattern, j)
    requires '&' !in h && '<' !in h && '>' !in h && '"' !in h && '\'' !in h
    ensures StartsWith(Emojified(Accept(e1, parses).value.pattern, [e1, e2], parses),
      "<img src=\"" + h + "<img src=\"")
  {
    var i1, i2 := Accept(e1, parses).value, Accept(e2, parses).value;
    PatternPlain(e1.shortcode.value);
    EscapeAroundPattern(h, e2.shortcode.value, q);
    var pre := "<img src=\"" + h;
    var post := EscapeHtml(q) + AfterUrl(e1.shortcode.value);
    TagAround(EmojiUrl(e1).value, e1.shortcode.value, h, i2.pattern, EscapeHtml(q));
    NoPatternInHead(h, i2.pattern, post);
    TagRewritten(i1.pattern, e1, e2, parses, pre, post);
    TagOpens(EmojiUrl(e2).value, e2.shortcode.value);
    PrefixThrough(pre, i2.tag, ReplaceAll(post, i2.pattern, i2.tag), "<img src=\"");
  }

  /** Every image tag opens with `<img src="`. */
  lemma TagOpens(url: string, code: string)
    ensures StartsWith(ImgTag(url, code), "<img src=\"")
  {
    var o := "<img src=\"";
    SliceThree(o, EscapeHtml(url), AfterUrl(code));
  }

  lemma PrefixThrough(a: string, t: string, b: string, p: string)
    requires StartsWith(t, p)
    ensures StartsWith(a + t + b, a + p)
  {
    assert (a + t + b)[..|a + p|] == a + t[..|p|];
  }

  /**
   * The name `:a:` with emoji `a` (URL `https://x/:b:`) and then `b`: the
   * output begins `<img src="https://x/<img src="`, a second tag opened
   * inside the first one's `src` attribute.
   */
  lemma InjectedIntoAttribute(parses: string -> bool)
    requires parses("https://x/" + (":" + "b" + ":")) && parses("https://y/")
    ensures StartsWith(
      Emojified(":" + "a" + ":",
        [Emoji(Some("a"), Some("https://x/" + (":" + "b" + ":")), None), Emoji(Some("b"), Some("https://y/"), None)],
        parses),
      "<img src=\"" + "https://x/" + "<img src=\"")
  {
    var e1 := Emoji(Some("a"), Some("https://x/" + (":" + "b" + ":")), None);
    var e2 := Emoji(Some("b"), Some("https://y/"), None);
    InjectionEmojiAccepted(e1, "a", "https://x/" + (":" + "b" + ":"), parses);
    InjectionEmojiAccepted(e2, "b", "https://y/", parses);
    InjectionHeadPlain("https://x/", ":" + "b" + ":");
    CodeInUrlIsRewritten(e1, e2, parses, "https://x/", "");
  }

  lemma InjectionEmojiAccepted(e: Emoji, code: string, url: string, parses: string -> bool)
    requires e == Emoji(Some(code), Some(url), None)
    requires (code == "a" || code == "b") && StartsWith(url, "https://") && parses(url)
    ensures Accept(e, parses).Some? && Accept(e, parses).value.pattern == ":" + code + ":"
  {
    assert ValidShortcode(code);
  }

  lemma InjectionHeadPlain(h: string, pat: string)
    requires h == "https://x/" && pat == ":" + "b" + ":"
    ensures '&' !in h && '<' !in h && '>' !in h && '"' !in h && '\'' !in h
    ensures forall j: nat :: j < |h| ==> !OccursAt(h + pat, pat, j)
    ensures h + pat + "" == h + pat
  {
    var t := h + pat;
    assert t[0..5] == h[0..5] && t[6..10] == h[6..10];
    assert pat[0] == ':' && pat[1] == 'b';
    NoOccurrenceIn(t, pat, 0, 5);
    NoOccurrenceIn(t, pat, 6, 10);
    assert t[6] == '/';
    assert h + pat + "" == h + pat;
  }

  // ---------------------------------------------------------------------------
  // Emoji substitution confined to escaped text

  /** Output built so far: escaped text, or a tag inserted for an emoji. */
  datatype Piece = Plain(text: string) | Picture(tag: string)

  function Render(ps: seq<Piece>): string
    decreases |ps|
  {
    if ps == [] then ""
    else (match ps[0] case Plain(t) => t case Picture(t) => t) + Render(ps[1..])
  }

  /** The parts of a split text with a tag between each two. */
  function Interleave(parts: seq<string>, tag: string): (ps: seq<Piece>)
    requires |parts| > 0
    ensures |ps| == 2 * |parts| - 1
    decreases |parts|
  {
    if |parts| == 1 then [Plain(parts[0])]
    else [Plain(parts[0]), Picture(tag)] + Interleave(parts[1..], tag)
  }

  /** One emoji applied to the escaped text only; inserted tags are kept whole. */
  function ApplyPieces(ps: seq<Piece>, ins: Insertion): seq<Piece>
    requires |ins.pattern| > 0
    decreases |ps|
  {
    if ps == [] then []
    else
      (match ps[0]
       case Plain(t) => Interleave(Split(t, ins.pattern), ins.tag)
       case Picture(_) => [ps[0]])
      + ApplyPieces(ps[1..], ins)
  }

  /** The pieces after the emoji of `es` have been applied in order. */
  function Pieces(name: string, es: seq<Emoji>, parses: string -> bool): seq<Piece>
    decreases |es|
  {
    if es == [] then [Plain(EscapeHtml(name))]
    else
      var ps := Pieces(name, es[..|es| - 1], parses);
      match Accept(es[|es| - 1], parses)
      case None => ps
      case Some(ins) => ApplyPieces(ps, ins)
  }

  /** The display name with emoji substituted in its escaped text only. */
  function EmojifiedSafely(name: string, es: seq<Emoji>, parses: string -> bool): string {
    Render(Pieces(name, es, parses))
  }

  predicate Inert(s: string) {
    forall k :: 0 <= k < |s| ==> !Markup(s[k])
  }

  /** The tags of the accepted emoji of `es`. */
  function AcceptedTags(es: seq<Emoji>, parses: string -> bool): set<string> {
    set j | 0 <= j < |es| && Accept(es[j], parses).Some? :: Accept(es[j], parses).value.tag
  }

  /** Every piece is inert text or one of the tags in `tags`. */
  predicate WellFormed(ps: seq<Piece>, tags: set<string>) {
    forall k :: 0 <= k < |ps| ==> if ps[k].Plain? then Inert(ps[k].text) else ps[k].tag in tags
  }

  lemma {:induction false} RenderAppend(a: seq<Piece>, b: seq<Piece>)
    ensures Render(a + b) == Render(a) + Render(b)
    decreases |a|
  {
    if a == [] {
      assert a + b == b;
    } else {
      assert (a + b)[0] == a[0];
      assert (a + b)[1..] == a[1..] + b;
      RenderAppend(a[1..], b);
    }
  }

  /** Rendering interleaved parts is `parts.join(tag)`. */
  lemma {:induction false} RenderInterleave(parts: seq<string>, tag: string)
    requires |parts| > 0
    ensures Render(Interleave(parts, tag)) == Join(parts, tag)
    decreases |parts|
  {
    if |parts| > 1 {
      RenderInterleave(parts[1..], tag);
      var rest := Interleave(parts[1..], tag);
      RenderAppend([Plain(parts[0]), Picture(tag)], rest);
      assert [Plain(parts[0]), Picture(tag)][1..] == [Picture(tag)];
    }
  }

  lemma InertAppend(a: string, b: string)
    ensures Inert(a + b) <==> Inert(a) && Inert(b)
  {
    assert forall k :: 0 <= k < |a| ==> a[k] == (a + b)[k];
    assert forall k :: 0 <= k < |b| ==> b[k] == (a + b)[|a| + k];
    assert forall k :: |a| <= k < |a + b| ==> (a + b)[k] == b[k - |a|];
  }

  lemma RenderText(t: string)
    ensures Render([Plain(t)]) == t
  {
    assert [Plain(t)][1..] == [];
  }

  /** The parts of a joined inert string are inert. */
  lemma {:induction false} InertParts(parts: seq<string>, sep: string)
    requires Inert(Join(parts, sep))
    ensures forall k :: 0 <= k < |parts| ==> Inert(parts[k])
    decreases |parts|
  {
    if |parts| > 1 {
      InertAppend(parts[0] + sep, Join(parts[1..], sep));
      InertAppend(parts[0], sep);
      InertParts(parts[1..], sep);
      assert forall k :: 1 <= k < |parts| ==> parts[k] == parts[1..][k - 1];
    }
  }

  lemma WellFormedAppend(a: seq<Piece>, b: seq<Piece>, tags: set<string>)
    requires WellFormed(a, tags) && WellFormed(b, tags)
    ensures WellFormed(a + b, tags)
  {
    assert forall k :: |a| <= k < |a + b| ==> (a + b)[k] == b[k - |a|];
  }

  lemma {:induction false} InterleaveWellFormed(parts: seq<string>, tag: string, tags: set<string>)
    requires |parts| > 0 && tag in tags
    requires forall k :: 0 <= k < |parts| ==> Inert(parts[k])
    ensures WellFormed(Interleave(parts, tag), tags)
    decreases |parts|
  {
    if |parts| > 1 {
      assert forall k :: 0 <= k < |parts[1..]| ==> parts[1..][k] == parts[k + 1];
      InterleaveWellFormed(parts[1..], tag, tags);
      WellFormedAppend([Plain(parts[0]), Picture(tag)], Interleave(parts[1..], tag), tags);
    }
  }

  /** Applying an emoji to well-formed pieces keeps them well formed. */
  lemma {:induction false} ApplyPiecesWellFormed(ps: seq<Piece>, ins: Insertion, tags: set<string>)
    requires |ins.pattern| > 0 && ins.tag in tags && WellFormed(ps, tags)
    ensures WellFormed(ApplyPieces(ps, ins), tags)
    decreases |ps|
  {
    if ps != [] {
      var head := match ps[0]
        case Plain(t) => Interleave(Split(t, ins.pattern), ins.tag)
        case Picture(_) => [ps[0]];
      if ps[0].Plain? {
        InertParts(Split(ps[0].text, ins.pattern), ins.pattern);
        InterleaveWellFormed(Split(ps[0].text, ins.pattern), ins.tag, tags);
      }
      assert WellFormed(ps[1..], tags) by {
        assert forall k :: 0 <= k < |ps[1..]| ==> ps[1..][k] == ps[k + 1];
      }
      ApplyPiecesWellFormed(ps[1..], ins, tags);
      WellFormedAppend(head, ApplyPieces(ps[1..], ins), tags);
    }
  }

  lemma WellFormedWider(ps: seq<Piece>, tags: set<string>, more: set<string>)
    requires WellFormed(ps, tags) && tags <= more
    ensures WellFormed(ps, more)
  {
  }

  /**
   * Every character of the escaped text is still inert after substitution,
   * and every inserted tag is the tag of an accepted emoji, built from its
   * escaped URL and shortcode.
   */
  lemma {:induction false} PiecesInert(name: string, es: seq<Emoji>, parses: string -> bool)
    ensures WellFormed(Pieces(name, es, parses), AcceptedTags(es, parses))
    decreases |es|
  {
    if es == [] {
      EscapedIsInert(name);
    } else {
      var init := es[..|es| - 1];
      PiecesInert(name, init, parses);
      assert AcceptedTags(init, parses) <= AcceptedTags(es, parses) by {
        forall t | t in AcceptedTags(init, parses) ensures t in AcceptedTags(es, parses) {
          var j :| 0 <= j < |init| && Accept(init[j], parses).Some? && t == Accept(init[j], parses).value.tag;
          assert init[j] == es[j];
        }
      }
      WellFormedWider(Pieces(name, init, parses), AcceptedTags(init, parses), AcceptedTags(es, parses));
      match Accept(es[|es| - 1], parses)
      case None =>
      case Some(ins) =>
        assert ins.tag in AcceptedTags(es, parses);
        ApplyPiecesWellFormed(Pieces(name, init, parses), ins, AcceptedTags(es, parses));
    }
  }

  /** An accepted tag escapes both of its attribute values. */
  lemma AcceptedTagInert(t: string, es: seq<Emoji>, parses: string -> bool)
    requires t in AcceptedTags(es, parses)
    ensures exists j :: (0 <= j < |es| && Accept(es[j], parses).Some?
      && t == ImgTag(EmojiUrl(es[j]).value, es[j].shortcode.value)
      && Inert(EscapeHtml(EmojiUrl(es[j]).value)) && Inert(EscapeHtml(es[j].shortcode.value)))
  {
    var j :| 0 <= j < |es| && Accept(es[j], parses).Some? && t == Accept(es[j], parses).value.tag;
    EscapedIsInert(EmojiUrl(es[j]).value);
    EscapedIsInert(es[j].shortcode.value);
  }

  /** With a single emoji, substituting in escaped text only is what the loop does. */
  lemma OneEmojiAgrees(name: string, e: Emoji, parses: string -> bool)
    ensures EmojifiedSafely(name, [e], parses) == Emojified(name, [e], parses)
  {
    assert [e][..0] == [];
    match Accept(e, parses)
    case None =>
      assert Pieces(name, [e], parses) == Pieces(name, [], parses);
      assert Emojified(name, [e], parses) == Emojified(name, [], parses);
      RenderText(EscapeHtml(name));
    case Some(ins) =>
      var parts := Split(EscapeHtml(name), ins.pattern);
      assert [Plain(EscapeHtml(name))][1..] == [];
      assert ApplyPieces([Plain(EscapeHtml(name))], ins) == Interleave(parts, ins.tag) + [];
      assert Interleave(parts, ins.tag) + [] == Interleave(parts, ins.tag);
      assert Pieces(name, [e], parses) == Interleave(parts, ins.tag);
      RenderInterleave(parts, ins.tag);
      assert Emojified(name, [e], parses) == ReplaceAll(EscapeHtml(name), ins.pattern, ins.tag);
  }

  /** With no emoji accepted, both give the escaped name. */
  lemma {:induction false} NothingAcceptedAgrees(name: string, es: seq<Emoji>, parses: string -> bool)
    requires forall k :: 0 <= k < |es| ==> Accept(es[k], parses).None?
    ensures Pieces(name, es, parses) == [Plain(EscapeHtml(name))]
    ensures EmojifiedSafely(name, es, parses) == Emojified(name, es, parses)
    decreases |es|
  {
    if es != [] {
      NothingAcceptedAgrees(name, es[..|es| - 1], parses);
    }
    NothingAcceptedIsInert(name, es, parses);
    RenderText(EscapeHtml(name));
  }
}
