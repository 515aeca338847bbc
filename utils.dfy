/**
 * The helpers of src/lib/utils.ts used by the blog pages: the reading-time
 * estimate (tags stripped, whitespace-separated pieces, 200 per minute,
 * rounded up) and the share links, each a fixed prefix followed by query
 * parameters whose values are passed through `encodeURIComponent`.
 */
module Utils {
  import opened Wrappers
  import opened Text
  import opened Uri
  import Lists

  /** `s.split(/\s+/)`: the pieces between maximal runs of whitespace. */
  function SplitSpaces(s: string): (parts: seq<string>)
    ensures |parts| >= 1
    decreases |s|
  {
    if s == [] then [[]]
    else if IsSpace(s[0]) then [[]] + SplitSpaces(TrimStart(s[1..]))
    else
      var rest := SplitSpaces(s[1..]);
      [[s[0]] + rest[0]] + rest[1..]
  }

  const WordsPerMinute: nat := 200

  /** `Math.ceil(n / 200)` for a whole `n`. */
  function Minutes(n: nat): nat {
    (n + WordsPerMinute - 1) / WordsPerMinute
  }

  /** `calculateReadingTime`. */
  function ReadingTime(content: string): nat {
    Minutes(|SplitSpaces(StripTags(content))|)
  }

  // ---------------------------------------------------------------------
  // Share links

  const TwitterBase := "https://twitter.com/intent/tweet"
  const FacebookBase := "https://www.facebook.com/sharer/sharer.php"
  const LinkedInBase := "https://www.linkedin.com/sharing/share-offsite/"
  const RedditBase := "https://reddit.com/submit"
  const EmailBase := "mailto:"

  /** `shareUrls.twitter`: `?url=…&text=…`. */
  function Twitter(url: string, title: string): string {
    Assembled(TwitterBase, [("url", url), ("text", title)])
  }

  /** `shareUrls.facebook`: `?u=…`, the URL only. */
  function Facebook(url: string): string {
    Assembled(FacebookBase, [("u", url)])
  }

  /** `shareUrls.linkedin`: `?url=…&title=…&summary=…`. */
  function LinkedIn(url: string, title: string, summary: string): string {
    Assembled(LinkedInBase, [("url", url), ("title", title), ("summary", summary)])
  }

  /** `shareUrls.reddit`: `?url=…&title=…`. */
  function Reddit(url: string, title: string): string {
    Assembled(RedditBase, [("url", url), ("title", title)])
  }

  /** `shareUrls.email`: `?subject=…&body=…`, the body followed by a blank line and the URL. */
  function Email(url: string, title: string, body: string): string {
    Assembled(EmailBase, [("subject", title), ("body", body + "\n\n" + url)])
  }

  /**
   * A reader for these links: the text after the last `?` holds
   * `&`-separated `name=value` pairs whose values it decodes; a piece that
   * is not one such pair, or an undecodable value, is refused.
   */
  function Param(piece: string): Option<(string, string)> {
    var halves := Split(piece, '=');
    if |halves| != 2 then None
    else match DecodeURIComponent(halves[1])
      case None => None
      case Some(v) => Some((halves[0], v))
  }

  function ReadParams(link: string): Option<seq<(string, string)>> {
    var halves := Split(link, '?');
    Lists.MapAll(Param, Split(halves[|halves| - 1], '&'))
  }

  /** A link assembled the way every share link is: prefix, `?`, then encoded pairs joined by `&`. */
  function Assembled(prefix: string, params: seq<(string, string)>): string {
    prefix + "?" + Join(seq(|params|, i requires 0 <= i < |params| => params[i].0 + "=" + EncodeURIComponent(params[i].1)), "&")
  }

  /** Parameter names made of characters the reader does not split at. */
  predicate Plain(s: string) {
    '?' !in s && '&' !in s && '=' !in s
  }

  // ---------------------------------------------------------------------
  // Properties

  /** No piece holds whitespace, and a text without whitespace is a single piece. */
  lemma {:induction false} SplitSpacesPieces(s: string)
    ensures forall i, c | 0 <= i < |SplitSpaces(s)| && c in SplitSpaces(s)[i] :: !IsSpace(c)
    ensures |SplitSpaces(s)| == 1 <==> forall c | c in s :: !IsSpace(c)
    decreases |s|
  {
    if s == [] {
    } else if IsSpace(s[0]) {
      SplitSpacesPieces(TrimStart(s[1..]));
    } else {
      SplitSpacesPieces(s[1..]);
      var rest := SplitSpaces(s[1..]);
      assert SplitSpaces(s)[1..] == rest[1..];
      assert forall c | c in s[1..] :: c in s;
      assert s == [s[0]] + s[1..];
    }
  }

  /** The first piece is empty exactly when the text is empty or starts with whitespace. */
  lemma SplitSpacesFirst(s: string)
    ensures SplitSpaces(s)[0] == [] <==> s == [] || IsSpace(s[0])
  {
  }

  /** The last piece is empty exactly when the text is empty or ends with whitespace. */
  lemma {:induction false} SplitSpacesLast(s: string)
    ensures SplitSpaces(s)[|SplitSpaces(s)| - 1] == [] <==> s == [] || IsSpace(s[|s| - 1])
    decreases |s|
  {
    if s == [] {
    } else if IsSpace(s[0]) {
      var t := TrimStart(s[1..]);
      var p := SplitSpaces(t);
      assert SplitSpaces(s) == [[]] + p;
      assert SplitSpaces(s)[|SplitSpaces(s)| - 1] == p[|p| - 1];
      TrimStartShape(s[1..]);
      SplitSpacesLast(t);
      if t == [] {
        if |s| > 1 {
          assert s[|s| - 1] == s[1..][|s| - 2];
        }
      } else {
        assert t[|t| - 1] == s[|s| - 1];
      }
    } else {
      SplitSpacesLast(s[1..]);
      SplitSpacesLastStep(s);
    }
  }

  lemma SplitSpacesLastStep(s: string)
    requires s != [] && !IsSpace(s[0])
    requires var p := SplitSpaces(s[1..]); p[|p| - 1] == [] <==> s[1..] == [] || IsSpace(s[|s| - 1])
    ensures SplitSpaces(s)[|SplitSpaces(s)| - 1] == [] <==> IsSpace(s[|s| - 1])
  {
    var rest := SplitSpaces(s[1..]);
    assert SplitSpaces(s) == [[s[0]] + rest[0]] + rest[1..];
    if |rest| == 1 {
      assert SplitSpaces(s)[|SplitSpaces(s)| - 1] == [s[0]] + rest[0];
      if s[1..] != [] {
        SplitSpacesPieces(s[1..]);
        assert s[|s| - 1] == s[1..][|s| - 2];
        assert s[|s| - 1] in s[1..];
      }
    } else {
      assert SplitSpaces(s)[|SplitSpaces(s)| - 1] == rest[|rest| - 1];
      assert s[1..] != [];
      assert s[|s| - 1] == s[1..][|s| - 2];
    }
  }

  /** Every piece between the first and the last is non-empty. */
  lemma {:induction false} SplitSpacesInterior(s: string)
    ensures forall i | 0 < i < |SplitSpaces(s)| - 1 :: SplitSpaces(s)[i] != []
    decreases |s|
  {
    if s == [] {
    } else if IsSpace(s[0]) {
      var t := TrimStart(s[1..]);
      TrimStartShape(s[1..]);
      SplitSpacesInterior(t);
      SplitSpacesFirst(t);
    } else {
      SplitSpacesInterior(s[1..]);
    }
  }

  /** A whitespace-free word, one space and text that does not start with whitespace split into the word and the rest's pieces. */
  lemma {:induction false} SplitSpacesWord(w: string, r: string)
    requires forall c | c in w :: !IsSpace(c)
    requires r == [] || !IsSpace(r[0])
    ensures SplitSpaces(w + " " + r) == [w] + SplitSpaces(r)
    decreases |w|
  {
    if w == [] {
      assert w + " " + r == [' '] + r;
      assert ([' '] + r)[1..] == r;
    } else {
      SplitSpacesWord(w[1..], r);
      assert (w + " " + r)[1..] == w[1..] + " " + r;
      assert [w[0]] + w[1..] == w;
    }
  }

  /** Words separated by single spaces split back into those words. */
  lemma {:induction false} SplitSpacesJoin(words: seq<string>)
    requires |words| >= 1
    requires forall i | 0 <= i < |words| :: words[i] != [] && forall c | c in words[i] :: !IsSpace(c)
    ensures SplitSpaces(Join(words, " ")) == words
    decreases |words|
  {
    if |words| == 1 {
      SplitNoSpaces(words[0]);
    } else {
      SplitSpacesJoin(words[1..]);
      var r := Join(words[1..], " ");
      assert r[0] == words[1][0] by {
        JoinHead(words[1..]);
      }
      assert words[1][0] in words[1];
      SplitSpacesWord(words[0], r);
      assert [words[0]] + words[1..] == words;
    }
  }

  /** A whitespace-free text is one piece. */
  lemma {:induction false} SplitNoSpaces(w: string)
    requires forall c | c in w :: !IsSpace(c)
    ensures SplitSpaces(w) == [w]
    decreases |w|
  {
    if w != [] {
      assert forall c | c in w[1..] :: c in w;
      SplitNoSpaces(w[1..]);
      assert [w[0]] + w[1..] == w;
    }
  }

  /** A join of words, the first non-empty, starts with the first word's first character. */
  lemma JoinHead(words: seq<string>)
    requires |words| >= 1 && words[0] != []
    ensures Join(words, " ") != [] && Join(words, " ")[0] == words[0][0]
  {
  }

  /** The estimate is the piece count divided by 200, rounded up, and so at least one minute. */
  lemma ReadingTimeSpec(content: string)
    ensures var n := |SplitSpaces(StripTags(content))|;
      ReadingTime(content) >= 1 && 200 * (ReadingTime(content) - 1) < n <= 200 * ReadingTime(content)
  {
    var n := |SplitSpaces(StripTags(content))|;
    var q := (n + 199) / 200;
    assert n + 199 == 200 * q + (n + 199) % 200;
  }

  /**
   * Plain words separated by single spaces read at 200 words a minute,
   * rounded up: 200 words take one minute and 201 take two.
   */
  lemma ReadingTimeOfWords(words: seq<string>)
    requires |words| >= 1
    requires forall i | 0 <= i < |words| :: words[i] != [] && '<' !in words[i] && forall c | c in words[i] :: !IsSpace(c)
    ensures ReadingTime(Join(words, " ")) == Minutes(|words|)
    ensures |words| == 200 ==> ReadingTime(Join(words, " ")) == 1
    ensures |words| == 201 ==> ReadingTime(Join(words, " ")) == 2
  {
    JoinExcludes(words, " ", '<');
    StripTagsNoAngle(Join(words, " "));
    SplitSpacesJoin(words);
  }

  /** `CloseTag` finds the end of a tag whose body has no `>`. */
  lemma {:induction false} CloseTagAfter(t: string, rest: string)
    requires '>' !in t
    ensures CloseTag(t + ">" + rest) == |t| + 1
    decreases |t|
  {
    if t != [] {
      CloseTagAfter(t[1..], rest);
      assert (t + ">" + rest)[1..] == t[1..] + ">" + rest;
    }
  }

  /** A tag in front of the text adds nothing to the estimate. */
  lemma TagNotCounted(t: string, s: string)
    requires '>' !in t
    ensures ReadingTime("<" + t + ">" + s) == ReadingTime(s)
  {
    var full := "<" + t + ">" + s;
    assert full[1..] == t + ">" + s;
    CloseTagAfter(t, s);
    assert full[1 + |t| + 1..] == s;
  }

  /**
   * Reading an assembled link gives back exactly its pairs, the values
   * decoded to the original arguments, in their order: no argument can add,
   * drop or alter a parameter.
   */
  lemma AssembledReadsBack(prefix: string, params: seq<(string, string)>)
    requires |params| >= 1
    requires forall i | 0 <= i < |params| :: Plain(params[i].0)
    ensures ReadParams(Assembled(prefix, params)) == Some(params)
  {
    var pieces := seq(|params|, i requires 0 <= i < |params| => params[i].0 + "=" + EncodeURIComponent(params[i].1));
    var q := Join(pieces, "&");
    forall i | 0 <= i < |pieces|
      ensures '?' !in pieces[i] && '&' !in pieces[i]
      ensures Param(pieces[i]) == Some(params[i])
    {
      var e := EncodeURIComponent(params[i].1);
      EncodeIsEncoded(params[i].1);
      assert '?' !in e && '&' !in e && '=' !in e;
      assert Join([params[i].0, e], "=") == pieces[i];
      JoinSplit([params[i].0, e], '=');
      DecodeEncode(params[i].1);
    }
    JoinExcludes(pieces, "&", '?');
    SplitAppend(prefix, '?', q);
    SplitNoSep(q, '?', []);
    JoinSplit(pieces, '&');
    Lists.MapAllSpec(Param, pieces);
    assert Lists.MapAll(Param, pieces).value == params;
  }

  /** The Twitter link reads back as the page URL and the title. */
  lemma TwitterReadsBack(url: string, title: string)
    ensures ReadParams(Twitter(url, title)) == Some([("url", url), ("text", title)])
  {
    AssembledReadsBack(TwitterBase, [("url", url), ("text", title)]);
  }

  /** The Facebook link reads back as the page URL and nothing else. */
  lemma FacebookReadsBack(url: string)
    ensures ReadParams(Facebook(url)) == Some([("u", url)])
  {
    AssembledReadsBack(FacebookBase, [("u", url)]);
  }

  /** The LinkedIn link reads back as the page URL, the title and the summary. */
  lemma LinkedInReadsBack(url: string, title: string, summary: string)
    ensures ReadParams(LinkedIn(url, title, summary)) == Some([("url", url), ("title", title), ("summary", summary)])
  {
    AssembledReadsBack(LinkedInBase, [("url", url), ("title", title), ("summary", summary)]);
  }

  /** The Reddit link reads back as the page URL and the title. */
  lemma RedditReadsBack(url: string, title: string)
    ensures ReadParams(Reddit(url, title)) == Some([("url", url), ("title", title)])
  {
    AssembledReadsBack(RedditBase, [("url", url), ("title", title)]);
  }

  /** The e-mail link reads back as the title and the body followed by a blank line and the URL. */
  lemma EmailReadsBack(url: string, title: string, body: string)
    ensures ReadParams(Email(url, title, body)) == Some([("subject", title), ("body", body + "\n\n" + url)])
  {
    AssembledReadsBack(EmailBase, [("subject", title), ("body", body + "\n\n" + url)]);
  }
}
