/**
 * The page metadata (src/components/SEO.tsx): the document title, the
 * description, Open Graph and Twitter tags, the article tags and the
 * schema.org JSON-LD object; and the blog posting object of
 * src/hooks/useAutoSEO.ts with the hook that announces a new post.
 */
module Seo {
  import opened Wrappers
  import opened Text

  const SiteTitle := "Joana Promise Mhone"
  const DefaultTitle := "Joana Promise Mhone - Cybersecurity & Software Development"
  const DefaultDescription := "Cybersecurity professional and software developer passionate about creating secure, innovative solutions."
  const DefaultImage := "/og-image.jpg"

  datatype PageType = Website | Article

  function TypeName(t: PageType): string {
    match t
    case Website => "website"
    case Article => "article"
  }

  /** The props as a page passes them: any of them may be left out. */
  datatype Given = Given(title: Option<string>, description: Option<string>, image: Option<string>,
                         url: Option<string>, pageType: Option<PageType>, publishedTime: Option<string>,
                         modifiedTime: Option<string>, author: Option<string>, tags: Option<seq<string>>)

  /** The props once the defaults are filled in; the two times stay optional. */
  datatype Props = Props(title: string, description: string, image: string, url: string, pageType: PageType,
                         publishedTime: Option<string>, modifiedTime: Option<string>, author: string,
                         tags: seq<string>)

  /** A default applies only to a prop that is left out; `href` is the page's `window.location.href`. */
  function WithDefaults(g: Given, href: string): Props {
    Props(g.title.GetOr(DefaultTitle), g.description.GetOr(DefaultDescription), g.image.GetOr(DefaultImage),
          g.url.GetOr(href), g.pageType.GetOr(Website), g.publishedTime, g.modifiedTime,
          g.author.GetOr(SiteTitle), g.tags.GetOr([]))
  }

  /** The document title: the title as it is when it already names the site, else the title and the site name. */
  function FullTitle(title: string): string {
    if Includes(title, SiteTitle) then title else title + " | " + SiteTitle
  }

  /** The search action of the website JSON-LD object. */
  datatype SearchAction = SearchAction(target: string, queryInput: string)

  /** The schema.org object the component writes, `@context` being always `https://schema.org`. */
  datatype PageLd = PageLd(ldType: string, headline: string, description: string, image: string, url: string,
                           authorName: string, datePublished: Option<string>, dateModified: Option<string>,
                           name: Option<string>, potentialAction: Option<SearchAction>)

  /** One element the component puts in the document head. */
  datatype Tag =
    | Title(text: string)
    | Meta(name: string, content: string)
    | Property(property: string, content: string)
    | Canonical(href: string)
    | Script(ld: PageLd)

  /** The JSON-LD object; `origin` is the page's `window.location.origin`. */
  function Structured(p: Props, origin: string): PageLd {
    PageLd(if p.pageType == Article then "BlogPosting" else "WebSite", p.title, p.description, p.image, p.url,
           p.author,
           if Present(p.publishedTime) then p.publishedTime else None,
           if Present(p.modifiedTime) then p.modifiedTime else None,
           if p.pageType == Website then Some(SiteTitle) else None,
           if p.pageType == Website
           then Some(SearchAction(origin + "/search?q={search_term_string}", "required name=search_term_string"))
           else None)
  }

  /** The basic, Open Graph and Twitter tags, which every page gets. */
  function Basic(p: Props, full: string): seq<Tag> {
    [Title(full), Meta("description", p.description), Meta("author", p.author), Canonical(p.url),
     Property("og:type", TypeName(p.pageType)), Property("og:title", full),
     Property("og:description", p.description), Property("og:image", p.image), Property("og:url", p.url),
     Property("og:site_name", SiteTitle),
     Meta("twitter:card", "summary_large_image"), Meta("twitter:title", full),
     Meta("twitter:description", p.description), Meta("twitter:image", p.image)]
  }

  /** The article tags: the two times when given, and the author. */
  function ArticleTags(p: Props): seq<Tag> {
    (if p.pageType == Article && Present(p.publishedTime)
     then [Property("article:published_time", p.publishedTime.value)] else []) +
    (if p.pageType == Article && Present(p.modifiedTime)
     then [Property("article:modified_time", p.modifiedTime.value)] else []) +
    (if p.pageType == Article then [Property("article:author", p.author)] else [])
  }

  function TagTags(tags: seq<string>): seq<Tag> {
    seq(|tags|, i requires 0 <= i < |tags| => Property("article:tag", tags[i]))
  }

  /** Everything the component puts in the head, in the order it writes it. */
  function Head(p: Props, origin: string): seq<Tag> {
    Basic(p, FullTitle(p.title)) + ArticleTags(p) + TagTags(p.tags) + [Script(Structured(p, origin))]
  }

  /** The contents of the `property` tags named `name`, in order. */
  function Contents(head: seq<Tag>, name: string): seq<string> {
    if head == [] then []
    else (if head[0].Property? && head[0].property == name then [head[0].content] else []) + Contents(head[1..], name)
  }

  // ---------------------------------------------------------------------
  // The blog posting object of useAutoSEO

  const BlogBase := "https://joanamhone.com/blog/"
  const LogoUrl := "https://joanamhone.com/favicon.png"
  /** How much of the stripped content stands in for a missing excerpt. */
  const SummaryLength := 160

  /** The post fields the object is built from. */
  datatype PostRecord = PostRecord(id: string, title: string, content: string, excerpt: Option<string>,
                                   featuredImage: Option<string>, createdAt: string, updatedAt: string)

  /** `excerpt || content.replace(/<[^>]*>/g, '').substring(0, 160)`. */
  function Summary(excerpt: Option<string>, content: string): string {
    if Present(excerpt) then excerpt.value else Take(StripTags(content), SummaryLength)
  }

  datatype PostingLd = PostingLd(headline: string, description: string, image: Option<string>,
                                 authorName: string, publisherName: string, logoUrl: string,
                                 datePublished: string, dateModified: string, pageId: string)

  /** `generateStructuredData`: a BlogPosting for the post, authored and published by the site's owner. */
  function GenerateStructuredData(post: PostRecord): PostingLd {
    PostingLd(post.title, Summary(post.excerpt, post.content), post.featuredImage, SiteTitle, SiteTitle, LogoUrl,
              post.createdAt, post.updatedAt, BlogBase + post.id)
  }

  /** What the hook schedules: a HEAD request for the sitemap after a delay, and three log lines. */
  datatype Ping = Ping(delayMs: nat, headPath: string, logged: seq<string>)

  /** `useAutoSEO(postId, title)`: nothing unless both are given and not empty. */
  function AutoSeo(postId: Option<string>, title: Option<string>): (r: Option<Ping>)
    ensures r.Some? <==> Present(postId) && Present(title)
    ensures r.Some? ==> r.value.delayMs == 2000 && r.value.headPath == "/sitemap.xml" && |r.value.logged| == 3
    ensures r.Some? ==> r.value.logged[1] == "URL: " + BlogBase + postId.value
  {
    if !Present(postId) || !Present(title) then None
    else Some(Ping(2000, "/sitemap.xml", ["New blog post created: " + title.value,
                                          "URL: " + BlogBase + postId.value,
                                          "Consider submitting to Google Search Console manually"]))
  }

  // ---------------------------------------------------------------------
  // Properties

  /**
   * The full title always names the site; it is the title itself exactly
   * when the title already does, and the rule leaves it unchanged.
   */
  lemma FullTitleSpec(title: string)
    ensures Includes(FullTitle(title), SiteTitle)
    ensures FullTitle(title) == title <==> Includes(title, SiteTitle)
    ensures !Includes(title, SiteTitle) ==> FullTitle(title) == title + " | " + SiteTitle
    ensures FullTitle(FullTitle(title)) == FullTitle(title)
  {
    if !Includes(title, SiteTitle) {
      var t := title + " | " + SiteTitle;
      assert t[|title| + 3..|title| + 3 + |SiteTitle|] == SiteTitle;
      IncludesWitness(t, |title| + 3, SiteTitle);
    }
  }

  /** The contents of a head written in two parts are those of each part in turn. */
  lemma {:induction false} ContentsConcat(a: seq<Tag>, b: seq<Tag>, name: string)
    ensures Contents(a + b, name) == Contents(a, name) + Contents(b, name)
    decreases |a|
  {
    if a != [] {
      ContentsConcat(a[1..], b, name);
      assert (a + b)[0] == a[0] && (a + b)[1..] == a[1..] + b;
      var x := if a[0].Property? && a[0].property == name then [a[0].content] else [];
      calc {
        Contents(a + b, name);
        x + Contents(a[1..] + b, name);
        x + (Contents(a[1..], name) + Contents(b, name));
        (x + Contents(a[1..], name)) + Contents(b, name);
      }
    } else {
      assert a + b == b;
    }
  }

  /** The basic tags hold no `article:` property. */
  lemma BasicHasNoArticleTags(p: Props, full: string, name: string)
    requires "article:" <= name
    ensures Contents(Basic(p, full), name) == []
  {
    var b := Basic(p, full);
    forall i | 0 <= i < |b| && b[i].Property?
      ensures b[i].property != name
    {
      assert b[i].property[0] == 'o';
    }
    NoneNamed(b, name);
  }

  lemma {:induction false} NoneNamed(head: seq<Tag>, name: string)
    requires forall i | 0 <= i < |head| && head[i].Property? :: head[i].property != name
    ensures Contents(head, name) == []
    decreases |head|
  {
    if head != [] {
      NoneNamed(head[1..], name);
    }
  }

  lemma {:induction false} TagTagsContents(tags: seq<string>, name: string)
    ensures Contents(TagTags(tags), name) == if name == "article:tag" then tags else []
    decreases |tags|
  {
    if tags != [] {
      TagTagsContents(tags[1..], name);
      assert TagTags(tags)[1..] == TagTags(tags[1..]);
    }
  }

  /** A head with exactly one `property` tag named `name` yields its content alone. */
  lemma SingleNamed(head: seq<Tag>, k: nat, name: string)
    requires k < |head| && head[k].Property? && head[k].property == name
    requires forall i | 0 <= i < |head| && i != k && head[i].Property? :: head[i].property != name
    ensures Contents(head, name) == [head[k].content]
  {
    assert head == head[..k] + [head[k]] + head[k + 1..];
    ContentsConcat(head[..k] + [head[k]], head[k + 1..], name);
    ContentsConcat(head[..k], [head[k]], name);
    NoneNamed(head[..k], name);
    NoneNamed(head[k + 1..], name);
  }

  /** The basic tags carry the full title and the page type once each. */
  lemma BasicContents(p: Props, full: string)
    ensures Contents(Basic(p, full), "og:title") == [full]
    ensures Contents(Basic(p, full), "og:type") == [TypeName(p.pageType)]
  {
    var b := Basic(p, full);
    forall i | 0 <= i < |b| && i != 5 && b[i].Property?
      ensures b[i].property != "og:title"
    {
      assert i in {4, 6, 7, 8, 9};
    }
    SingleNamed(b, 5, "og:title");
    forall i | 0 <= i < |b| && i != 4 && b[i].Property?
      ensures b[i].property != "og:type"
    {
      assert i in {5, 6, 7, 8, 9};
    }
    SingleNamed(b, 4, "og:type");
  }

  /** The contents of the head are those of its parts; the script tag has none. */
  lemma HeadContents(p: Props, origin: string, name: string)
    ensures Contents(Head(p, origin), name) ==
            Contents(Basic(p, FullTitle(p.title)), name) + Contents(ArticleTags(p), name) +
            (if name == "article:tag" then p.tags else [])
  {
    var b := Basic(p, FullTitle(p.title));
    var s := [Script(Structured(p, origin))];
    ContentsConcat(b, ArticleTags(p), name);
    ContentsConcat(b + ArticleTags(p), TagTags(p.tags), name);
    ContentsConcat(b + ArticleTags(p) + TagTags(p.tags), s, name);
    TagTagsContents(p.tags, name);
  }

  lemma ContentsOne(x: Tag, name: string)
    ensures Contents([x], name) == if x.Property? && x.property == name then [x.content] else []
  {
    assert [x][1..] == [];
  }

  /** The article tags: each name at most once, and only on an article. */
  lemma ArticleContents(p: Props)
    ensures Contents(ArticleTags(p), "article:tag") == []
    ensures Contents(ArticleTags(p), "article:author") == if p.pageType == Article then [p.author] else []
    ensures Contents(ArticleTags(p), "article:published_time") ==
            if p.pageType == Article && Present(p.publishedTime) then [p.publishedTime.value] else []
    ensures Contents(ArticleTags(p), "article:modified_time") ==
            if p.pageType == Article && Present(p.modifiedTime) then [p.modifiedTime.value] else []
    ensures Contents(ArticleTags(p), "og:title") == [] && Contents(ArticleTags(p), "og:type") == []
  {
    ArticleParts(p, "article:tag");
    ArticleParts(p, "article:author");
    ArticleParts(p, "article:published_time");
    ArticleParts(p, "article:modified_time");
    ArticleParts(p, "og:title");
    ArticleParts(p, "og:type");
  }

  lemma ArticleParts(p: Props, name: string)
    ensures Contents(ArticleTags(p), name) ==
            (if p.pageType == Article && Present(p.publishedTime) && name == "article:published_time"
             then [p.publishedTime.value] else []) +
            (if p.pageType == Article && Present(p.modifiedTime) && name == "article:modified_time"
             then [p.modifiedTime.value] else []) +
            (if p.pageType == Article && name == "article:author" then [p.author] else [])
  {
    if p.pageType == Article {
      var a: seq<Tag> := if Present(p.publishedTime) then [Property("article:published_time", p.publishedTime.value)] else [];
      var m: seq<Tag> := if Present(p.modifiedTime) then [Property("article:modified_time", p.modifiedTime.value)] else [];
      var c: seq<Tag> := [Property("article:author", p.author)];
      assert ArticleTags(p) == a + m + c;
      ContentsConcat(a + m, c, name);
      ContentsConcat(a, m, name);
      if a != [] { ContentsOne(a[0], name); }
      if m != [] { ContentsOne(m[0], name); }
      ContentsOne(c[0], name);
    } else {
      assert ArticleTags(p) == [];
    }
  }

  /**
   * The head holds one `article:tag` per tag, in order and whatever the
   * page type; `article:author` on articles only; and each time on
   * articles only, when it is given and not empty.
   */
  lemma HeadSpec(p: Props, origin: string)
    ensures Head(p, origin)[0] == Title(FullTitle(p.title))
    ensures Contents(Head(p, origin), "og:title") == [FullTitle(p.title)]
    ensures Contents(Head(p, origin), "og:type") == [TypeName(p.pageType)]
    ensures Contents(Head(p, origin), "article:tag") == p.tags
    ensures Contents(Head(p, origin), "article:author") == if p.pageType == Article then [p.author] else []
    ensures Contents(Head(p, origin), "article:published_time") ==
            if p.pageType == Article && Present(p.publishedTime) then [p.publishedTime.value] else []
    ensures Contents(Head(p, origin), "article:modified_time") ==
            if p.pageType == Article && Present(p.modifiedTime) then [p.modifiedTime.value] else []
  {
    HeadOpenGraph(p, origin);
    HeadArticleNamed(p, origin, "article:tag");
    HeadArticleNamed(p, origin, "article:author");
    HeadArticleNamed(p, origin, "article:published_time");
    HeadArticleNamed(p, origin, "article:modified_time");
  }

  /** The head starts with the full title and carries the Open Graph title and type once each. */
  lemma HeadOpenGraph(p: Props, origin: string)
    ensures Head(p, origin)[0] == Title(FullTitle(p.title))
    ensures Contents(Head(p, origin), "og:title") == [FullTitle(p.title)]
    ensures Contents(Head(p, origin), "og:type") == [TypeName(p.pageType)]
  {
    BasicContents(p, FullTitle(p.title));
    HeadContents(p, origin, "og:title");
    HeadContents(p, origin, "og:type");
    ArticleParts(p, "og:title");
    ArticleParts(p, "og:type");
  }

  /** An `article:` property of the head comes from the article tags, or from the tag list. */
  lemma HeadArticleNamed(p: Props, origin: string, name: string)
    requires "article:" <= name
    ensures Contents(Head(p, origin), name) ==
            (if p.pageType == Article && Present(p.publishedTime) && name == "article:published_time"
             then [p.publishedTime.value] else []) +
            (if p.pageType == Article && Present(p.modifiedTime) && name == "article:modified_time"
             then [p.modifiedTime.value] else []) +
            (if p.pageType == Article && name == "article:author" then [p.author] else []) +
            (if name == "article:tag" then p.tags else [])
  {
    HeadContents(p, origin, name);
    BasicHasNoArticleTags(p, FullTitle(p.title), name);
    ArticleParts(p, name);
  }

  /**
   * The JSON-LD object is a BlogPosting exactly for an article; its
   * headline is the raw title, which differs from the document title when
   * the title does not name the site; only a website gets a name and a
   * search action.
   */
  lemma StructuredSpec(p: Props, origin: string)
    ensures Structured(p, origin).ldType == "BlogPosting" <==> p.pageType == Article
    ensures Structured(p, origin).headline == p.title
    ensures !Includes(p.title, SiteTitle) ==> Structured(p, origin).headline != FullTitle(p.title)
    ensures Structured(p, origin).potentialAction.Some? <==> p.pageType == Website
    ensures Structured(p, origin).name.Some? <==> p.pageType == Website
    ensures Structured(p, origin).datePublished.Some? <==> Present(p.publishedTime)
  {
    FullTitleSpec(p.title);
  }

  /**
   * The stand-in for a missing excerpt is at most 160 characters of the
   * content with its tags removed, a prefix of it, exactly 160 when there
   * is that much, and holds no tag.
   */
  lemma SummarySpec(excerpt: Option<string>, content: string)
    ensures Present(excerpt) ==> Summary(excerpt, content) == excerpt.value
    ensures !Present(excerpt) ==> Summary(excerpt, content) <= StripTags(content)
    ensures !Present(excerpt) ==> |Summary(excerpt, content)| <= SummaryLength
    ensures !Present(excerpt) && |StripTags(content)| >= SummaryLength ==> |Summary(excerpt, content)| == SummaryLength
    ensures !Present(excerpt) ==> NoTag(Summary(excerpt, content))
  {
    if !Present(excerpt) {
      var s := StripTags(content);
      StripTagsLeavesNoTag(content);
      var r := Take(s, SummaryLength);
      forall i, j | 0 <= i < j < |r| && r[i] == '<'
        ensures r[j] != '>'
      {
        assert r[i] == s[i] && r[j] == s[j];
      }
    }
  }

  /**
   * The posting object takes headline, image and dates from the post, its
   * page id is the blog address followed by the post id, and its author and
   * publisher are the same for every post.
   */
  lemma StructuredDataSpec(post: PostRecord, other: PostRecord)
    ensures GenerateStructuredData(post).headline == post.title
    ensures GenerateStructuredData(post).image == post.featuredImage
    ensures GenerateStructuredData(post).datePublished == post.createdAt
    ensures GenerateStructuredData(post).dateModified == post.updatedAt
    ensures GenerateStructuredData(post).description == Summary(post.excerpt, post.content)
    ensures GenerateStructuredData(post).pageId[..|BlogBase|] == BlogBase
    ensures GenerateStructuredData(post).pageId[|BlogBase|..] == post.id
    ensures GenerateStructuredData(post).authorName == GenerateStructuredData(other).authorName == SiteTitle
    ensures GenerateStructuredData(post).publisherName == GenerateStructuredData(other).publisherName
    ensures GenerateStructuredData(post).logoUrl == GenerateStructuredData(other).logoUrl
  {
  }
}
