/**
 * The server-rendered blog page (supabase/functions/blog-ssr/index.ts): a
 * preflight request is answered at once; any other request names a post by
 * the last segment of its path, and the published post with that slug is
 * written out as a complete HTML page with its metadata, or the request
 * fails with 404 or 500. Every response carries the CORS headers.
 */
module BlogSsr {
  import opened Wrappers
  import opened Text
  import Json
  import Seo

  /** The columns of a `blog_posts` row the page uses. */
  datatype SsrPost = SsrPost(slug: string, title: string, content: string, excerpt: Option<string>,
                             featuredImage: Option<string>, createdAt: string, updatedAt: string)

  /**
   * What the query for one slug gives: the published post, no post (an
   * error or an empty result), or an exception carrying `error.message`.
   */
  datatype Lookup = Found(post: SsrPost) | NotFound | Threw(message: Json.Value)

  /** The request's URL as `new URL` reads it: a path name, or the exception it throws. */
  datatype Target = Path(pathname: string) | BadUrl(message: Json.Value)

  datatype Response = Response(status: nat, body: string, contentType: Option<string>)

  const NotFoundText := "Post not found"

  /** `url.pathname.split('/').pop()`: what follows the last slash. */
  function Slug(pathname: string): string {
    var parts := Split(pathname, '/');
    parts[|parts| - 1]
  }

  /** The description the page uses in three places. */
  function Description(post: SsrPost): string {
    Seo.Summary(post.excerpt, post.content)
  }

  /** `post.featured_image || ''`. */
  function Image(post: SsrPost): string {
    post.featuredImage.GetOr("")
  }

  /** The fixed text of the page, between the values it writes in. */
  datatype Template = Template(lead: string, titleClose: string, descriptionOpen: string, canonicalOpen: string,
                               ogTitleOpen: string, ogDescriptionOpen: string, ogImageOpen: string, ldOpen: string,
                               ldDescription: string, ldImage: string, ldPublished: string, ldModified: string,
                               bodyOpen: string, divOpen: string, tail: string)

  const Fixed := Template(
    "<!DOCTYPE html>\n<html lang=\"en\">\n<head>\n  <meta charset=\"UTF-8\">\n  <meta name=\"viewport\" content=\"width=device-width, initial-scale=1.0\">\n  ",
    " - Joana Promise Mhone</title>",
    "\n  <meta name=\"description\" content=\"",
    "\">\n  <meta name=\"robots\" content=\"index, follow\">\n  <link rel=\"canonical\" href=\"",
    "\">\n  \n  <!-- Open Graph -->\n  <meta property=\"og:title\" content=\"",
    "\">\n  <meta property=\"og:description\" content=\"",
    "\">\n  <meta property=\"og:image\" content=\"",
    "\">\n  <meta property=\"og:type\" content=\"article\">\n  \n  <!-- Structured Data -->\n  <script type=\"application/ld+json\">\n  {\n    \"@context\": \"https://schema.org\",\n    \"@type\": \"BlogPosting\",\n    \"headline\": \"",
    "\",\n    \"description\": \"",
    "\",\n    \"image\": \"",
    "\",\n    \"author\": {\n      \"@type\": \"Person\",\n      \"name\": \"Joana Promise Mhone\"\n    },\n    \"datePublished\": \"",
    "\",\n    \"dateModified\": \"",
    "\"\n  }\n  </script>\n</head>\n<body>\n  <article>\n    ",
    "\n    <div>",
    "</div>\n  </article>\n</body>\n</html>")

  /** The `<title>` element. */
  function TitleElement(t: Template, post: SsrPost): string {
    "<title>" + post.title + t.titleClose
  }

  /** The `<h1>` heading of the article. */
  function Heading(post: SsrPost): string {
    "<h1>" + post.title + "</h1>"
  }

  /** The canonical address of the post. */
  function CanonicalUrl(post: SsrPost): string {
    Seo.BlogBase + post.slug
  }

  /** The head up to the canonical link. */
  function Front(t: Template, post: SsrPost): string {
    t.lead + TitleElement(t, post) + t.descriptionOpen + Description(post) + t.canonicalOpen
  }

  /** From the Open Graph tags to the opening of the content's `div`. */
  function Middle(t: Template, post: SsrPost): string {
    t.ogTitleOpen + post.title + t.ogDescriptionOpen + Description(post) + t.ogImageOpen + Image(post) +
    t.ldOpen + post.title + t.ldDescription + Description(post) + t.ldImage + Image(post) +
    t.ldPublished + post.createdAt + t.ldModified + post.updatedAt + t.bodyOpen + Heading(post) + t.divOpen
  }

  function PageOf(t: Template, post: SsrPost): string {
    Front(t, post) + CanonicalUrl(post) + (Middle(t, post) + post.content + t.tail)
  }

  /** The page, with every value written in as it is, without escaping. */
  function Page(post: SsrPost): string {
    PageOf(Fixed, post)
  }

  /** `JSON.stringify({ error: error.message })`. */
  function ErrorBody(message: Json.Value): string {
    Json.Stringify([("error", message)])
  }

  /** The handler: `db` answers the query for a slug. */
  function Handle(httpMethod: string, target: Target, db: string -> Lookup): (r: Response)
    ensures r.status in {200, 404, 500}
  {
    if httpMethod == "OPTIONS" then Response(200, "ok", None)
    else
      match target
      case BadUrl(m) => Response(500, ErrorBody(m), Some("application/json"))
      case Path(pathname) =>
        match db(Slug(pathname))
        case Threw(m) => Response(500, ErrorBody(m), Some("application/json"))
        case NotFound => Response(404, NotFoundText, None)
        case Found(post) => Response(200, Page(post), Some("text/html"))
  }

  // ---------------------------------------------------------------------
  // Properties

  /** A piece written between two others occurs in the whole. */
  lemma IncludesMiddle(a: string, b: string, c: string)
    ensures Includes(a + b + c, b)
  {
    assert (a + b + c)[|a|..|a| + |b|] == b;
    IncludesWitness(a + b + c, |a|, b);
  }

  /**
   * The slug holds no slash; it is the last segment of the path, and it is
   * empty when the path ends with a slash.
   */
  lemma SlugSpec(prefix: string, segment: string)
    requires '/' !in segment
    ensures Slug(prefix + "/" + segment) == segment
    ensures Slug(prefix + "/") == ""
  {
    SplitAppend(prefix, '/', segment);
    SplitNoSep(segment, '/', []);
    SplitAppend(prefix, '/', []);
    assert prefix + "/" == prefix + ['/'] + [];
  }

  lemma SlugHasNoSlash(pathname: string)
    ensures '/' !in Slug(pathname)
  {
    SplitJoin(pathname, '/');
  }

  /**
   * A preflight request is answered `ok` whatever the path and whatever the
   * database holds; every other request answers 404 exactly when the post
   * is missing, and the page exactly when it is found.
   */
  lemma HandleSpec(httpMethod: string, target: Target, db: string -> Lookup, other: Target, otherDb: string -> Lookup)
    ensures httpMethod == "OPTIONS" ==>
            Handle(httpMethod, target, db) == Handle(httpMethod, other, otherDb) == Response(200, "ok", None)
    ensures httpMethod != "OPTIONS" && target.Path? ==>
            (Handle(httpMethod, target, db).status == 404 <==> db(Slug(target.pathname)) == NotFound)
    ensures httpMethod != "OPTIONS" && target.Path? && db(Slug(target.pathname)).Found? ==>
            Handle(httpMethod, target, db) == Response(200, Page(db(Slug(target.pathname)).post), Some("text/html"))
    ensures httpMethod != "OPTIONS" && Handle(httpMethod, target, db).status == 404 ==>
            Handle(httpMethod, target, db).body == NotFoundText
  {
  }

  // The page properties below hold for any fixed text, the page's own
  // included, so each is stated for `PageOf(t, post)`.

  /** A page starts with its lead and holds the title element with the raw title. */
  lemma PageOfTitle(t: Template, post: SsrPost)
    ensures t.lead <= PageOf(t, post)
    ensures Includes(PageOf(t, post), TitleElement(t, post))
  {
    var rest := t.descriptionOpen + Description(post) + t.canonicalOpen;
    var after := CanonicalUrl(post) + (Middle(t, post) + post.content + t.tail);
    IncludesMiddle(t.lead, TitleElement(t, post), rest);
    assert Front(t, post) == t.lead + TitleElement(t, post) + rest;
    IncludesWithin([], Front(t, post), after, TitleElement(t, post));
    assert [] + Front(t, post) + after == PageOf(t, post);
  }

  /** A page holds the description. */
  lemma PageOfDescription(t: Template, post: SsrPost)
    ensures Includes(PageOf(t, post), Description(post))
  {
    var after := CanonicalUrl(post) + (Middle(t, post) + post.content + t.tail);
    IncludesMiddle(t.lead + TitleElement(t, post) + t.descriptionOpen, Description(post), t.canonicalOpen);
    IncludesWithin([], Front(t, post), after, Description(post));
    assert [] + Front(t, post) + after == PageOf(t, post);
  }

  /** A page holds the heading with the raw title and ends with the raw content and its tail. */
  lemma PageOfBody(t: Template, post: SsrPost)
    ensures Includes(PageOf(t, post), Heading(post))
    ensures PageOf(t, post)[|PageOf(t, post)| - |post.content + t.tail|..] == post.content + t.tail
  {
    var m := Middle(t, post);
    var before := t.ogTitleOpen + post.title + t.ogDescriptionOpen + Description(post) + t.ogImageOpen + Image(post) +
      t.ldOpen + post.title + t.ldDescription + Description(post) + t.ldImage + Image(post) +
      t.ldPublished + post.createdAt + t.ldModified + post.updatedAt + t.bodyOpen;
    IncludesMiddle(before, Heading(post), t.divOpen);
    assert m == before + Heading(post) + t.divOpen;
    IncludesWithin(Front(t, post) + CanonicalUrl(post), m, post.content + t.tail, Heading(post));
    var x := Front(t, post) + CanonicalUrl(post) + m;
    assert PageOf(t, post) == x + (post.content + t.tail);
  }

  /** A page's canonical link is the blog address followed by the slug of the post. */
  lemma PageOfCanonical(t: Template, post: SsrPost)
    ensures Includes(PageOf(t, post), Seo.BlogBase + post.slug)
  {
    IncludesMiddle(Front(t, post), CanonicalUrl(post), Middle(t, post) + post.content + t.tail);
  }

  /** The error body reads back as an object whose `error` is the message; with no message it is `{}`. */
  lemma ErrorBodySpec(message: Json.Value)
    ensures message != Json.Undefined ==>
            Json.Parse(ErrorBody(message)) == Some(Json.Object([("error", message)])) &&
            Json.Get(Json.Parse(ErrorBody(message)).value, "error") == Some(message)
    ensures message == Json.Undefined ==> ErrorBody(message) == "{}"
  {
    if message != Json.Undefined {
      Json.ParseStringify([("error", message)]);
    } else {
      assert Json.Defined([("error", message)]) == [];
    }
  }
}
