/**
 * The three sitemap generators: the site's own (src/lib/sitemap.ts), which
 * lists the static routes and the published posts by id; the build script
 * (generate-sitemap.js), which lists the static routes and a fixed list of
 * post ids; and the blog application's page (blog/pages/sitemap.xml.tsx),
 * which lists the blog and every post by slug.
 *
 * `new Date(x).toISOString()` is the parameter `toIso`: the ISO text of
 * the date `x` names, or `None` where the date is invalid and the call
 * throws a `RangeError`.
 */
module Sitemaps {
  import opened Wrappers
  import opened Text

  const BaseUrl := "https://joanamhone.com"

  /** One `<url>` of the site's sitemap before it is written out. */
  datatype Entry = Entry(route: string, priority: string, changefreq: string, lastmod: Option<string>)

  /** The static routes, in the order both site generators list them. */
  const Statics: seq<Entry> := [
    Entry("/", "1.0", "weekly", None),
    Entry("/blog", "0.9", "daily", None),
    Entry("/cybersecurity", "0.8", "monthly", None),
    Entry("/software", "0.8", "monthly", None),
    Entry("/search", "0.6", "monthly", None)]

  /** A post as the site's query returns it: its id and `updated_at`. */
  datatype Stamp = Stamp(id: string, updatedAt: Option<string>)

  function PostEntry(s: Stamp): Entry {
    Entry("/blog/" + s.id, "0.7", "weekly", s.updatedAt)
  }

  function PostEntries(stamps: seq<Stamp>): (r: seq<Entry>)
    ensures |r| == |stamps|
  {
    seq(|stamps|, i requires 0 <= i < |stamps| => PostEntry(stamps[i]))
  }

  /** The `forEach` that pushes one entry per post onto the list. */
  method AppendPosts(urls: seq<Entry>, stamps: seq<Stamp>) returns (r: seq<Entry>)
    ensures r == urls + PostEntries(stamps)
  {
    r := urls;
    var i := 0;
    while i < |stamps|
      invariant 0 <= i <= |stamps|
      invariant r == urls + PostEntries(stamps[..i])
    {
      assert PostEntries(stamps[..i + 1]) == PostEntries(stamps[..i]) + [PostEntry(stamps[i])];
      r := r + [PostEntry(stamps[i])];
      i := i + 1;
    }
    assert stamps[..i] == stamps;
  }

  /** `.split('T')[0]`: the date part of an ISO timestamp. */
  function DatePart(iso: string): string {
    Split(iso, 'T')[0]
  }

  /** The pieces written one after another. */
  function Concat(parts: seq<string>): string {
    if parts == [] then [] else parts[0] + Concat(parts[1..])
  }

  // ---------------------------------------------------------------------
  // src/lib/sitemap.ts

  /** What the site's query gives: no client, the rows (none on an error), or an exception. */
  datatype Fetch = NoClient | Fetched(rows: Option<seq<Stamp>>) | Threw

  /** The entries: the static routes, then one per fetched post. */
  function Entries(fetch: Fetch): seq<Entry> {
    Statics + (if fetch.Fetched? && fetch.rows.Some? then PostEntries(fetch.rows.value) else [])
  }

  /** The list the generator builds before writing it out. */
  method CollectEntries(fetch: Fetch) returns (urls: seq<Entry>)
    ensures urls == Entries(fetch)
  {
    urls := Statics;
    if fetch.Fetched? && fetch.rows.Some? {
      urls := AppendPosts(urls, fetch.rows.value);
    }
  }

  const XmlDeclaration := "<?xml version=\"1.0\" encoding=\"UTF-8\"?>"
  const UrlsetOpen := "<urlset xmlns=\"http://www.sitemaps.org/schemas/sitemap/0.9\">"

  /**
   * The fixed layout of a sitemap: the text before the elements, the
   * indentation that opens an element, that between its children, that
   * before its closing tag, and the text after the elements.
   */
  datatype Layout = Layout(header: string, open: string, inner: string, close: string, footer: string)

  const SiteLayout := Layout(XmlDeclaration + "\n" + UrlsetOpen + "\n", "\n  <url>\n    ", "\n    ", "\n  </url>",
                             "\n</urlset>")

  /** The `<url>` element up to the place of its `lastmod`. */
  function UrlHead(l: Layout, e: Entry): string {
    l.open + "<loc>" + BaseUrl + e.route + "</loc>" + l.inner + "<priority>" + e.priority + "</priority>" +
    l.inner + "<changefreq>" + e.changefreq + "</changefreq>" + l.inner
  }

  /** The `<url>` element with `lastmod` text `t`, empty when there is none. */
  function UrlWith(l: Layout, e: Entry, t: string): string {
    UrlHead(l, e) + t + l.close
  }

  /** One `<url>` element; `None` when its `lastmod` is not a valid date. */
  function UrlElement(l: Layout, e: Entry, toIso: string -> Option<string>): Option<string> {
    if !Present(e.lastmod) then Some(UrlWith(l, e, ""))
    else if toIso(e.lastmod.value).None? then None
    else Some(UrlWith(l, e, "<lastmod>" + DatePart(toIso(e.lastmod.value).value) + "</lastmod>"))
  }

  /** The elements of all entries, or `None` as soon as one date is invalid. */
  function UrlElements(l: Layout, entries: seq<Entry>, toIso: string -> Option<string>): (r: Option<seq<string>>)
    ensures r.Some? ==> |r.value| == |entries|
  {
    if entries == [] then Some([])
    else
      match (UrlElement(l, entries[0], toIso), UrlElements(l, entries[1..], toIso))
      case (Some(x), Some(xs)) => Some([x] + xs)
      case _ => None
  }

  function SiteSitemapIn(l: Layout, fetch: Fetch, toIso: string -> Option<string>): Option<string> {
    match UrlElements(l, Entries(fetch), toIso)
    case None => None
    case Some(xs) => Some(l.header + Concat(xs) + l.footer)
  }

  /**
   * The generator's text; `None` stands for the `RangeError` of an invalid
   * date, which the writing-out, being outside the `try`, lets through.
   */
  function SiteSitemap(fetch: Fetch, toIso: string -> Option<string>): Option<string> {
    SiteSitemapIn(SiteLayout, fetch, toIso)
  }

  // ---------------------------------------------------------------------
  // generate-sitemap.js

  /** The post ids the script lists. */
  const ScriptPosts: seq<string> := ["3c4457e8-a9a6-4132-90b1-eb86f0f31182"]

  /** The script's entries: the static routes, then one per id, with no `lastmod`. */
  method ScriptEntries(ids: seq<string>) returns (urls: seq<Entry>)
    ensures urls == Statics + PostEntries(seq(|ids|, i requires 0 <= i < |ids| => Stamp(ids[i], None)))
  {
    urls := AppendPosts(Statics, seq(|ids|, i requires 0 <= i < |ids| => Stamp(ids[i], None)));
  }

  const ScriptLayout := Layout(SiteLayout.header, "  <url>\n    ", "\n    ", "\n  </url>", "\n</urlset>")

  /** The script's `<url>` element, which never has a `lastmod`. */
  function ScriptUrl(l: Layout, e: Entry): string {
    l.open + "<loc>" + BaseUrl + e.route + "</loc>" + l.inner + "<priority>" + e.priority + "</priority>" +
    l.inner + "<changefreq>" + e.changefreq + "</changefreq>" + l.close
  }

  function ScriptUrls(l: Layout, entries: seq<Entry>): (r: seq<string>)
    ensures |r| == |entries|
  {
    seq(|entries|, i requires 0 <= i < |entries| => ScriptUrl(l, entries[i]))
  }

  function ScriptSitemapIn(l: Layout, entries: seq<Entry>): string {
    l.header + Join(ScriptUrls(l, entries), "\n") + l.footer
  }

  /** The text the script writes to `public/sitemap.xml`: the elements one per line. */
  function ScriptSitemap(entries: seq<Entry>): string {
    ScriptSitemapIn(ScriptLayout, entries)
  }

  // ---------------------------------------------------------------------
  // blog/pages/sitemap.xml.tsx

  /** A post as `getAllPosts` returns it: its slug and `updated_at`. */
  datatype SlugPost = SlugPost(slug: string, updatedAt: string)

  const BlogLoc := "https://joanamhone.com/blog/"

  /** The blog's layout; its header also holds the blog's own `<url>` element. */
  const BlogLayout := Layout(
    XmlDeclaration + "\n   " + UrlsetOpen +
    "\n     <url>\n       <loc>https://joanamhone.com/blog</loc>\n       <priority>0.9</priority>\n       <changefreq>daily</changefreq>\n     </url>\n     ",
    "\n       <url>\n           ", "\n           ", "\n       </url>\n     ", "\n   </urlset>\n ")

  /** One post's `<url>` element, with the date part of its `updated_at`. */
  function BlogUrl(l: Layout, slug: string, date: string): string {
    l.open + "<loc>" + BlogLoc + slug + "</loc>" + l.inner + "<lastmod>" + date + "</lastmod>" + l.inner +
    "<priority>0.8</priority>" + l.inner + "<changefreq>weekly</changefreq>" + l.close
  }

  /** The elements of all posts, or `None` as soon as one date is invalid. */
  function BlogUrls(l: Layout, posts: seq<SlugPost>, toIso: string -> Option<string>): (r: Option<seq<string>>)
    ensures r.Some? ==> |r.value| == |posts|
  {
    if posts == [] then Some([])
    else
      match (toIso(posts[0].updatedAt), BlogUrls(l, posts[1..], toIso))
      case (Some(iso), Some(xs)) => Some([BlogUrl(l, posts[0].slug, DatePart(iso))] + xs)
      case _ => None
  }

  /** `generateSiteMap(posts)`: the blog's own `<url>` first, then one per post. */
  function BlogSitemapIn(l: Layout, posts: seq<SlugPost>, toIso: string -> Option<string>): Option<string> {
    match BlogUrls(l, posts, toIso)
    case None => None
    case Some(xs) => Some(l.header + Concat(xs) + l.footer)
  }

  /** What `getAllPosts` gives: its rows (possibly none), or the error it throws. */
  datatype PostsFetch = Rows(posts: Option<seq<SlugPost>>) | FetchError

  datatype ServerResponse = ServerResponse(status: nat, contentType: Option<string>, body: string)

  /** `getServerSideProps`: the sitemap as XML, or status 500 and an empty body when anything throws. */
  function ServeIn(l: Layout, fetch: PostsFetch, toIso: string -> Option<string>): (r: ServerResponse)
    ensures r.status == 500 ==> r.body == [] && r.contentType.None?
  {
    if fetch.FetchError? then ServerResponse(500, None, [])
    else
      match BlogSitemapIn(l, fetch.posts.GetOr([]), toIso)
      case None => ServerResponse(500, None, [])
      case Some(xml) => ServerResponse(200, Some("text/xml"), xml)
  }

  function Serve(fetch: PostsFetch, toIso: string -> Option<string>): ServerResponse {
    ServeIn(BlogLayout, fetch, toIso)
  }

  // ---------------------------------------------------------------------
  // Properties

  /**
   * The site's entries are the five static routes in order, then one per
   * fetched post in query order, at `/blog/<id>` with priority `0.7`,
   * weekly, and the post's `updated_at`; with no client, no rows or an
   * exception they are the static routes alone.
   */
  lemma EntriesSpec(fetch: Fetch)
    ensures Entries(fetch)[..5] == Statics
    ensures !(fetch.Fetched? && fetch.rows.Some?) ==> Entries(fetch) == Statics
    ensures fetch.Fetched? && fetch.rows.Some? ==>
            |Entries(fetch)| == 5 + |fetch.rows.value| &&
            forall i | 0 <= i < |fetch.rows.value| ::
              Entries(fetch)[5 + i].route == "/blog/" + fetch.rows.value[i].id &&
              Entries(fetch)[5 + i].priority == "0.7" && Entries(fetch)[5 + i].changefreq == "weekly" &&
              Entries(fetch)[5 + i].lastmod == fetch.rows.value[i].updatedAt
  {
  }

  /** What is written at one point of a concatenation occurs in it. */
  lemma {:induction false} ConcatIncludes(parts: seq<string>, i: nat)
    requires i < |parts|
    ensures Includes(Concat(parts), parts[i])
    decreases |parts|
  {
    if i == 0 {
      assert Concat(parts)[0..|parts[0]|] == parts[0];
      IncludesWitness(Concat(parts), 0, parts[0]);
    } else {
      ConcatIncludes(parts[1..], i - 1);
      var k := IncludesSound(Concat(parts[1..]), parts[i]);
      var c := Concat(parts);
      assert c == parts[0] + Concat(parts[1..]);
      assert c[|parts[0]| + k..|parts[0]| + k + |parts[i]|] == Concat(parts[1..])[k..k + |parts[i]|];
      IncludesWitness(c, |parts[0]| + k, parts[i]);
    }
  }

  /** The elements exist exactly when every present `lastmod` is a valid date, and they are the entries' elements in order. */
  lemma {:induction false} UrlElementsSpec(l: Layout, entries: seq<Entry>, toIso: string -> Option<string>)
    ensures UrlElements(l, entries, toIso).Some? <==>
            forall i | 0 <= i < |entries| :: Present(entries[i].lastmod) ==> toIso(entries[i].lastmod.value).Some?
    ensures UrlElements(l, entries, toIso).Some? ==>
            forall i | 0 <= i < |entries| :: UrlElement(l, entries[i], toIso) == Some(UrlElements(l, entries, toIso).value[i])
    decreases |entries|
  {
    if entries != [] {
      UrlElementsSpec(l, entries[1..], toIso);
      assert forall i | 1 <= i < |entries| :: entries[i] == entries[1..][i - 1];
    }
  }

  /**
   * A `lastmod` that is absent or empty adds nothing to the element; one
   * that is present adds exactly the `<lastmod>` element with the date
   * part, written just before the closing indentation.
   */
  lemma UrlElementSpec(l: Layout, e: Entry, toIso: string -> Option<string>)
    ensures !Present(e.lastmod) ==> UrlElement(l, e, toIso) == Some(UrlWith(l, e.(lastmod := None), ""))
    ensures Present(e.lastmod) && toIso(e.lastmod.value).Some? ==>
            var bare := UrlWith(l, e, "");
            var k := |bare| - |l.close|;
            var t := "<lastmod>" + DatePart(toIso(e.lastmod.value).value) + "</lastmod>";
            UrlElement(l, e, toIso) == Some(bare[..k] + t + bare[k..])
    ensures UrlElement(l, e, toIso).Some? ==> UrlHead(l, e) <= UrlElement(l, e, toIso).value
  {
    var bare := UrlWith(l, e, "");
    assert bare == UrlHead(l, e) + l.close;
    assert bare[..|bare| - |l.close|] == UrlHead(l, e);
    assert bare[|bare| - |l.close|..] == l.close;
  }

  /** Each element's location is the site's address followed by the route. */
  lemma UrlHeadLoc(l: Layout, e: Entry)
    ensures l.open + "<loc>" + BaseUrl + e.route + "</loc>" <= UrlHead(l, e)
  {
  }

  /**
   * The site's sitemap is written exactly when every date is valid; it
   * starts with the header, ends with the footer, and holds the element of
   * every entry.
   */
  lemma SiteSitemapSpec(l: Layout, fetch: Fetch, toIso: string -> Option<string>)
    ensures SiteSitemapIn(l, fetch, toIso).Some? <==>
            forall i | 0 <= i < |Entries(fetch)| ::
              Present(Entries(fetch)[i].lastmod) ==> toIso(Entries(fetch)[i].lastmod.value).Some?
    ensures SiteSitemapIn(l, fetch, toIso).Some? ==>
            var s := SiteSitemapIn(l, fetch, toIso).value;
            l.header <= s && s[|s| - |l.footer|..] == l.footer &&
            forall i | 0 <= i < |Entries(fetch)| :: Includes(s, UrlElement(l, Entries(fetch)[i], toIso).value)
  {
    var entries := Entries(fetch);
    UrlElementsSpec(l, entries, toIso);
    if UrlElements(l, entries, toIso).Some? {
      var xs := UrlElements(l, entries, toIso).value;
      var s := l.header + Concat(xs) + l.footer;
      forall i | 0 <= i < |entries|
        ensures Includes(s, UrlElement(l, entries[i], toIso).value)
      {
        ConcatIncludes(xs, i);
        IncludesWithin(l.header, Concat(xs), l.footer, xs[i]);
      }
    }
  }

  /** Both site layouts start with the XML declaration and open one `urlset` in the sitemaps.org 0.9 namespace. */
  lemma LayoutsDeclare()
    ensures XmlDeclaration + "\n" + UrlsetOpen <= SiteLayout.header
    ensures ScriptLayout.header == SiteLayout.header
    ensures XmlDeclaration + "\n   " + UrlsetOpen <= BlogLayout.header
  {
  }

  /**
   * The script lists the five static routes and then one entry per id, in
   * order, each at `/blog/<id>` with priority `0.7`, weekly and without a
   * `lastmod`; its list as shipped gives six entries.
   */
  lemma ScriptEntriesSpec(ids: seq<string>)
    ensures var urls := Statics + PostEntries(seq(|ids|, i requires 0 <= i < |ids| => Stamp(ids[i], None)));
            |urls| == 5 + |ids| && urls[..5] == Statics &&
            forall i | 0 <= i < |ids| ::
              urls[5 + i] == Entry("/blog/" + ids[i], "0.7", "weekly", None)
    ensures |Statics + PostEntries(seq(|ScriptPosts|, i requires 0 <= i < |ScriptPosts| => Stamp(ScriptPosts[i], None)))| == 6
  {
  }

  /** Joined pieces each occur in the join. */
  lemma {:induction false} JoinIncludes(parts: seq<string>, sep: string, i: nat)
    requires i < |parts|
    ensures Includes(Join(parts, sep), parts[i])
    decreases |parts|
  {
    if |parts| == 1 {
      IncludesWithin([], parts[0], [], parts[0]) by {
        assert parts[0][0..|parts[0]|] == parts[0];
        IncludesWitness(parts[0], 0, parts[0]);
      }
      assert [] + parts[0] + [] == parts[0];
    } else if i == 0 {
      assert Join(parts, sep) == parts[0] + sep + Join(parts[1..], sep);
      assert Join(parts, sep)[0..|parts[0]|] == parts[0];
      IncludesWitness(Join(parts, sep), 0, parts[0]);
    } else {
      JoinIncludes(parts[1..], sep, i - 1);
      IncludesWithin(parts[0] + sep, Join(parts[1..], sep), [], parts[i]);
      assert parts[0] + sep + Join(parts[1..], sep) + [] == Join(parts, sep);
    }
  }

  /** The script's file starts with the header and holds one element per entry, each locating its route on the site. */
  lemma ScriptSitemapSpec(l: Layout, entries: seq<Entry>)
    ensures l.header <= ScriptSitemapIn(l, entries)
    ensures forall i | 0 <= i < |entries| :: Includes(ScriptSitemapIn(l, entries), ScriptUrl(l, entries[i]))
    ensures forall e: Entry :: l.open + "<loc>" + BaseUrl + e.route + "</loc>" <= ScriptUrl(l, e)
  {
    var j := Join(ScriptUrls(l, entries), "\n");
    forall i | 0 <= i < |entries|
      ensures Includes(ScriptSitemapIn(l, entries), ScriptUrl(l, entries[i]))
    {
      JoinIncludes(ScriptUrls(l, entries), "\n", i);
      IncludesWithin(l.header, j, l.footer, ScriptUrl(l, entries[i]));
    }
  }

  /** The blog's elements exist exactly when every post's date is valid, one per post in order. */
  lemma {:induction false} BlogUrlsSpec(l: Layout, posts: seq<SlugPost>, toIso: string -> Option<string>)
    ensures BlogUrls(l, posts, toIso).Some? <==> forall i | 0 <= i < |posts| :: toIso(posts[i].updatedAt).Some?
    ensures BlogUrls(l, posts, toIso).Some? ==>
            forall i | 0 <= i < |posts| ::
              BlogUrls(l, posts, toIso).value[i] == BlogUrl(l, posts[i].slug, DatePart(toIso(posts[i].updatedAt).value))
    decreases |posts|
  {
    if posts != [] {
      BlogUrlsSpec(l, posts[1..], toIso);
      assert forall i | 1 <= i < |posts| :: posts[i] == posts[1..][i - 1];
    }
  }

  /** A post's element locates it by slug under the blog and carries its date. */
  lemma BlogUrlSpec(l: Layout, slug: string, date: string)
    ensures l.open + "<loc>" + BlogLoc + slug + "</loc>" <= BlogUrl(l, slug, date)
    ensures Includes(BlogUrl(l, slug, date), "<lastmod>" + date + "</lastmod>")
  {
    var pre := l.open + "<loc>" + BlogLoc + slug + "</loc>" + l.inner;
    var last := "<lastmod>" + date + "</lastmod>";
    var post := l.inner + "<priority>0.8</priority>" + l.inner + "<changefreq>weekly</changefreq>" + l.close;
    assert BlogUrl(l, slug, date) == pre + last + post;
    IncludesWithin(pre, last, post, last) by {
      assert last[0..|last|] == last;
      IncludesWitness(last, 0, last);
    }
  }

  /**
   * The blog's sitemap answers 500 with an empty body when the fetch throws
   * or a date is invalid; otherwise it is XML that starts with the header,
   * which holds the blog's own element, and holds every post's element.
   */
  lemma ServeSpec(l: Layout, fetch: PostsFetch, toIso: string -> Option<string>)
    ensures fetch.FetchError? ==> ServeIn(l, fetch, toIso) == ServerResponse(500, None, [])
    ensures fetch.Rows? ==>
            (ServeIn(l, fetch, toIso).status == 200 <==>
             forall i | 0 <= i < |fetch.posts.GetOr([])| :: toIso(fetch.posts.GetOr([])[i].updatedAt).Some?)
    ensures ServeIn(l, fetch, toIso).status == 200 ==>
            var posts := fetch.posts.GetOr([]);
            var body := ServeIn(l, fetch, toIso).body;
            l.header <= body &&
            forall i | 0 <= i < |posts| ::
              Includes(body, BlogUrl(l, posts[i].slug, DatePart(toIso(posts[i].updatedAt).value)))
  {
    if fetch.Rows? {
      var posts := fetch.posts.GetOr([]);
      BlogUrlsSpec(l, posts, toIso);
      if BlogUrls(l, posts, toIso).Some? {
        var xs := BlogUrls(l, posts, toIso).value;
        forall i | 0 <= i < |posts|
          ensures Includes(l.header + Concat(xs) + l.footer, xs[i])
        {
          ConcatIncludes(xs, i);
          IncludesWithin(l.header, Concat(xs), l.footer, xs[i]);
        }
      }
    }
  }

  /** The date part of an ISO timestamp is what precedes its `T`. */
  lemma DatePartSpec(date: string, time: string)
    requires 'T' !in date
    ensures DatePart(date + "T" + time) == date
  {
    SplitNoSep(date, 'T', time);
  }
}
