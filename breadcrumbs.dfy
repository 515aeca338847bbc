/**
 * The breadcrumb trail (src/components/Breadcrumbs.tsx): the path name is
 * split at `/`, empty segments are dropped, and the trail is Home at `/`
 * followed by one item per segment whose path is the segments so far.
 */
module Breadcrumbs {
  import opened Text
  import Lists

  datatype Item = Item(name: string, path: string)

  /** How an item is drawn: a link, or the plain text of the current page. */
  datatype Shown = Link(item: Item) | Current(item: Item)

  predicate NonEmpty(x: string) {
    x != []
  }

  /** `pathname.split('/').filter(x => x)`. */
  function Segments(pathname: string): seq<string> {
    Lists.Filter(NonEmpty, Split(pathname, '/'))
  }

  /** `toUpperCase` of one character, ASCII letters only. */
  function UpperChar(c: char): (r: char)
    ensures 'a' <= c <= 'z' ==> r as int == c as int - 32
    ensures !('a' <= c <= 'z') ==> r == c
  {
    if 'a' <= c <= 'z' then (c as int - 32) as char else c
  }

  /** The segment with its first character upper-cased. */
  function Capitalised(name: string): (r: string)
    ensures |r| == |name|
    ensures name != [] ==> r[0] == UpperChar(name[0]) && r[1..] == name[1..]
  {
    if name == [] then [] else [UpperChar(name[0])] + name[1..]
  }

  /** The label of a segment: capitalised, with the two named sections spelled out, and `Blog Post` for a long id. */
  function DisplayName(name: string): string {
    if |name| > 20 then "Blog Post"
    else if name == "software" then "Software"
    else if name == "cybersecurity" then "Cybersecurity"
    else Capitalised(name)
  }

  /** `/${pathnames.slice(0, k).join('/')}`. */
  function PathOf(segs: seq<string>, k: nat): string
    requires k <= |segs|
  {
    "/" + Join(segs[..k], "/")
  }

  const Home := Item("Home", "/")

  /** The items for a list of segments: nothing for none, else Home and one item per segment. */
  function TrailOf(segs: seq<string>): (r: seq<Item>)
    ensures |r| == if segs == [] then 0 else |segs| + 1
  {
    if segs == [] then []
    else [Home] + seq(|segs|, i requires 0 <= i < |segs| => Item(DisplayName(segs[i]), PathOf(segs, i + 1)))
  }

  /** The trail for a path name: nothing for the root, else Home and one item per segment. */
  function Trail(pathname: string): (r: seq<Item>)
    ensures |r| == if Segments(pathname) == [] then 0 else |Segments(pathname)| + 1
  {
    TrailOf(Segments(pathname))
  }

  /** The `forEach` that pushes one item per segment after Home. */
  method Build(pathname: string) returns (items: seq<Item>)
    ensures items == Trail(pathname)
  {
    var segs := Segments(pathname);
    if segs == [] {
      return [];
    }
    items := [Home];
    var i := 0;
    while i < |segs|
      invariant 0 <= i <= |segs|
      invariant items == [Home] + seq(i, k requires 0 <= k < i => Item(DisplayName(segs[k]), PathOf(segs, k + 1)))
    {
      var path := "/" + Join(segs[..i + 1], "/");
      items := items + [Item(DisplayName(segs[i]), path)];
      i := i + 1;
    }
  }

  /** The rendering: Home is a link, the last item is plain text, the ones between are links. */
  function Rendered(items: seq<Item>): (r: seq<Shown>)
    ensures |r| == |items|
  {
    seq(|items|, i requires 0 <= i < |items| =>
      if i == 0 then Link(items[i]) else if i == |items| - 1 then Current(items[i]) else Link(items[i]))
  }

  // ---------------------------------------------------------------------
  // Properties

  /** Splitting text that is all slashes gives only empty pieces. */
  lemma {:induction false} SplitAllSlashes(s: string)
    requires forall c | c in s :: c == '/'
    ensures forall i | 0 <= i < |Split(s, '/')| :: Split(s, '/')[i] == []
    decreases |s|
  {
    if s != [] {
      assert forall c | c in s[1..] :: c in s;
      assert s[0] in s;
      SplitAllSlashes(s[1..]);
      assert Split(s, '/') == [[]] + Split(s[1..], '/');
    }
  }

  /** No segment is empty or holds a slash. */
  lemma SegmentsClean(pathname: string)
    ensures forall x | x in Segments(pathname) :: x != [] && '/' !in x
  {
    var parts := Split(pathname, '/');
    Lists.FilterSpec(NonEmpty, parts);
    SplitJoin(pathname, '/');
  }

  /**
   * The segments are the non-empty pieces between slashes, so none holds a
   * slash; there are none exactly when the path is only slashes.
   */
  lemma SegmentsSpec(pathname: string)
    ensures forall x | x in Segments(pathname) :: x != [] && '/' !in x
    ensures Segments(pathname) == [] <==> forall c | c in pathname :: c == '/'
  {
    var parts := Split(pathname, '/');
    SegmentsClean(pathname);
    Lists.FilterSpec(NonEmpty, parts);
    SplitJoin(pathname, '/');
    if forall c | c in pathname :: c == '/' {
      SplitAllSlashes(pathname);
      Lists.FilterNone(NonEmpty, parts);
    } else {
      var c :| c in pathname && c != '/';
      if forall i | 0 <= i < |parts| :: c !in parts[i] {
        JoinExcludes(parts, "/", c);
      }
      var i :| 0 <= i < |parts| && c in parts[i];
      assert parts[i] in parts;
    }
  }

  /** Joining one more piece adds the separator and the piece. */
  lemma {:induction false} JoinSnoc(parts: seq<string>, x: string)
    requires parts != []
    ensures Join(parts + [x], "/") == Join(parts, "/") + "/" + x
    decreases |parts|
  {
    if |parts| == 1 {
    } else {
      JoinSnoc(parts[1..], x);
      assert (parts + [x])[1..] == parts[1..] + [x];
    }
  }

  /**
   * The trail starts at Home, item `i` is labelled from segment `i - 1`,
   * and its path splits back into the first `i` segments.
   */
  lemma TrailSpec(pathname: string)
    requires Segments(pathname) != []
    ensures Trail(pathname)[0] == Home
    ensures forall i | 1 <= i < |Trail(pathname)| :: Trail(pathname)[i].name == DisplayName(Segments(pathname)[i - 1])
    ensures forall i | 0 <= i < |Trail(pathname)| :: Segments(Trail(pathname)[i].path) == Segments(pathname)[..i]
  {
    var segs := Segments(pathname);
    SegmentsClean(pathname);
    TrailOfSpec(segs);
  }

  /** The items of a non-empty segment list, stated over the list itself. */
  lemma TrailOfSpec(segs: seq<string>)
    requires segs != [] && forall x | x in segs :: x != [] && '/' !in x
    ensures TrailOf(segs)[0] == Home
    ensures forall i | 1 <= i < |TrailOf(segs)| :: TrailOf(segs)[i].name == DisplayName(segs[i - 1])
    ensures forall i | 0 <= i < |TrailOf(segs)| :: Segments(TrailOf(segs)[i].path) == segs[..i]
  {
    var t := TrailOf(segs);
    TrailItem(segs, 0);
    forall i | 0 <= i < |t|
      ensures i >= 1 ==> t[i].name == DisplayName(segs[i - 1])
      ensures Segments(t[i].path) == segs[..i]
    {
      TrailItem(segs, i);
      PathSegments(segs, i);
    }
  }

  /** Item `i` of a trail: Home first, then the segment's label at the path of the segments so far. */
  lemma TrailItem(segs: seq<string>, i: nat)
    requires segs != [] && i <= |segs|
    ensures TrailOf(segs)[i] == if i == 0 then Home else Item(DisplayName(segs[i - 1]), PathOf(segs, i))
    ensures TrailOf(segs)[i].path == PathOf(segs, i)
  {
    if i == 0 {
      assert Home.path == "/" + Join([], "/") == PathOf(segs, 0);
    }
  }

  /** Each path of the trail is a prefix of the next. */
  lemma TrailPrefixes(pathname: string)
    ensures forall i | 0 <= i < |Trail(pathname)| - 1 :: Trail(pathname)[i].path <= Trail(pathname)[i + 1].path
  {
    TrailOfPrefixes(Segments(pathname));
  }

  lemma TrailOfPrefixes(segs: seq<string>)
    ensures forall i | 0 <= i < |TrailOf(segs)| - 1 :: TrailOf(segs)[i].path <= TrailOf(segs)[i + 1].path
  {
    var t := TrailOf(segs);
    forall i | 0 <= i < |t| - 1
      ensures t[i].path <= t[i + 1].path
    {
      if i == 0 {
        assert t[1].path == PathOf(segs, 1);
      } else {
        assert t[i].path == PathOf(segs, i) && t[i + 1].path == PathOf(segs, i + 1);
        assert segs[..i + 1] == segs[..i] + [segs[i]];
        JoinSnoc(segs[..i], segs[i]);
      }
    }
  }

  /** The path of the first `k` segments splits back into exactly those segments. */
  lemma PathSegments(segs: seq<string>, k: nat)
    requires k <= |segs|
    requires forall x | x in segs :: x != [] && '/' !in x
    ensures Segments(PathOf(segs, k)) == segs[..k]
  {
    var p := segs[..k];
    assert forall x | x in p :: x in segs;
    var path := PathOf(segs, k);
    if k == 0 {
      assert path == "/";
      assert Split(path, '/') == [[], []];
    } else {
      JoinSplit(p, '/');
      SplitAppend([], '/', Join(p, "/"));
      assert path == [] + ['/'] + Join(p, "/");
      assert Split(path, '/') == [[]] + p;
      Lists.FilterAll(NonEmpty, p);
      assert Split(path, '/')[1..] == p;
    }
  }

  /** In a trail of two or more items, only the last is plain text. */
  lemma RenderedSpec(items: seq<Item>)
    requires |items| >= 2
    ensures Rendered(items)[|items| - 1] == Current(items[|items| - 1])
    ensures forall i | 0 <= i < |items| - 1 :: Rendered(items)[i] == Link(items[i])
  {
  }

  /** The two named sections get the label capitalisation would give them anyway. */
  lemma NamedSectionsCapitalised()
    ensures DisplayName("software") == Capitalised("software")
    ensures DisplayName("cybersecurity") == Capitalised("cybersecurity")
  {
    LeadingCapital("software", "Software");
    LeadingCapital("cybersecurity", "Cybersecurity");
  }

  /** A label that differs from a lower-case name only in an upper-cased first letter is its capitalisation. */
  lemma LeadingCapital(name: string, shown: string)
    requires |name| == |shown| > 0 && 'a' <= name[0] <= 'z'
    requires shown[0] as int == name[0] as int - 32 && shown[1..] == name[1..]
    ensures Capitalised(name) == shown
  {
    assert Capitalised(name)[0] == shown[0];
  }
}
