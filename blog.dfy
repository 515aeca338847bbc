/**
 * The blog's tables as the admin screens read and write them: posts,
 * comments, categories and the `post_categories` links between posts and
 * categories, each in table order. A post as fetched carries the categories
 * its links name (`post_categories(categories(*))`, flattened).
 */
module Blog {
  import opened Wrappers
  import opened Text
  import Lists

  datatype Category = Category(id: string, name: string, slug: string, description: Option<string>, color: string)

  datatype Post = Post(id: string, title: string, content: string, excerpt: Option<string>, featuredImage: Option<string>,
                       published: bool, categories: seq<Category>)

  datatype Comment = Comment(id: string, postId: string, parentId: Option<string>, authorName: string, authorEmail: string,
                             content: string, approved: bool, likesCount: Option<nat>, dislikesCount: Option<nat>)

  /** One `post_categories` row. */
  datatype Link = Link(postId: string, categoryId: string)

  /** The post form's fields; the content is held apart, in the editor's own state. */
  datatype PostForm = PostForm(title: string, excerpt: string, featuredImage: string, published: bool)

  /** The category form's fields. */
  datatype CategoryForm = CategoryForm(name: string, slug: string, description: string, color: string)

  /** What `reset()` leaves in the post form. */
  const EmptyPostForm: PostForm := PostForm("", "", "", false)
  const EmptyCategoryForm: CategoryForm := CategoryForm("", "", "", "")

  // ---------------------------------------------------------------------
  // Reading

  /**
   * `post.post_categories?.map(pc => pc.categories).filter(Boolean) || []`:
   * the joined categories, without the links whose category is missing.
   */
  function Flatten(joined: Option<seq<Option<Category>>>): seq<Category> {
    if joined.None? then [] else Somes(joined.value)
  }

  function Somes(xs: seq<Option<Category>>): seq<Category> {
    if xs == [] then []
    else (if xs[0].Some? then [xs[0].value] else []) + Somes(xs[1..])
  }

  /** A fetched `blog_posts` row with its joined `post_categories(categories(*))`. */
  datatype PostRow = PostRow(post: Post, joined: Option<seq<Option<Category>>>)

  /** `transformedPosts`: each row with its flattened categories. */
  function Transform(rows: seq<PostRow>): (r: seq<Post>)
    ensures |r| == |rows|
  {
    seq(|rows|, i requires 0 <= i < |rows| => rows[i].post.(categories := Flatten(rows[i].joined)))
  }

  /** The admin search over posts: title, content or a non-empty excerpt holds the lower-cased query. */
  predicate PostMatches(p: Post, query: string) {
    var q := Lower(query);
    Includes(Lower(p.title), q) || Includes(Lower(p.content), q) ||
    (p.excerpt.Some? && p.excerpt.value != [] && Includes(Lower(p.excerpt.value), q))
  }

  /** The admin search over comments: author name, author email or content. */
  predicate CommentMatches(c: Comment, query: string) {
    var q := Lower(query);
    Includes(Lower(c.authorName), q) || Includes(Lower(c.authorEmail), q) || Includes(Lower(c.content), q)
  }

  function CategoryIds(cs: seq<Category>): (ids: seq<string>)
    ensures |ids| == |cs| && forall i | 0 <= i < |cs| :: ids[i] == cs[i].id
  {
    seq(|cs|, i requires 0 <= i < |cs| => cs[i].id)
  }

  // ---------------------------------------------------------------------
  // Writing

  /** `update({ published: v }).eq('id', id)`. */
  function SetPublished(posts: seq<Post>, id: string, v: bool): seq<Post> {
    Lists.MapWhere((p: Post) => p.id == id, (p: Post) => p.(published := v), posts)
  }

  /** `update({ approved: v }).eq('id', id)`. */
  function SetApproved(comments: seq<Comment>, id: string, v: bool): seq<Comment> {
    Lists.MapWhere((c: Comment) => c.id == id, (c: Comment) => c.(approved := v), comments)
  }

  /** `update(postData).eq('id', id)`: title, content, excerpt, image and flag from the form. */
  function EditPosts(posts: seq<Post>, id: string, form: PostForm, content: string): seq<Post> {
    Lists.MapWhere((p: Post) => p.id == id, (p: Post) => FromForm(p.id, form, content, p.categories), posts)
  }

  function FromForm(id: string, form: PostForm, content: string, categories: seq<Category>): Post {
    Post(id, form.title, content, Some(form.excerpt), Some(form.featuredImage), form.published, categories)
  }

  /** `update(data).eq('id', id)` on categories. */
  function EditCategories(categories: seq<Category>, id: string, form: CategoryForm): seq<Category> {
    Lists.MapWhere((c: Category) => c.id == id, (c: Category) => CategoryFromForm(c.id, form), categories)
  }

  function CategoryFromForm(id: string, form: CategoryForm): Category {
    Category(id, form.name, form.slug, Some(form.description), form.color)
  }

  function RemovePost(posts: seq<Post>, id: string): seq<Post> {
    Lists.Filter((p: Post) => p.id != id, posts)
  }

  function RemoveComment(comments: seq<Comment>, id: string): seq<Comment> {
    Lists.Filter((c: Comment) => c.id != id, comments)
  }

  function RemoveCategory(categories: seq<Category>, id: string): seq<Category> {
    Lists.Filter((c: Category) => c.id != id, categories)
  }

  function LinksOf(links: seq<Link>, postId: string): seq<Link> {
    Lists.Filter((l: Link) => l.postId == postId, links)
  }

  function LinksNotOf(links: seq<Link>, postId: string): seq<Link> {
    Lists.Filter((l: Link) => l.postId != postId, links)
  }

  function NewLinks(postId: string, selected: seq<string>): (r: seq<Link>)
    ensures |r| == |selected|
  {
    seq(|selected|, i requires 0 <= i < |selected| => Link(postId, selected[i]))
  }

  /**
   * After saving a post: with a non-empty selection, the post's links are
   * deleted and one link per selected category is inserted; with an empty
   * selection nothing is touched.
   */
  function ReplaceLinks(links: seq<Link>, postId: string, selected: seq<string>): seq<Link> {
    if |selected| > 0 then LinksNotOf(links, postId) + NewLinks(postId, selected) else links
  }

  /** The database the admin screens talk to. */
  class Database {
    var posts: seq<Post>
    var comments: seq<Comment>
    var categories: seq<Category>
    var links: seq<Link>

    constructor (posts: seq<Post>, comments: seq<Comment>, categories: seq<Category>, links: seq<Link>)
      ensures this.posts == posts && this.comments == comments && this.categories == categories && this.links == links
    {
      this.posts := posts;
      this.comments := comments;
      this.categories := categories;
      this.links := links;
    }

    method SetPostPublished(id: string, v: bool)
      modifies this
      ensures posts == SetPublished(old(posts), id, v)
      ensures comments == old(comments) && categories == old(categories) && links == old(links)
    {
      posts := SetPublished(posts, id, v);
    }

    method EditPost(id: string, form: PostForm, content: string)
      modifies this
      ensures posts == EditPosts(old(posts), id, form, content)
      ensures comments == old(comments) && categories == old(categories) && links == old(links)
    {
      posts := EditPosts(posts, id, form, content);
    }

    /** `insert(postData).select().single()`; the database picks a fresh id. */
    method InsertPost(id: string, form: PostForm, content: string)
      modifies this
      ensures posts == old(posts) + [FromForm(id, form, content, [])]
      ensures comments == old(comments) && categories == old(categories) && links == old(links)
    {
      posts := posts + [FromForm(id, form, content, [])];
    }

    method DeletePost(id: string)
      modifies this
      ensures posts == RemovePost(old(posts), id)
      ensures comments == old(comments) && categories == old(categories) && links == old(links)
    {
      posts := RemovePost(posts, id);
    }

    method SetCommentApproved(id: string, v: bool)
      modifies this
      ensures comments == SetApproved(old(comments), id, v)
      ensures posts == old(posts) && categories == old(categories) && links == old(links)
    {
      comments := SetApproved(comments, id, v);
    }

    method DeleteComment(id: string)
      modifies this
      ensures comments == RemoveComment(old(comments), id)
      ensures posts == old(posts) && categories == old(categories) && links == old(links)
    {
      comments := RemoveComment(comments, id);
    }

    method EditCategory(id: string, form: CategoryForm)
      modifies this
      ensures categories == EditCategories(old(categories), id, form)
      ensures posts == old(posts) && comments == old(comments) && links == old(links)
    {
      categories := EditCategories(categories, id, form);
    }

    method InsertCategory(id: string, form: CategoryForm)
      modifies this
      ensures categories == old(categories) + [CategoryFromForm(id, form)]
      ensures posts == old(posts) && comments == old(comments) && links == old(links)
    {
      categories := categories + [CategoryFromForm(id, form)];
    }

    method DeleteCategory(id: string)
      modifies this
      ensures categories == RemoveCategory(old(categories), id)
      ensures posts == old(posts) && comments == old(comments) && links == old(links)
    {
      categories := RemoveCategory(categories, id);
    }

    /** The link replacement that follows a saved post. */
    method SaveLinks(postId: string, selected: seq<string>)
      modifies this
      ensures links == ReplaceLinks(old(links), postId, selected)
      ensures posts == old(posts) && comments == old(comments) && categories == old(categories)
    {
      links := ReplaceLinks(links, postId, selected);
    }
  }

  // ---------------------------------------------------------------------
  // Properties

  /** Flattening keeps the present categories, in order, and drops only the missing ones. */
  lemma {:induction false} SomesSpec(xs: seq<Option<Category>>)
    ensures |Somes(xs)| <= |xs|
    ensures forall c | c in Somes(xs) :: Some(c) in xs
    ensures forall i | 0 <= i < |xs| && xs[i].Some? :: xs[i].value in Somes(xs)
    ensures (forall i | 0 <= i < |xs| :: xs[i].Some?) ==> |Somes(xs)| == |xs|
    decreases |xs|
  {
    if xs != [] {
      SomesSpec(xs[1..]);
      assert forall i | 1 <= i < |xs| :: xs[i] == xs[1..][i - 1];
    }
  }

  /**
   * Fetching keeps the rows and their order and changes nothing in a post
   * but its categories, which are the joined categories that are present,
   * none when the join is absent.
   */
  lemma TransformSpec(rows: seq<PostRow>)
    ensures forall i | 0 <= i < |rows| ::
              Transform(rows)[i].(categories := rows[i].post.categories) == rows[i].post
    ensures forall i | 0 <= i < |rows| && rows[i].joined.None? :: Transform(rows)[i].categories == []
    ensures forall i, c | 0 <= i < |rows| && rows[i].joined.Some? && c in Transform(rows)[i].categories ::
              Some(c) in rows[i].joined.value
    ensures forall i, j | 0 <= i < |rows| && rows[i].joined.Some? && 0 <= j < |rows[i].joined.value| && rows[i].joined.value[j].Some? ::
              rows[i].joined.value[j].value in Transform(rows)[i].categories
  {
    forall i | 0 <= i < |rows| && rows[i].joined.Some?
      ensures var xs := rows[i].joined.value;
              (forall c | c in Somes(xs) :: Some(c) in xs) &&
              (forall j | 0 <= j < |xs| && xs[j].Some? :: xs[j].value in Somes(xs))
    {
      SomesSpec(rows[i].joined.value);
    }
  }

  /** An empty search matches every post and every comment. */
  lemma EmptySearchMatchesAll(p: Post, c: Comment)
    ensures PostMatches(p, "") && CommentMatches(c, "")
  {
    IncludesEmpty(Lower(p.title));
    IncludesEmpty(Lower(c.authorName));
  }

  /**
   * Publishing or approving by id changes only the rows with that id and only
   * the flag, and doing it twice is doing it once.
   */
  lemma SetFlagsSpec(posts: seq<Post>, comments: seq<Comment>, id: string, v: bool)
    ensures |SetPublished(posts, id, v)| == |posts|
    ensures forall i | 0 <= i < |posts| ::
              SetPublished(posts, id, v)[i] == if posts[i].id == id then posts[i].(published := v) else posts[i]
    ensures SetPublished(SetPublished(posts, id, v), id, v) == SetPublished(posts, id, v)
    ensures |SetApproved(comments, id, v)| == |comments|
    ensures forall i | 0 <= i < |comments| ::
              SetApproved(comments, id, v)[i] == if comments[i].id == id then comments[i].(approved := v) else comments[i]
    ensures SetApproved(SetApproved(comments, id, v), id, v) == SetApproved(comments, id, v)
  {
    Lists.MapWhereTwice((p: Post) => p.id == id, (p: Post) => p.(published := v), posts);
    Lists.MapWhereTwice((c: Comment) => c.id == id, (c: Comment) => c.(approved := v), comments);
  }

  /**
   * Toggling from the value shown and toggling back restores the table, as
   * long as every row with that id showed that value.
   */
  lemma ToggleTwice(posts: seq<Post>, comments: seq<Comment>, id: string, published: bool, approved: bool)
    requires forall i | 0 <= i < |posts| && posts[i].id == id :: posts[i].published == published
    requires forall i | 0 <= i < |comments| && comments[i].id == id :: comments[i].approved == approved
    ensures SetPublished(SetPublished(posts, id, !published), id, published) == posts
    ensures SetApproved(SetApproved(comments, id, !approved), id, approved) == comments
  {
    var p1 := SetPublished(posts, id, !published);
    var p2 := SetPublished(p1, id, published);
    assert forall i | 0 <= i < |posts| :: p2[i] == posts[i];
    var c1 := SetApproved(comments, id, !approved);
    var c2 := SetApproved(c1, id, approved);
    assert forall i | 0 <= i < |comments| :: c2[i] == comments[i];
  }

  /**
   * Saving a post with a non-empty selection leaves other posts' links as
   * they were, in order, and gives the post exactly the selected categories,
   * in selection order; an empty selection keeps the old links.
   */
  lemma ReplaceLinksSpec(links: seq<Link>, postId: string, selected: seq<string>)
    ensures |selected| == 0 ==> ReplaceLinks(links, postId, selected) == links
    ensures |selected| > 0 ==>
              LinksNotOf(ReplaceLinks(links, postId, selected), postId) == LinksNotOf(links, postId) &&
              LinksOf(ReplaceLinks(links, postId, selected), postId) == NewLinks(postId, selected)
  {
    if |selected| > 0 {
      var kept := LinksNotOf(links, postId);
      var added := NewLinks(postId, selected);
      KeptNotOf(links, postId);
      ReplacedNotOf(kept, added, postId);
      ReplacedOf(kept, added, postId);
    }
  }

  /** No link the delete keeps belongs to the post. */
  lemma KeptNotOf(links: seq<Link>, postId: string)
    ensures var kept := LinksNotOf(links, postId); forall i | 0 <= i < |kept| :: kept[i].postId != postId
  {
    var kept := LinksNotOf(links, postId);
    Lists.FilterSpec((l: Link) => l.postId != postId, links);
    forall i | 0 <= i < |kept|
      ensures kept[i].postId != postId
    {
      assert kept[i] in kept;
    }
  }

  /** Other posts' links followed by this post's new links: the other posts' part is what is not this post's. */
  lemma ReplacedNotOf(kept: seq<Link>, added: seq<Link>, postId: string)
    requires forall i | 0 <= i < |kept| :: kept[i].postId != postId
    requires forall i | 0 <= i < |added| :: added[i].postId == postId
    ensures LinksNotOf(kept + added, postId) == kept
  {
    Lists.FilterConcat((l: Link) => l.postId != postId, kept, added);
    Lists.FilterAll((l: Link) => l.postId != postId, kept);
    Lists.FilterNone((l: Link) => l.postId != postId, added);
    assert kept + [] == kept;
  }

  /** Other posts' links followed by this post's new links: this post's part is the new links. */
  lemma ReplacedOf(kept: seq<Link>, added: seq<Link>, postId: string)
    requires forall i | 0 <= i < |kept| :: kept[i].postId != postId
    requires forall i | 0 <= i < |added| :: added[i].postId == postId
    ensures LinksOf(kept + added, postId) == added
  {
    Lists.FilterConcat((l: Link) => l.postId == postId, kept, added);
    Lists.FilterNone((l: Link) => l.postId == postId, kept);
    Lists.FilterAll((l: Link) => l.postId == postId, added);
    assert [] + added == added;
  }

  /** Deleting by id removes every row with that id and keeps the others in order. */
  lemma RemoveSpec(posts: seq<Post>, id: string)
    ensures forall p | p in RemovePost(posts, id) :: p in posts && p.id != id
    ensures forall p | p in posts && p.id != id :: p in RemovePost(posts, id)
    ensures Lists.IsSublist(RemovePost(posts, id), posts)
  {
    Lists.FilterSpec((p: Post) => p.id != id, posts);
  }
}
