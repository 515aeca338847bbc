/**
 * The stand-alone admin page (src/pages/AdminPanel.tsx): one search box
 * filtering posts, comments and subscribers; the post form with its
 * category checkboxes; publish and approve toggles; deletes; and the
 * category form. Database writes go to `Blog.Database`; each call's outcome
 * is a `Reply` parameter, and `alert` messages are collected in `alerts`.
 */
module AdminPanel {
  import opened Wrappers
  import opened Blog
  import opened Subscribers
  import Lists
  import SubscribersManager

  /** The posts whose title, content or non-empty excerpt holds the query, ignoring ASCII case. */
  function FilteredPosts(posts: seq<Post>, query: string): seq<Post> {
    Lists.Filter((p: Post) => PostMatches(p, query), posts)
  }

  function FilteredComments(comments: seq<Comment>, query: string): seq<Comment> {
    Lists.Filter((c: Comment) => CommentMatches(c, query), comments)
  }

  function FilteredSubscribers(subscribers: seq<Subscriber>, query: string): seq<Subscriber> {
    Lists.Filter((s: Subscriber) => SubscribersManager.MatchesSearch(s, query), subscribers)
  }

  /** What `editPost` puts in the form: the post's fields, a missing excerpt or image as `''`. */
  function FormOf(p: Post): (f: PostForm)
    ensures f.title == p.title && f.published == p.published
    ensures f.excerpt == (if p.excerpt.Some? then p.excerpt.value else "")
    ensures f.featuredImage == (if p.featuredImage.Some? then p.featuredImage.value else "")
  {
    PostForm(p.title, p.excerpt.GetOr(""), p.featuredImage.GetOr(""), p.published)
  }

  /** What `editCategory` puts in the category form: a missing description as `''`. */
  function CategoryFormOf(c: Category): (f: CategoryForm)
    ensures f.name == c.name && f.slug == c.slug && f.color == c.color
    ensures f.description == (if c.description.Some? then c.description.value else "")
  {
    CategoryForm(c.name, c.slug, c.description.GetOr(""), c.color)
  }

  class Panel {
    var posts: seq<Post>
    var comments: seq<Comment>
    var subscribers: seq<Subscriber>
    var categories: seq<Category>
    var query: string
    var editingPost: Option<Post>
    var editingCategory: Option<Category>
    var showPostForm: bool
    var showCategoryForm: bool
    var loading: bool
    var form: PostForm
    var content: string
    var selected: seq<string>
    var categoryForm: CategoryForm
    var alerts: seq<string>
    var refreshes: nat

    constructor ()
      ensures posts == [] && comments == [] && subscribers == [] && categories == [] && query == ""
      ensures editingPost == None && editingCategory == None && !showPostForm && !showCategoryForm && loading
      ensures form == EmptyPostForm && content == "" && selected == [] && categoryForm == EmptyCategoryForm
      ensures alerts == [] && refreshes == 0
    {
      posts := [];
      comments := [];
      subscribers := [];
      categories := [];
      query := "";
      editingPost := None;
      editingCategory := None;
      showPostForm := false;
      showCategoryForm := false;
      loading := true;
      form := EmptyPostForm;
      content := "";
      selected := [];
      categoryForm := EmptyCategoryForm;
      alerts := [];
      refreshes := 0;
    }

    /**
     * `fetchData`: each list is the query's rows, or empty when its query
     * failed; posts carry their flattened categories. Without a client, or
     * when the combined wait throws, only `loading` changes.
     */
    method FetchData(hasClient: bool, thrown: bool, postRows: Option<seq<PostRow>>, commentRows: Option<seq<Comment>>,
                     subscriberRows: Option<seq<Subscriber>>, categoryRows: Option<seq<Category>>)
      modifies this
      ensures !hasClient || thrown ==>
                posts == old(posts) && comments == old(comments) && subscribers == old(subscribers) && categories == old(categories)
      ensures hasClient && !thrown ==>
                posts == Transform(postRows.GetOr([])) && comments == commentRows.GetOr([]) &&
                subscribers == subscriberRows.GetOr([]) && categories == categoryRows.GetOr([])
      ensures !loading
      ensures query == old(query) && editingPost == old(editingPost) && form == old(form) && selected == old(selected)
      ensures alerts == old(alerts) && refreshes == old(refreshes)
    {
      if hasClient && !thrown {
        posts := Transform(postRows.GetOr([]));
        comments := commentRows.GetOr([]);
        subscribers := subscriberRows.GetOr([]);
        categories := categoryRows.GetOr([]);
      }
      loading := false;
    }

    method SetSearchQuery(q: string)
      modifies this
      ensures query == q
      ensures posts == old(posts) && comments == old(comments) && subscribers == old(subscribers)
    {
      query := q;
    }

    /** The search effect's three lists. */
    function ShownPosts(): seq<Post>
      reads this
    {
      FilteredPosts(posts, query)
    }

    function ShownComments(): seq<Comment>
      reads this
    {
      FilteredComments(comments, query)
    }

    function ShownSubscribers(): seq<Subscriber>
      reads this
    {
      FilteredSubscribers(subscribers, query)
    }

    /**
     * `onSubmitPost`: update the post being edited or insert a new one
     * (the database names it `newId`); with a non-empty selection, replace
     * the post's category links; then reset the form and refetch. Without a
     * client, or when the post write fails, an alert and nothing else.
     */
    method SubmitPost(hasClient: bool, reply: Reply, newId: string, db: Database)
      modifies this, db
      ensures !hasClient ==>
                alerts == old(alerts) + ["Database not configured"] && db.posts == old(db.posts) && db.links == old(db.links)
      ensures hasClient && reply != Answered ==>
                alerts == old(alerts) + ["Error saving post"] && db.posts == old(db.posts) && db.links == old(db.links)
      ensures !hasClient || reply != Answered ==>
                form == old(form) && content == old(content) && selected == old(selected) &&
                editingPost == old(editingPost) && showPostForm == old(showPostForm) && refreshes == old(refreshes)
      ensures hasClient && reply == Answered ==>
                var postId := if old(editingPost).Some? then old(editingPost).value.id else newId;
                db.posts == (if old(editingPost).Some? then EditPosts(old(db.posts), postId, old(form), old(content))
                             else old(db.posts) + [FromForm(newId, old(form), old(content), [])]) &&
                db.links == ReplaceLinks(old(db.links), postId, old(selected)) &&
                alerts == old(alerts) && form == EmptyPostForm && content == "" && selected == [] &&
                editingPost == None && !showPostForm && refreshes == old(refreshes) + 1
      ensures db.comments == old(db.comments) && db.categories == old(db.categories)
      ensures query == old(query) && posts == old(posts)
    {
      if !hasClient {
        alerts := alerts + ["Database not configured"];
        return;
      }
      if reply != Answered {
        alerts := alerts + ["Error saving post"];
        return;
      }
      var postId: string;
      if editingPost.Some? {
        postId := editingPost.value.id;
        db.EditPost(postId, form, content);
      } else {
        postId := newId;
        db.InsertPost(postId, form, content);
      }
      db.SaveLinks(postId, selected);
      ResetPostForm();
    }

    /** After a successful save: the form is cleared and closed and the data refetched. */
    method ResetPostForm()
      modifies this
      ensures form == EmptyPostForm && content == "" && selected == [] && editingPost == None && !showPostForm
      ensures refreshes == old(refreshes) + 1
      ensures alerts == old(alerts) && query == old(query) && posts == old(posts)
    {
      form := EmptyPostForm;
      content := "";
      selected := [];
      editingPost := None;
      showPostForm := false;
      refreshes := refreshes + 1;
    }

    /** `togglePostPublished(post)`: writes the negation of the flag the row showed. */
    method TogglePostPublished(post: Post, hasClient: bool, reply: Reply, db: Database)
      modifies this, db
      ensures hasClient && reply == Answered ==>
                db.posts == SetPublished(old(db.posts), post.id, !post.published) && refreshes == old(refreshes) + 1
      ensures !hasClient || reply != Answered ==> db.posts == old(db.posts) && refreshes == old(refreshes)
      ensures db.comments == old(db.comments) && db.categories == old(db.categories) && db.links == old(db.links)
      ensures alerts == old(alerts) && form == old(form) && selected == old(selected)
    {
      if hasClient && reply == Answered {
        db.SetPostPublished(post.id, !post.published);
        refreshes := refreshes + 1;
      }
    }

    /** `approveComment(comment)`: a toggle here, writing the negation of the flag the row showed. */
    method ApproveComment(comment: Comment, hasClient: bool, reply: Reply, db: Database)
      modifies this, db
      ensures hasClient && reply == Answered ==>
                db.comments == SetApproved(old(db.comments), comment.id, !comment.approved) && refreshes == old(refreshes) + 1
      ensures !hasClient || reply != Answered ==> db.comments == old(db.comments) && refreshes == old(refreshes)
      ensures db.posts == old(db.posts) && db.categories == old(db.categories) && db.links == old(db.links)
      ensures alerts == old(alerts) && form == old(form) && selected == old(selected)
    {
      if hasClient && reply == Answered {
        db.SetCommentApproved(comment.id, !comment.approved);
        refreshes := refreshes + 1;
      }
    }

    /** `deletePost`, `deleteComment` and `deleteCategory` after their dialogs; failures are only logged. */
    method DeletePost(id: string, hasClient: bool, confirmed: bool, reply: Reply, db: Database)
      modifies this, db
      ensures hasClient && confirmed && reply == Answered ==>
                db.posts == RemovePost(old(db.posts), id) && refreshes == old(refreshes) + 1
      ensures !(hasClient && confirmed && reply == Answered) ==> db.posts == old(db.posts) && refreshes == old(refreshes)
      ensures db.comments == old(db.comments) && db.categories == old(db.categories) && db.links == old(db.links)
      ensures alerts == old(alerts) && form == old(form) && selected == old(selected)
    {
      if hasClient && confirmed && reply == Answered {
        db.DeletePost(id);
        refreshes := refreshes + 1;
      }
    }

    method DeleteComment(id: string, hasClient: bool, confirmed: bool, reply: Reply, db: Database)
      modifies this, db
      ensures hasClient && confirmed && reply == Answered ==>
                db.comments == RemoveComment(old(db.comments), id) && refreshes == old(refreshes) + 1
      ensures !(hasClient && confirmed && reply == Answered) ==> db.comments == old(db.comments) && refreshes == old(refreshes)
      ensures db.posts == old(db.posts) && db.categories == old(db.categories) && db.links == old(db.links)
      ensures alerts == old(alerts) && form == old(form) && selected == old(selected)
    {
      if hasClient && confirmed && reply == Answered {
        db.DeleteComment(id);
        refreshes := refreshes + 1;
      }
    }

    method DeleteCategory(id: string, hasClient: bool, confirmed: bool, reply: Reply, db: Database)
      modifies this, db
      ensures hasClient && confirmed && reply == Answered ==>
                db.categories == RemoveCategory(old(db.categories), id) && refreshes == old(refreshes) + 1
      ensures !(hasClient && confirmed && reply == Answered) ==> db.categories == old(db.categories) && refreshes == old(refreshes)
      ensures db.posts == old(db.posts) && db.comments == old(db.comments) && db.links == old(db.links)
      ensures alerts == old(alerts) && form == old(form) && selected == old(selected)
    {
      if hasClient && confirmed && reply == Answered {
        db.DeleteCategory(id);
        refreshes := refreshes + 1;
      }
    }

    /** `editPost`: the form, the content and the selection come from the post, and the form opens. */
    method EditPost(p: Post)
      modifies this
      ensures editingPost == Some(p) && form == FormOf(p) && content == p.content && showPostForm
      ensures selected == CategoryIds(p.categories)
      ensures posts == old(posts) && query == old(query) && alerts == old(alerts) && refreshes == old(refreshes)
    {
      editingPost := Some(p);
      form := FormOf(p);
      selected := CategoryIds(p.categories);
      content := p.content;
      showPostForm := true;
    }

    /** "New Post": clears the form and the content but keeps the selection. */
    method NewPost()
      modifies this
      ensures editingPost == None && form == EmptyPostForm && content == "" && showPostForm
      ensures selected == old(selected)
      ensures posts == old(posts) && query == old(query) && alerts == old(alerts) && refreshes == old(refreshes)
    {
      editingPost := None;
      form := EmptyPostForm;
      content := "";
      showPostForm := true;
    }

    /** The post form's Cancel: closes and clears everything, the selection included. */
    method CancelPost()
      modifies this
      ensures editingPost == None && form == EmptyPostForm && content == "" && !showPostForm && selected == []
      ensures posts == old(posts) && query == old(query) && alerts == old(alerts) && refreshes == old(refreshes)
    {
      showPostForm := false;
      editingPost := None;
      form := EmptyPostForm;
      content := "";
      selected := [];
    }

    /** A category checkbox: checking appends the id, unchecking removes every copy of it. */
    method SetCategoryChecked(id: string, checked: bool)
      modifies this
      ensures checked ==> selected == old(selected) + [id]
      ensures !checked ==> id !in selected && selected == Lists.Filter((x: string) => x != id, old(selected))
      ensures editingPost == old(editingPost) && form == old(form) && content == old(content)
    {
      if checked {
        selected := selected + [id];
      } else {
        selected := Lists.Filter((x: string) => x != id, selected);
        Lists.FilterSpec((x: string) => x != id, old(selected));
      }
    }

    /** `editCategory`. */
    method EditCategory(c: Category)
      modifies this
      ensures editingCategory == Some(c) && categoryForm == CategoryFormOf(c) && showCategoryForm
      ensures form == old(form) && selected == old(selected) && alerts == old(alerts)
    {
      editingCategory := Some(c);
      categoryForm := CategoryFormOf(c);
      showCategoryForm := true;
    }

    /** "New Category" and the category form's Cancel differ only in whether the form shows. */
    method ResetCategoryForm(show: bool)
      modifies this
      ensures editingCategory == None && categoryForm == EmptyCategoryForm && showCategoryForm == show
      ensures form == old(form) && selected == old(selected) && alerts == old(alerts)
    {
      editingCategory := None;
      categoryForm := EmptyCategoryForm;
      showCategoryForm := show;
    }

    /** `onSubmitCategory`: update the category being edited, or insert one (named `newId`). */
    method SubmitCategory(hasClient: bool, reply: Reply, newId: string, db: Database)
      modifies this, db
      ensures !hasClient ==> alerts == old(alerts) + ["Database not configured"] && db.categories == old(db.categories)
      ensures hasClient && reply != Answered ==> alerts == old(alerts) + ["Error saving category"] && db.categories == old(db.categories)
      ensures !hasClient || reply != Answered ==>
                categoryForm == old(categoryForm) && editingCategory == old(editingCategory) &&
                showCategoryForm == old(showCategoryForm) && refreshes == old(refreshes)
      ensures hasClient && reply == Answered ==>
                db.categories == (if old(editingCategory).Some? then EditCategories(old(db.categories), old(editingCategory).value.id, old(categoryForm))
                                  else old(db.categories) + [CategoryFromForm(newId, old(categoryForm))]) &&
                alerts == old(alerts) && categoryForm == EmptyCategoryForm && editingCategory == None &&
                !showCategoryForm && refreshes == old(refreshes) + 1
      ensures db.posts == old(db.posts) && db.comments == old(db.comments) && db.links == old(db.links)
      ensures form == old(form) && selected == old(selected)
    {
      if !hasClient {
        alerts := alerts + ["Database not configured"];
        return;
      }
      if reply != Answered {
        alerts := alerts + ["Error saving category"];
        return;
      }
      if editingCategory.Some? {
        db.EditCategory(editingCategory.value.id, categoryForm);
      } else {
        db.InsertCategory(newId, categoryForm);
      }
      categoryForm := EmptyCategoryForm;
      editingCategory := None;
      showCategoryForm := false;
      refreshes := refreshes + 1;
    }
  }

  // ---------------------------------------------------------------------
  // Properties

  /**
   * Each filtered list is an order-preserving sublist holding exactly the
   * matching rows; an empty search keeps every row.
   */
  lemma FilteredSpec(posts: seq<Post>, comments: seq<Comment>, subscribers: seq<Subscriber>, query: string)
    ensures Lists.IsSublist(FilteredPosts(posts, query), posts)
    ensures forall p | p in FilteredPosts(posts, query) :: p in posts && PostMatches(p, query)
    ensures forall p | p in posts && PostMatches(p, query) :: p in FilteredPosts(posts, query)
    ensures Lists.IsSublist(FilteredComments(comments, query), comments)
    ensures forall c | c in FilteredComments(comments, query) :: c in comments && CommentMatches(c, query)
    ensures forall c | c in comments && CommentMatches(c, query) :: c in FilteredComments(comments, query)
    ensures Lists.IsSublist(FilteredSubscribers(subscribers, query), subscribers)
    ensures forall s | s in FilteredSubscribers(subscribers, query) :: s in subscribers && SubscribersManager.MatchesSearch(s, query)
    ensures forall s | s in subscribers && SubscribersManager.MatchesSearch(s, query) :: s in FilteredSubscribers(subscribers, query)
  {
    Lists.FilterSpec((p: Post) => PostMatches(p, query), posts);
    Lists.FilterSpec((c: Comment) => CommentMatches(c, query), comments);
    Lists.FilterSpec((s: Subscriber) => SubscribersManager.MatchesSearch(s, query), subscribers);
  }

  lemma EmptySearchKeepsAll(posts: seq<Post>, comments: seq<Comment>, subscribers: seq<Subscriber>)
    ensures FilteredPosts(posts, "") == posts
    ensures FilteredComments(comments, "") == comments
    ensures FilteredSubscribers(subscribers, "") == subscribers
  {
    forall i | 0 <= i < |posts|
      ensures PostMatches(posts[i], "")
    {
      EmptySearchMatchesAll(posts[i], Comment("", "", None, "", "", "", false, None, None));
    }
    forall i | 0 <= i < |comments|
      ensures CommentMatches(comments[i], "")
    {
      EmptySearchMatchesAll(Post("", "", "", None, None, false, []), comments[i]);
    }
    forall i | 0 <= i < |subscribers|
      ensures SubscribersManager.MatchesSearch(subscribers[i], "")
    {
      SubscribersManager.SearchCaseInsensitive(subscribers[i], "");
    }
    Lists.FilterAll((p: Post) => PostMatches(p, ""), posts);
    Lists.FilterAll((c: Comment) => CommentMatches(c, ""), comments);
    Lists.FilterAll((s: Subscriber) => SubscribersManager.MatchesSearch(s, ""), subscribers);
  }

  /**
   * Editing a post and saving it straight away gives it back the categories
   * it was loaded with, provided it had at least one.
   */
  lemma EditThenSaveKeepsCategories(links: seq<Link>, p: Post)
    requires |p.categories| > 0
    ensures LinksOf(ReplaceLinks(links, p.id, CategoryIds(p.categories)), p.id) == NewLinks(p.id, CategoryIds(p.categories))
  {
    ReplaceLinksSpec(links, p.id, CategoryIds(p.categories));
  }
}
