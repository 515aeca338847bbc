/**
 * The dashboard shown after login (src/components/AdminContent.tsx): a
 * persisted tab, the same search filters and post saving as the stand-alone
 * admin page, and a post form without a category picker. Deleting and
 * publishing do not check the database's `error` field: only a rejected
 * call skips the refetch. Its other tabs delegate to the comment,
 * subscriber, category, newsletter and analytics components.
 */
module AdminContent {
  import opened Wrappers
  import opened Blog
  import opened Subscribers
  import Browser
  import Lists
  import AdminPanel

  /** The localStorage key holding the open tab. */
  const TabKey: string := "adminActiveTab"

  /** The tabs the dashboard renders a view for. */
  const Tabs: seq<string> := ["posts", "comments", "subscribers", "categories", "analytics", "newsletter"]

  /**
   * The mount effect: a stored non-empty string replaces the current tab.
   * The stored value is cast, not checked against `Tabs`.
   */
  function Restored(saved: Option<string>, current: string): (tab: string)
    ensures saved.Some? && saved.value != "" ==> tab == saved.value
    ensures saved.None? || saved.value == "" ==> tab == current
  {
    if saved.Some? && saved.value != "" then saved.value else current
  }

  class Dashboard {
    var tab: string
    var posts: seq<Post>
    var comments: seq<Comment>
    var subscribers: seq<Subscriber>
    var categories: seq<Category>
    var query: string
    var editingPost: Option<Post>
    var editingCategory: Option<Category>
    var showPostForm: bool
    var showCategoryForm: bool
    var loading: bool
    var form: PostForm
    var content: string
    var selected: seq<string>
    var alerts: seq<string>
    var refreshes: nat

    constructor ()
      ensures tab == "posts" && posts == [] && comments == [] && subscribers == [] && categories == [] && query == ""
      ensures editingPost == None && editingCategory == None && !showPostForm && !showCategoryForm && loading
      ensures form == EmptyPostForm && content == "" && selected == [] && alerts == [] && refreshes == 0
    {
      tab := "posts";
      posts := [];
      comments := [];
      subscribers := [];
      categories := [];
      query := "";
      editingPost := None;
      editingCategory := None;
      showPostForm := false;
      showCategoryForm := false;
      loading := true;
      form := EmptyPostForm;
      content := "";
      selected := [];
      alerts := [];
      refreshes := 0;
    }

    /** The mount effect reading the saved tab. */
    method RestoreTab(storage: Browser.Storage)
      modifies this
      ensures tab == Restored(storage.GetItem(TabKey), old(tab))
      ensures posts == old(posts) && selected == old(selected) && showPostForm == old(showPostForm)
    {
      tab := Restored(storage.GetItem(TabKey), tab);
    }

    /** `handleTabChange`: shows the tab and stores the same value. */
    method ChangeTab(t: string, storage: Browser.Storage)
      modifies this, storage
      ensures tab == t && storage.items == old(storage.items)[TabKey := t]
      ensures posts == old(posts) && selected == old(selected) && showPostForm == old(showPostForm)
    {
      tab := t;
      storage.SetItem(TabKey, t);
    }

    /** `fetchData`, as on the stand-alone page; the extra logged subscribers query changes nothing. */
    method FetchData(hasClient: bool, thrown: bool, postRows: Option<seq<PostRow>>, commentRows: Option<seq<Comment>>,
                     subscriberRows: Option<seq<Subscriber>>, categoryRows: Option<seq<Category>>)
      modifies this
      ensures !hasClient || thrown ==>
                posts == old(posts) && comments == old(comments) && subscribers == old(subscribers) && categories == old(categories)
      ensures hasClient && !thrown ==>
                posts == Transform(postRows.GetOr([])) && comments == commentRows.GetOr([]) &&
                subscribers == subscriberRows.GetOr([]) && categories == categoryRows.GetOr([])
      ensures !loading
      ensures tab == old(tab) && query == old(query) && editingPost == old(editingPost) && form == old(form)
      ensures selected == old(selected) && alerts == old(alerts) && refreshes == old(refreshes)
    {
      if hasClient && !thrown {
        posts := Transform(postRows.GetOr([]));
        comments := commentRows.GetOr([]);
        subscribers := subscriberRows.GetOr([]);
        categories := categoryRows.GetOr([]);
      }
      loading := false;
    }

    method SetSearchQuery(q: string)
      modifies this
      ensures query == q
      ensures posts == old(posts) && comments == old(comments) && subscribers == old(subscribers) && tab == old(tab)
    {
      query := q;
    }

    /** The search effect's lists, with the stand-alone page's filters. */
    function ShownPosts(): seq<Post>
      reads this
    {
      AdminPanel.FilteredPosts(posts, query)
    }

    function ShownComments(): seq<Comment>
      reads this
    {
      AdminPanel.FilteredComments(comments, query)
    }

    function ShownSubscribers(): seq<Subscriber>
      reads this
    {
      AdminPanel.FilteredSubscribers(subscribers, query)
    }

    /** The "Pending" badge of the comments tab. */
    function PendingBadge(): (n: nat)
      reads this
      ensures n <= |comments|
    {
      |Lists.Filter((c: Comment) => !c.approved, comments)|
    }

    /** `onSubmitPost`, the same steps as on the stand-alone page. */
    method SubmitPost(hasClient: bool, reply: Reply, newId: string, db: Database)
      modifies this, db
      ensures !hasClient ==>
                alerts == old(alerts) + ["Database not configured"] && db.posts == old(db.posts) && db.links == old(db.links)
      ensures hasClient && reply != Answered ==>
                alerts == old(alerts) + ["Error saving post"] && db.posts == old(db.posts) && db.links == old(db.links)
      ensures !hasClient || reply != Answered ==>
                form == old(form) && content == old(content) && selected == old(selected) &&
                editingPost == old(editingPost) && showPostForm == old(showPostForm) && refreshes == old(refreshes)
      ensures hasClient && reply == Answered ==>
                var postId := if old(editingPost).Some? then old(editingPost).value.id else newId;
                db.posts == (if old(editingPost).Some? then EditPosts(old(db.posts), postId, old(form), old(content))
                             else old(db.posts) + [FromForm(newId, old(form), old(content), [])]) &&
                db.links == ReplaceLinks(old(db.links), postId, old(selected)) &&
                alerts == old(alerts) && form == EmptyPostForm && content == "" && selected == [] &&
                editingPost == None && !showPostForm && refreshes == old(refreshes) + 1
      ensures db.comments == old(db.comments) && db.categories == old(db.categories)
      ensures tab == old(tab) && query == old(query) && posts == old(posts)
    {
      if !hasClient {
        alerts := alerts + ["Database not configured"];
        return;
      }
      if reply != Answered {
        alerts := alerts + ["Error saving post"];
        return;
      }
      var postId: string;
      if editingPost.Some? {
        postId := editingPost.value.id;
        db.EditPost(postId, form, content);
      } else {
        postId := newId;
        db.InsertPost(postId, form, content);
      }
      db.SaveLinks(postId, selected);
      ResetPostForm();
    }

    /** After a successful save: the form is cleared and closed and the data refetched. */
    method ResetPostForm()
      modifies this
      ensures form == EmptyPostForm && content == "" && selected == [] && editingPost == None && !showPostForm
      ensures refreshes == old(refreshes) + 1
      ensures alerts == old(alerts) && tab == old(tab) && query == old(query) && posts == old(posts)
    {
      form := EmptyPostForm;
      content := "";
      selected := [];
      editingPost := None;
      showPostForm := false;
      refreshes := refreshes + 1;
    }

    /**
     * `deletePost`: an answered error is not checked, so it refetches just
     * the same; only a rejected call skips the refetch.
     */
    method DeletePost(id: string, hasClient: bool, confirmed: bool, reply: Reply, db: Database)
      modifies this, db
      ensures hasClient && confirmed && reply == Answered ==> db.posts == RemovePost(old(db.posts), id)
      ensures !(hasClient && confirmed && reply == Answered) ==> db.posts == old(db.posts)
      ensures refreshes == if hasClient && confirmed && reply != Rejected then old(refreshes) + 1 else old(refreshes)
      ensures db.comments == old(db.comments) && db.categories == old(db.categories) && db.links == old(db.links)
      ensures alerts == old(alerts) && form == old(form) && selected == old(selected)
    {
      if !hasClient || !confirmed {
        return;
      }
      if reply == Answered {
        db.DeletePost(id);
      }
      if reply != Rejected {
        refreshes := refreshes + 1;
      }
    }

    /** `togglePostPublished`: writes the negation of the shown flag; errors are handled as in `DeletePost`. */
    method TogglePostPublished(post: Post, hasClient: bool, reply: Reply, db: Database)
      modifies this, db
      ensures hasClient && reply == Answered ==> db.posts == SetPublished(old(db.posts), post.id, !post.published)
      ensures !(hasClient && reply == Answered) ==> db.posts == old(db.posts)
      ensures refreshes == if hasClient && reply != Rejected then old(refreshes) + 1 else old(refreshes)
      ensures db.comments == old(db.comments) && db.categories == old(db.categories) && db.links == old(db.links)
      ensures alerts == old(alerts) && form == old(form) && selected == old(selected)
    {
      if !hasClient {
        return;
      }
      if reply == Answered {
        db.SetPostPublished(post.id, !post.published);
      }
      if reply != Rejected {
        refreshes := refreshes + 1;
      }
    }

    /** `editPost`: the only place the selection is set. */
    method EditPost(p: Post)
      modifies this
      ensures editingPost == Some(p) && form == AdminPanel.FormOf(p) && content == p.content && showPostForm
      ensures selected == CategoryIds(p.categories)
      ensures tab == old(tab) && posts == old(posts) && alerts == old(alerts) && refreshes == old(refreshes)
    {
      editingPost := Some(p);
      form := AdminPanel.FormOf(p);
      selected := CategoryIds(p.categories);
      content := p.content;
      showPostForm := true;
    }

    /** The header's "Add" button, shown on the posts and categories tabs only. */
    method Add()
      requires tab == "posts" || tab == "categories"
      modifies this
      ensures tab == "posts" ==>
                editingPost == None && form == EmptyPostForm && content == "" && showPostForm &&
                editingCategory == old(editingCategory) && showCategoryForm == old(showCategoryForm)
      ensures tab == "categories" ==>
                editingCategory == None && showCategoryForm &&
                editingPost == old(editingPost) && form == old(form) && content == old(content) && showPostForm == old(showPostForm)
      ensures selected == old(selected) && tab == old(tab) && posts == old(posts) && refreshes == old(refreshes)
    {
      if tab == "posts" {
        editingPost := None;
        form := EmptyPostForm;
        content := "";
        showPostForm := true;
      } else {
        editingCategory := None;
        showCategoryForm := true;
      }
    }

    /** The form's close button and its Cancel button: the selection is not cleared. */
    method ClosePost()
      modifies this
      ensures !showPostForm && editingPost == None && form == EmptyPostForm && content == ""
      ensures selected == old(selected) && tab == old(tab) && posts == old(posts) && refreshes == old(refreshes)
    {
      showPostForm := false;
      editingPost := None;
      form := EmptyPostForm;
      content := "";
    }
  }

  /**
   * Editing a post with categories, cancelling, adding a new post and
   * saving it links the new post to the edited post's categories: the form
   * has no picker, and neither Cancel nor Add clears the selection.
   */
  method EditCloseAddSave(d: Dashboard, p: Post, newId: string, db: Database)
    requires d.tab == "posts" && |p.categories| > 0
    modifies d, db
    ensures LinksOf(db.links, newId) == NewLinks(newId, CategoryIds(p.categories))
    ensures db.posts == old(db.posts) + [FromForm(newId, EmptyPostForm, "", [])]
  {
    d.EditPost(p);
    d.ClosePost();
    d.Add();
    d.SubmitPost(true, Answered, newId, db);
    ReplaceLinksSpec(old(db.links), newId, CategoryIds(p.categories));
  }

  // ---------------------------------------------------------------------
  // Properties

  /**
   * A tab chosen and stored comes back after a reload, and any other stored
   * non-empty string, a name of no view included, is adopted as well.
   */
  lemma TabSurvivesReload(items: map<string, string>, t: string, other: string)
    requires t != "" && other != ""
    ensures Restored(Some(items[TabKey := t][TabKey]), "posts") == t
    ensures other !in Tabs ==> Restored(Some(other), "posts") == other && Restored(Some(other), "posts") !in Tabs
    ensures Restored(None, "posts") == "posts" && Restored(Some(""), "posts") == "posts"
  {
  }

  /** The pending badge and the approved count add up to the number of comments. */
  lemma BadgeAndApprovedAddUp(comments: seq<Comment>)
    ensures |Lists.Filter((c: Comment) => !c.approved, comments)| + |Lists.Filter((c: Comment) => c.approved, comments)| == |comments|
  {
    Lists.FilterSpec((c: Comment) => !c.approved, comments);
    Lists.FilterSpec((c: Comment) => c.approved, comments);
    Lists.CountSplit((c: Comment) => c.approved, (c: Comment) => !c.approved, comments);
  }
}
