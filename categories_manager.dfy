/**
 * The category list of the dashboard (src/components/CategoriesManager.tsx):
 * the category form, whose name field writes the generated slug, and the
 * save and delete calls with their toasts. The category list is the
 * component's prop; `onRefresh` is counted.
 */
module CategoriesManager {
  import opened Wrappers
  import opened Blog
  import opened Toasts
  import opened Subscribers
  import Slugs
  import AdminPanel

  /** The colour swatches the form offers. */
  const Colors: seq<string> := ["#3B82F6", "#EF4444", "#10B981", "#F59E0B", "#8B5CF6",
                                "#EC4899", "#06B6D4", "#84CC16", "#F97316", "#6366F1"]

  class Manager {
    var showForm: bool
    var editing: Option<Category>
    var form: CategoryForm
    var toasts: seq<Toast>
    var refreshes: nat

    constructor ()
      ensures !showForm && editing == None && form == EmptyCategoryForm && toasts == [] && refreshes == 0
    {
      showForm := false;
      editing := None;
      form := EmptyCategoryForm;
      toasts := [];
      refreshes := 0;
    }

    /** Typing in the name field: the slug field is overwritten with the name's generated slug. */
    method TypeName(name: string)
      modifies this
      ensures form == old(form).(name := name, slug := Slugs.CategorySlug(name))
      ensures editing == old(editing) && showForm == old(showForm) && toasts == old(toasts)
    {
      form := form.(name := name, slug := Slugs.CategorySlug(name));
    }

    /** `editCategory`: the form gets the category's fields, a missing description as `''`. */
    method EditCategory(c: Category)
      modifies this
      ensures editing == Some(c) && form == AdminPanel.CategoryFormOf(c) && showForm
      ensures toasts == old(toasts) && refreshes == old(refreshes)
    {
      editing := Some(c);
      form := AdminPanel.CategoryFormOf(c);
      showForm := true;
    }

    /** "Add Category" (`show`) and the form's close button (`!show`). */
    method ResetForm(show: bool)
      modifies this
      ensures editing == None && form == EmptyCategoryForm && showForm == show
      ensures toasts == old(toasts) && refreshes == old(refreshes)
    {
      editing := None;
      form := EmptyCategoryForm;
      showForm := show;
    }

    /** `onSubmit`: update the category being edited, otherwise insert exactly one (named `newId`). */
    method Submit(hasClient: bool, reply: Reply, newId: string, db: Database)
      modifies this, db
      ensures !hasClient ==> db.categories == old(db.categories) && toasts == old(toasts)
      ensures hasClient && reply != Answered ==>
                db.categories == old(db.categories) && toasts == old(toasts) + [Toast(Error, "Failed to save category")]
      ensures !hasClient || reply != Answered ==>
                form == old(form) && editing == old(editing) && showForm == old(showForm) && refreshes == old(refreshes)
      ensures hasClient && reply == Answered && old(editing).Some? ==>
                db.categories == EditCategories(old(db.categories), old(editing).value.id, old(form)) &&
                toasts == old(toasts) + [Toast(Success, "Category updated")]
      ensures hasClient && reply == Answered && old(editing).None? ==>
                db.categories == old(db.categories) + [CategoryFromForm(newId, old(form))] &&
                toasts == old(toasts) + [Toast(Success, "Category created")]
      ensures hasClient && reply == Answered ==>
                form == EmptyCategoryForm && editing == None && !showForm && refreshes == old(refreshes) + 1
      ensures db.posts == old(db.posts) && db.comments == old(db.comments) && db.links == old(db.links)
    {
      if !hasClient {
        return;
      }
      if reply != Answered {
        toasts := toasts + [Toast(Error, "Failed to save category")];
        return;
      }
      if editing.Some? {
        db.EditCategory(editing.value.id, form);
        toasts := toasts + [Toast(Success, "Category updated")];
      } else {
        db.InsertCategory(newId, form);
        toasts := toasts + [Toast(Success, "Category created")];
      }
      form := EmptyCategoryForm;
      showForm := false;
      editing := None;
      refreshes := refreshes + 1;
    }

    /**
     * `deleteCategory`: the reply's `error` field is not checked, so an
     * answered error still reports success; only a rejected call fails.
     */
    method DeleteCategory(id: string, hasClient: bool, confirmed: bool, reply: Reply, db: Database)
      modifies this, db
      ensures !hasClient || !confirmed ==>
                db.categories == old(db.categories) && toasts == old(toasts) && refreshes == old(refreshes)
      ensures hasClient && confirmed && reply == Answered ==> db.categories == RemoveCategory(old(db.categories), id)
      ensures hasClient && confirmed && reply != Answered ==> db.categories == old(db.categories)
      ensures hasClient && confirmed && reply != Rejected ==>
                toasts == old(toasts) + [Toast(Success, "Category deleted")] && refreshes == old(refreshes) + 1
      ensures hasClient && confirmed && reply == Rejected ==>
                toasts == old(toasts) + [Toast(Error, "Failed to delete category")] && refreshes == old(refreshes)
      ensures db.posts == old(db.posts) && db.comments == old(db.comments) && db.links == old(db.links)
      ensures form == old(form) && editing == old(editing)
    {
      if !hasClient || !confirmed {
        return;
      }
      if reply == Answered {
        db.DeleteCategory(id);
      }
      if reply == Rejected {
        toasts := toasts + [Toast(Error, "Failed to delete category")];
      } else {
        toasts := toasts + [Toast(Success, "Category deleted")];
        refreshes := refreshes + 1;
      }
    }
  }

  // ---------------------------------------------------------------------
  // Properties

  /**
   * Updating by id rewrites the matching rows from the form and keeps their
   * id; every other row, and the number of rows, stays as it was.
   */
  lemma EditCategoriesSpec(categories: seq<Category>, id: string, form: CategoryForm)
    ensures |EditCategories(categories, id, form)| == |categories|
    ensures forall i | 0 <= i < |categories| && categories[i].id != id :: EditCategories(categories, id, form)[i] == categories[i]
    ensures forall i | 0 <= i < |categories| && categories[i].id == id ::
              EditCategories(categories, id, form)[i] == CategoryFromForm(id, form)
  {
  }

  /**
   * Editing a category and saving the form unchanged writes the category
   * back, except that a missing description is stored as `''`.
   */
  lemma EditRoundTrip(c: Category)
    ensures CategoryFromForm(c.id, AdminPanel.CategoryFormOf(c)) == c.(description := Some(c.description.GetOr("")))
  {
  }
}
