/**
 * The post editor (src/components/EnhancedBlogEditor.tsx): the title field
 * that regenerates the slug unless a saved post is being edited, the slug
 * field's sanitiser, and the image list with its add, remove and
 * reposition handlers. Title, slug and images are the parent's state,
 * reached through callbacks; here they are fields the handlers set.
 */
module Editor {
  import opened Text
  import Lists
  import Slugs

  datatype Position = Top | Middle | Bottom | Inline | Cursor

  datatype Image = Image(id: string, url: string, alt: string, position: Position)

  const DefaultAlt: string := "Blog image"

  /** `getImagesByPosition`. */
  function ImagesAt(images: seq<Image>, position: Position): seq<Image> {
    Lists.Filter((img: Image) => img.position == position, images)
  }

  /** `removeImage`'s new list. */
  function WithoutImage(images: seq<Image>, id: string): seq<Image> {
    Lists.Filter((img: Image) => img.id != id, images)
  }

  /** `updateImagePosition`'s new list. */
  function Repositioned(images: seq<Image>, id: string, position: Position): seq<Image> {
    Lists.MapWhere((img: Image) => img.id == id, (img: Image) => img.(position := position), images)
  }

  class Editor {
    const isEditing: bool
    var title: string
    var slug: string
    var images: seq<Image>
    var newImageUrl: string
    var newImageAlt: string
    var newImagePosition: Position

    constructor (isEditing: bool, title: string, slug: string, images: seq<Image>)
      ensures this.isEditing == isEditing && this.title == title && this.slug == slug && this.images == images
      ensures newImageUrl == "" && newImageAlt == "" && newImagePosition == Top
    {
      this.isEditing := isEditing;
      this.title := title;
      this.slug := slug;
      this.images := images;
      newImageUrl := "";
      newImageAlt := "";
      newImagePosition := Top;
    }

    /** `handleTitleChange`. */
    method HandleTitleChange(t: string)
      modifies this
      ensures title == t
      ensures slug == if isEditing then old(slug) else Slugs.EditorSlug(t)
      ensures images == old(images)
    {
      title := t;
      if !isEditing {
        slug := Slugs.EditorSlug(t);
      }
    }

    /** The slug field's change handler. */
    method TypeSlug(v: string)
      modifies this
      ensures slug == Slugs.Sanitise(v)
      ensures title == old(title) && images == old(images)
    {
      slug := Slugs.Sanitise(v);
    }

    /**
     * `addImage`: a blank URL does nothing; otherwise one image goes at the
     * end, named by the clock's milliseconds, and the form is reset.
     */
    method AddImage(nowMs: nat)
      modifies this
      ensures IsBlank(old(newImageUrl)) ==>
                images == old(images) && newImageUrl == old(newImageUrl) && newImageAlt == old(newImageAlt) &&
                newImagePosition == old(newImagePosition)
      ensures !IsBlank(old(newImageUrl)) ==>
                images == old(images) + [Image(Decimal(nowMs), old(newImageUrl),
                                               if old(newImageAlt) == "" then DefaultAlt else old(newImageAlt),
                                               old(newImagePosition))] &&
                newImageUrl == "" && newImageAlt == "" && newImagePosition == Top
      ensures title == old(title) && slug == old(slug)
    {
      if IsBlank(newImageUrl) {
        return;
      }
      var alt := if newImageAlt == "" then DefaultAlt else newImageAlt;
      images := images + [Image(Decimal(nowMs), newImageUrl, alt, newImagePosition)];
      newImageUrl := "";
      newImageAlt := "";
      newImagePosition := Top;
    }

    method RemoveImage(id: string)
      modifies this
      ensures images == WithoutImage(old(images), id)
      ensures title == old(title) && slug == old(slug) && newImageUrl == old(newImageUrl)
    {
      images := WithoutImage(images, id);
    }

    method UpdateImagePosition(id: string, position: Position)
      modifies this
      ensures images == Repositioned(old(images), id, position)
      ensures title == old(title) && slug == old(slug) && newImageUrl == old(newImageUrl)
    {
      images := Repositioned(images, id, position);
    }
  }

  // ---------------------------------------------------------------------
  // Properties

  /** The images at a position are, in order, exactly the images placed there. */
  lemma ImagesAtSpec(images: seq<Image>, position: Position)
    ensures Lists.IsSublist(ImagesAt(images, position), images)
    ensures forall img | img in ImagesAt(images, position) :: img in images && img.position == position
    ensures forall img | img in images && img.position == position :: img in ImagesAt(images, position)
  {
    Lists.FilterSpec((img: Image) => img.position == position, images);
  }

  /** Removing drops every image with that id and keeps the others in order. */
  lemma WithoutImageSpec(images: seq<Image>, id: string)
    ensures Lists.IsSublist(WithoutImage(images, id), images)
    ensures forall img | img in WithoutImage(images, id) :: img.id != id
    ensures forall img | img in images && img.id != id :: img in WithoutImage(images, id)
  {
    Lists.FilterSpec((img: Image) => img.id != id, images);
  }

  /** Adding an image with a new id and removing it again restores the list. */
  lemma AddThenRemove(images: seq<Image>, img: Image)
    requires forall i | 0 <= i < |images| :: images[i].id != img.id
    ensures WithoutImage(images + [img], img.id) == images
  {
    Lists.FilterConcat((x: Image) => x.id != img.id, images, [img]);
    Lists.FilterAll((x: Image) => x.id != img.id, images);
    Lists.FilterNone((x: Image) => x.id != img.id, [img]);
  }

  /**
   * Repositioning keeps the length, the order and every image's id, URL and
   * alt text, and moves exactly the images with that id.
   */
  lemma RepositionedSpec(images: seq<Image>, id: string, position: Position)
    ensures |Repositioned(images, id, position)| == |images|
    ensures forall i | 0 <= i < |images| ::
              var r := Repositioned(images, id, position)[i];
              r.id == images[i].id && r.url == images[i].url && r.alt == images[i].alt &&
              r.position == (if images[i].id == id then position else images[i].position)
    ensures Repositioned(Repositioned(images, id, position), id, position) == Repositioned(images, id, position)
  {
    Lists.MapWhereTwice((img: Image) => img.id == id, (img: Image) => img.(position := position), images);
  }
}
