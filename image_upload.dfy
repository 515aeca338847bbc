/**
 * The featured-image picker (src/components/ImageUpload.tsx): a drop zone
 * with a drag highlight, a type and size check on the chosen file, and a
 * data-URL read whose result is handed to the parent. The parent's
 * `onImageSelect` calls are recorded in `selected`; `alert` calls in `alerts`.
 */
module ImageUpload {
  import opened Wrappers

  /** What the model needs of a `File`: its MIME type and its size in bytes. */
  datatype File = File(mime: string, size: nat)

  /** The 5 MB limit, in bytes. */
  const MaxBytes: nat := 5 * 1024 * 1024

  const NotAnImage := "Please select an image file"
  const TooLarge := "File size must be less than 5MB"
  const UploadFailed := "Failed to upload image"

  predicate IsImage(file: File) {
    "image/" <= file.mime
  }

  /** The checks `handleFile` makes before reading, in order: the alert it shows, or `None` to go ahead. */
  function Rejection(file: File): Option<string> {
    if !IsImage(file) then Some(NotAnImage)
    else if file.size > MaxBytes then Some(TooLarge)
    else None
  }

  /** The drag events the drop zone listens to. */
  datatype DragEvent = DragEnter | DragOver | DragLeave | Other

  class Uploader {
    var dragActive: bool
    var uploading: bool
    var alerts: seq<string>
    var selected: seq<string>

    constructor ()
      ensures !dragActive && !uploading && alerts == [] && selected == []
    {
      dragActive := false;
      uploading := false;
      alerts := [];
      selected := [];
    }

    /** `handleDrag`: entering or hovering lights the zone, leaving darkens it. */
    method HandleDrag(e: DragEvent)
      modifies this
      ensures dragActive == if e == DragEnter || e == DragOver then true else if e == DragLeave then false else old(dragActive)
      ensures uploading == old(uploading) && alerts == old(alerts) && selected == old(selected)
    {
      if e == DragEnter || e == DragOver {
        dragActive := true;
      } else if e == DragLeave {
        dragActive := false;
      }
    }

    /**
     * `handleFile`: a rejected file only raises its alert. An accepted one
     * starts the upload; when starting the reader throws, the failure alert
     * is raised and the upload ends, otherwise it stays in progress until
     * `OnLoad`.
     */
    method HandleFile(file: File, readerThrows: bool)
      modifies this
      ensures Rejection(file).Some? ==>
                alerts == old(alerts) + [Rejection(file).value] && uploading == old(uploading)
      ensures Rejection(file).None? && readerThrows ==> alerts == old(alerts) + [UploadFailed] && !uploading
      ensures Rejection(file).None? && !readerThrows ==> alerts == old(alerts) && uploading
      ensures dragActive == old(dragActive) && selected == old(selected)
    {
      var rejection := Rejection(file);
      if rejection.Some? {
        alerts := alerts + [rejection.value];
        return;
      }
      uploading := true;
      if readerThrows {
        alerts := alerts + [UploadFailed];
        uploading := false;
      }
    }

    /** The reader's `onload`: the data URL goes to the parent and the upload ends. */
    method OnLoad(dataUrl: string)
      modifies this
      ensures selected == old(selected) + [dataUrl] && !uploading
      ensures dragActive == old(dragActive) && alerts == old(alerts)
    {
      selected := selected + [dataUrl];
      uploading := false;
    }

    /** `handleDrop`: the highlight goes off and only the first dropped file is handled. */
    method HandleDrop(files: seq<File>, readerThrows: bool)
      modifies this
      ensures !dragActive && selected == old(selected)
      ensures files == [] ==> alerts == old(alerts) && uploading == old(uploading)
      ensures files != [] && Rejection(files[0]).Some? ==>
                alerts == old(alerts) + [Rejection(files[0]).value] && uploading == old(uploading)
      ensures files != [] && Rejection(files[0]).None? ==>
                uploading == !readerThrows && alerts == old(alerts) + (if readerThrows then [UploadFailed] else [])
    {
      dragActive := false;
      if files != [] {
        HandleFile(files[0], readerThrows);
      }
    }

    /** `handleChange` on the file input, which is disabled while an upload runs. */
    method HandleChange(files: seq<File>, readerThrows: bool)
      modifies this
      ensures old(uploading) || files == [] ==> alerts == old(alerts) && uploading == old(uploading)
      ensures !old(uploading) && files != [] && Rejection(files[0]).Some? ==>
                alerts == old(alerts) + [Rejection(files[0]).value] && !uploading
      ensures !old(uploading) && files != [] && Rejection(files[0]).None? ==>
                uploading == !readerThrows && alerts == old(alerts) + (if readerThrows then [UploadFailed] else [])
      ensures dragActive == old(dragActive) && selected == old(selected)
    {
      if uploading || files == [] {
        return;
      }
      HandleFile(files[0], readerThrows);
    }

    /** The remove button hands the parent an empty image. */
    method RemoveImage()
      modifies this
      ensures selected == old(selected) + [""]
      ensures dragActive == old(dragActive) && uploading == old(uploading) && alerts == old(alerts)
    {
      selected := selected + [""];
    }

    /** Typing in the URL field hands every value straight to the parent. */
    method TypeUrl(url: string)
      modifies this
      ensures selected == old(selected) + [url]
      ensures dragActive == old(dragActive) && uploading == old(uploading) && alerts == old(alerts)
    {
      selected := selected + [url];
    }
  }

  // ---------------------------------------------------------------------
  // Properties

  /**
   * A file goes ahead exactly when its type starts with `image/` and it is
   * at most 5 MB; a file failing both checks gets the type alert.
   */
  lemma RejectionSpec(file: File)
    ensures Rejection(file).None? <==> IsImage(file) && file.size <= MaxBytes
    ensures Rejection(file) == Some(NotAnImage) <==> !IsImage(file)
    ensures Rejection(file) == Some(TooLarge) <==> IsImage(file) && file.size > MaxBytes
  {
  }

  /** The limit is inclusive: exactly 5 MiB is accepted, one byte more is refused. */
  lemma SizeBoundary(mime: string)
    requires "image/" <= mime
    ensures Rejection(File(mime, 5242880)).None?
    ensures Rejection(File(mime, 5242881)) == Some(TooLarge)
  {
  }

  /** Only MIME types with the `image/` prefix pass: a missing or partial prefix is refused. */
  lemma TypeBoundary(size: nat)
    ensures Rejection(File("image/png", size)).None? <==> size <= MaxBytes
    ensures Rejection(File("application/pdf", size)) == Some(NotAnImage)
    ensures Rejection(File("image", size)) == Some(NotAnImage)
  {
    assert "image/" <= "image/png" by {
      assert "image/png"[..6] == "image/";
    }
    assert !("image/" <= "application/pdf") by {
      assert "application/pdf"[0] != 'i';
    }
  }
}
