/** The upload widget: which picked or dropped file, if any, is handed on. */
module ImageUploader {
  import opened Base
  import opened Strings

  /** A browser file as the handlers see it: its MIME type and name. */
  datatype File = File(mimeType: string, name: string)

  /** `files?.[0]`: the first file of the list, if there is one (a missing
      list behaves as an empty one). */
  function FirstFile(files: seq<File>): (r: Option<File>)
    ensures r.None? <==> |files| == 0
    ensures r.Some? ==> r.value == files[0]
  {
    if |files| == 0 then None else Some(files[0])
  }

  const ImagePrefix: string := "image/"

  /** `handleFileChange`: the first chosen file, with no type check. */
  function OnFileChange(files: seq<File>): (r: Option<File>)
    ensures r.None? <==> |files| == 0
    ensures r.Some? ==> r.value == files[0]
  {
    FirstFile(files)
  }

  /** `handleDrop`: the first dropped file, only when its type starts with
      `image/`; later files are never looked at. */
  function OnDrop(files: seq<File>): (r: Option<File>)
    ensures r.Some? <==> |files| > 0 && StartsWith(files[0].mimeType, ImagePrefix)
    ensures r.Some? ==> r.value == files[0]
  {
    match FirstFile(files)
    case None => None
    case Some(f) => if StartsWith(f.mimeType, ImagePrefix) then Some(f) else None
  }

  /** Whatever a drop forwards, choosing the same files would have forwarded too. */
  lemma DropIsStricterThanPick(files: seq<File>)
    ensures OnDrop(files).Some? ==> OnDrop(files) == OnFileChange(files)
    ensures OnDrop(files).None? && OnFileChange(files).Some? ==>
      !StartsWith(files[0].mimeType, ImagePrefix)
  {
  }

  /** A non-image first file blocks the drop even if an image follows it. */
  lemma OnlyFirstDropped(first: File, rest: seq<File>)
    requires !StartsWith(first.mimeType, ImagePrefix)
    ensures OnDrop([first] + rest).None?
  {
  }
}
