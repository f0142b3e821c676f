/** scripts/admin-media.ts: the admin page that adds a photo, audio or video
    item. The page's DOM becomes a `Form` record, the storage upload and the
    table insert become outcome parameters, and `Date.now()` and
    `Math.random()` become the `now` and `rand` parameters of the upload
    path. */
module AdminMedia {
  import opened Wrappers
  import opened Text
  import opened Numbers

  datatype MediaKind = Photo | Audio | Video

  /** The storage folders of the `media` bucket. */
  datatype Folder = Photos | AudioFiles | Thumbs

  function KindName(k: MediaKind): string {
    match k
    case Photo => "photo"
    case Audio => "audio"
    case Video => "video"
  }

  function FolderName(f: Folder): string {
    match f
    case Photos => "photos"
    case AudioFiles => "audio"
    case Thumbs => "thumbs"
  }

  /** `isValidMediaType`, returning the kind the text names. */
  function ParseKind(s: string): (r: Option<MediaKind>)
    ensures r.Some? ==> KindName(r.value) == s
    ensures r.None? ==> forall k :: KindName(k) != s
  {
    if s == "photo" then Some(Photo)
    else if s == "audio" then Some(Audio)
    else if s == "video" then Some(Video)
    else None
  }

  predicate IsValidMediaType(s: string) {
    ParseKind(s).Some?
  }

  /** Exactly the three names are media types, and each names its kind. */
  lemma ValidMediaTypes(s: string, k: MediaKind)
    ensures IsValidMediaType(s) <==> s == "photo" || s == "audio" || s == "video"
    ensures ParseKind(KindName(k)) == Some(k)
  {
  }

  /** `folderForType`: photos go to `photos`, audio and video to `audio`. */
  function FolderForKind(k: MediaKind): (f: Folder)
    ensures f != Thumbs
    ensures f == Photos <==> k == Photo
  {
    if k == Photo then Photos else AudioFiles
  }

  /** `getSelectedType`: the select's value, trimmed and lower-cased, when it
      names a media kind. */
  function SelectedKind(value: string): (r: Option<MediaKind>)
    ensures r.Some? ==> KindName(r.value) == ToLower(Trim(value))
    ensures r.None? ==> !IsValidMediaType(ToLower(Trim(value)))
  {
    ParseKind(ToLower(Trim(value)))
  }

  lemma SelectedKindOfName(k: MediaKind)
    ensures SelectedKind(KindName(k)) == Some(k)
  {
    TrimOfTrimmed(KindName(k));
    ToLowerOfLower(KindName(k));
  }

  // ------------------------------------------------------------ upload path

  /** The position of the last "." in `s`. */
  function LastDot(s: string): (r: Option<nat>)
    ensures r.None? <==> '.' !in s
    ensures r.Some? ==> r.value < |s| && s[r.value] == '.' && '.' !in s[r.value + 1..]
  {
    if |s| == 0 then None
    else if s[|s| - 1] == '.' then Some(|s| - 1)
    else
      var r := LastDot(s[..|s| - 1]);
      assert r.None? ==> s == s[..|s| - 1] + [s[|s| - 1]];
      assert r.Some? ==> s[r.value + 1..] == s[..|s| - 1][r.value + 1..] + [s[|s| - 1]];
      r
  }

  /** `name.includes(".") ? name.split(".").pop() : "bin"`: the text after
      the last "." (possibly empty), or "bin" for a name without a dot. */
  function Extension(name: string): (r: string)
    ensures '.' !in name ==> r == "bin"
    ensures '.' in name ==> '.' !in r && EndsWith(name, "." + r)
  {
    match LastDot(name)
    case None => "bin"
    case Some(i) =>
      assert name[i..] == "." + name[i + 1..];
      name[i + 1..]
  }

  /** The text may follow the final "." that `/\.[^/.]+$/` matches. */
  predicate ExtensionTail(t: string) {
    |t| > 0 && '.' !in t && '/' !in t
  }

  /** `name.replace(/\.[^/.]+$/, "")`: drops a final "." and the non-empty
      text after it when that text has no "/"; otherwise keeps the name. */
  function StripExtension(name: string): (r: string)
    ensures r != name ==> |r| < |name| && name == r + "." + name[|r| + 1..] && ExtensionTail(name[|r| + 1..])
    ensures r == name ==>
      forall i :: 0 <= i < |name| && name[i] == '.' ==> !ExtensionTail(name[i + 1..])
  {
    match LastDot(name)
    case None => name
    case Some(i) =>
      if ExtensionTail(name[i + 1..]) then
        assert name == name[..i] + "." + name[i + 1..];
        name[..i]
      else
        assert forall j :: 0 <= j < |name| && name[j] == '.' ==> !ExtensionTail(name[j + 1..]) by {
          forall j | 0 <= j < |name| && name[j] == '.'
            ensures !ExtensionTail(name[j + 1..])
          {
            if j < i {
              assert name[i] == name[j + 1..][i - j - 1];
            }
          }
        }
        name
  }

  /** The characters `[a-zA-Z0-9_-]` a base name keeps. */
  predicate IsBaseChar(c: char) {
    IsAlnum(c) || c == '_' || c == '-'
  }

  /** The base name segment: the name without its extension, scrubbed to
      `[a-zA-Z0-9_-]`, cut to 60 characters, or "file" when that is empty. */
  function BaseSegment(name: string): (r: string)
    ensures 0 < |r| <= 60
    ensures forall i :: 0 <= i < |r| ==> IsBaseChar(r[i])
    ensures r == "file" || StartsWith(Scrub(StripExtension(name), IsBaseChar), r)
    ensures |StripExtension(name)| <= 60 && StripExtension(name) != "" ==>
      r == Scrub(StripExtension(name), IsBaseChar)
    ensures |StripExtension(name)| > 60 ==> r == Scrub(StripExtension(name), IsBaseChar)[..60]
    ensures StripExtension(name) == "" ==> r == "file"
  {
    var safe := Prefix(Scrub(StripExtension(name), IsBaseChar), 60);
    if safe == "" then "file" else safe
  }

  /** `buildUploadPath`: `folder/base-now-rand.ext`, where the base and the
      extension come from the file name and `now`, `rand` stand for
      `Date.now()` and six base-36 digits of `Math.random()`. */
  function BuildUploadPath(folder: Folder, name: string, now: nat, rand: string): (r: string)
    ensures StartsWith(r, FolderName(folder) + "/" + BaseSegment(name) + "-")
    ensures EndsWith(r, "." + ToLower(Extension(name)))
    ensures |FolderName(folder) + "/" + BaseSegment(name) + "-"| + |"." + ToLower(Extension(name))| <= |r|
    ensures r[|FolderName(folder) + "/" + BaseSegment(name) + "-"|..|r| - |"." + ToLower(Extension(name))|]
         == NatToString(now) + "-" + rand
  {
    var head := FolderName(folder) + "/" + BaseSegment(name) + "-";
    var stamp := NatToString(now) + "-" + rand;
    var tail := "." + ToLower(Extension(name));
    ThreePieces(head, stamp, tail);
    head + stamp + tail
  }

  /** A file whose name is already a short safe base and an extension keeps
      both in its upload path: `name.ext` is stored as `folder/name-….ext`. */
  lemma PlainNameParts(base: string, ext: string)
    requires 0 < |base| <= 60 && forall i :: 0 <= i < |base| ==> IsBaseChar(base[i])
    requires ExtensionTail(ext)
    ensures Extension(base + "." + ext) == ext
    ensures BaseSegment(base + "." + ext) == base
  {
    var name := base + "." + ext;
    assert name[|base|] == '.';
    assert name[|base| + 1..] == ext;
    assert Extension(name) == ext;
    assert StripExtension(name) == base;
    assert Scrub(base, IsBaseChar) == base;
  }

  /** A dot-file such as ".bashrc" has no base left after its extension is
      stripped, so it is uploaded as `file`. */
  lemma DotFileBase(ext: string)
    requires ExtensionTail(ext)
    ensures BaseSegment("." + ext) == "file"
    ensures Extension("." + ext) == ext
  {
    var name := "." + ext;
    assert name[1..] == ext;
    assert LastDot(name) == Some(0);
  }

  // ------------------------------------------------------------ the form

  /** A chosen file: its name and its MIME type (`file.type`). */
  datatype FileInfo = FileInfo(name: string, mimeType: string)

  /** The values of the form's controls. */
  datatype Form = Form(
    typeValue: string,
    title: string,
    subtitle: string,
    sortOrder: string,
    published: bool,
    videoUrl: string,
    mainFile: Option<FileInfo>,
    thumbFile: Option<FileInfo>)

  /** What `syncFields` shows: which input groups are visible, whether a
      main file is required, and whether the submit button is disabled. */
  datatype FieldsView = FieldsView(showVideoUrl: bool, showFile: bool, fileRequired: bool, submitDisabled: bool)

  /** The condition under which the submit button is enabled. */
  predicate ReadyToSubmit(form: Form, submitting: bool) {
    && !submitting
    && SelectedKind(form.typeValue).Some?
    && Trim(form.title) != ""
    && (if SelectedKind(form.typeValue) == Some(Video)
        then Trim(form.videoUrl) != "" && form.thumbFile.Some?
        else form.mainFile.Some?)
  }

  /** `syncFields`: shows the URL input for video and the file input for
      the other kinds, empties the URL input when the kind is not video, and
      enables the submit button exactly when the form is ready. */
  function SyncFields(form: Form, submitting: bool): (r: (Form, FieldsView))
    ensures r.1.showVideoUrl <==> SelectedKind(form.typeValue) == Some(Video)
    ensures r.1.showFile <==> !r.1.showVideoUrl
    ensures r.1.fileRequired <==> SelectedKind(form.typeValue) in {Some(Photo), Some(Audio)}
    ensures r.1.submitDisabled <==> !ReadyToSubmit(form, submitting)
    ensures r.0 == if r.1.showVideoUrl then form else form.(videoUrl := "")
  {
    var kind := SelectedKind(form.typeValue);
    var video := kind == Some(Video);
    var hasBase := kind.Some? && |Trim(form.title)| > 0;
    var hasTypeFields := if video then |Trim(form.videoUrl)| > 0 && form.thumbFile.Some? else form.mainFile.Some?;
    var shown := if video then form else form.(videoUrl := "");
    (shown, FieldsView(video, !video, kind.Some? && !video, !hasBase || !hasTypeFields || submitting))
  }

  /** Emptying the URL input never changes the enable decision, so a second
      `syncFields` shows the same view. */
  lemma SyncFieldsIdempotent(form: Form, submitting: bool)
    ensures SyncFields(SyncFields(form, submitting).0, submitting) == SyncFields(form, submitting)
  {
  }

  /** Whether `file.type` starts with `prefix`. */
  predicate HasMime(f: FileInfo, prefix: string) {
    StartsWith(f.mimeType, prefix)
  }

  /** The outcome of the submit handler's checks: stop silently, refuse with
      a message, or go on to upload and save. */
  datatype Check = Incomplete | Refused(message: string) | Accepted(kind: MediaKind)

  /** Everything the submit handler demands of the form before it uploads.
      `isUrl` stands for `new URL(...)` succeeding; `signedIn` for a session. */
  predicate Acceptable(form: Form, kind: MediaKind, isUrl: string -> bool, signedIn: bool) {
    && SelectedKind(form.typeValue) == Some(kind)
    && Trim(form.title) != ""
    && (kind == Video ==>
          Trim(form.videoUrl) != "" && form.thumbFile.Some? && isUrl(Trim(form.videoUrl)))
    && (kind == Photo ==> form.mainFile.Some? && HasMime(form.mainFile.value, "image/"))
    && (kind == Audio ==> form.mainFile.Some? && HasMime(form.mainFile.value, "audio/"))
    && (form.thumbFile.Some? ==> HasMime(form.thumbFile.value, "image/"))
    && signedIn
  }

  /** The checks of the submit handler, in the order it makes them. */
  function ValidateSubmit(form: Form, isUrl: string -> bool, signedIn: bool): (r: Check)
    ensures r.Accepted? ==> Acceptable(form, r.kind, isUrl, signedIn)
    ensures r == Incomplete <==> SelectedKind(form.typeValue).None? || Trim(form.title) == ""
    ensures r.Refused? ==> r.message != ""
  {
    Checks(form, SelectedKind(form.typeValue), Trim(form.title), Trim(form.videoUrl), isUrl, signedIn)
  }

  /** The checks once the selected kind and the trimmed title and URL are read. */
  function Checks(form: Form, kind: Option<MediaKind>, title: string, url: string,
                  isUrl: string -> bool, signedIn: bool): (r: Check)
    ensures r.Accepted? ==> kind == Some(r.kind) && title != ""
    ensures r.Accepted? && r.kind == Video ==> url != "" && form.thumbFile.Some? && isUrl(url)
    ensures r.Accepted? && r.kind == Photo ==> form.mainFile.Some? && HasMime(form.mainFile.value, "image/")
    ensures r.Accepted? && r.kind == Audio ==> form.mainFile.Some? && HasMime(form.mainFile.value, "audio/")
    ensures r.Accepted? ==> (form.thumbFile.Some? ==> HasMime(form.thumbFile.value, "image/")) && signedIn
    ensures r == Incomplete <==> kind.None? || title == ""
    ensures r.Refused? ==> r.message != ""
  {
    if kind.None? || title == "" then Incomplete
    else if kind.value == Video && url == "" then Refused("Video URL is required for video items.")
    else if kind.value == Video && form.thumbFile.None? then Refused("Thumbnail is required for video items.")
    else if kind.value == Video && !isUrl(url) then Refused("Please enter a valid video URL.")
    else if kind.value != Video && form.mainFile.None? then
      Refused("Main file is required for photo and audio items.")
    else if kind.value != Video
         && !((kind.value == Photo && HasMime(form.mainFile.value, "image/"))
              || (kind.value == Audio && HasMime(form.mainFile.value, "audio/"))) then
      Refused("Invalid file type for selected media category.")
    else if form.thumbFile.Some? && !HasMime(form.thumbFile.value, "image/") then
      Refused("Thumbnail must be an image file.")
    else if !signedIn then Refused("Your session expired. Please log in again.")
    else Accepted(kind.value)
  }

  /** Every acceptable form passes all the checks. */
  lemma AcceptableIsAccepted(form: Form, kind: MediaKind, isUrl: string -> bool, signedIn: bool)
    requires Acceptable(form, kind, isUrl, signedIn)
    ensures ValidateSubmit(form, isUrl, signedIn) == Accepted(kind)
  {
  }

  /** The submit handler accepts only forms the enable rule would let an
      idle page submit. */
  lemma AcceptedWasEnabled(form: Form, isUrl: string -> bool, signedIn: bool)
    requires ValidateSubmit(form, isUrl, signedIn).Accepted?
    ensures ReadyToSubmit(form, false)
  {
  }

  /** A `media_items` row. */
  datatype MediaItem = MediaItem(
    kind: MediaKind,
    title: string,
    subtitle: Option<string>,
    externalUrl: Option<string>,
    filePath: Option<string>,
    thumbPath: Option<string>,
    sortOrder: int,
    isPublished: bool)

  /** The payload built for the insert: the trimmed title, the trimmed
      subtitle or null, the URL only for video, and `parseInt` of the sort
      order or 0 when that is NaN. */
  function ItemFor(form: Form, kind: MediaKind, filePath: Option<string>, thumbPath: Option<string>): (r: MediaItem)
    ensures r.kind == kind && r.title == Trim(form.title) && r.isPublished == form.published
    ensures r.subtitle.None? <==> Trim(form.subtitle) == ""
    ensures r.subtitle.Some? ==> r.subtitle.value == Trim(form.subtitle)
    ensures r.externalUrl.Some? <==> kind == Video
    ensures r.externalUrl.Some? ==> r.externalUrl.value == Trim(form.videoUrl)
    ensures ParseInt(form.sortOrder).None? ==> r.sortOrder == 0
    ensures ParseInt(form.sortOrder).Some? ==> r.sortOrder == ParseInt(form.sortOrder).value
    ensures r.filePath == filePath && r.thumbPath == thumbPath
  {
    var subtitle := Trim(form.subtitle);
    MediaItem(
      kind,
      Trim(form.title),
      if subtitle == "" then None else Some(subtitle),
      if kind == Video then Some(Trim(form.videoUrl)) else None,
      filePath,
      thumbPath,
      ParseInt(form.sortOrder).GetOr(0),
      form.published)
  }

  /** A sort order typed as a (possibly signed) integer is stored as that
      integer. */
  lemma SortOrderOfNumeral(form: Form, kind: MediaKind, i: int)
    requires form.sortOrder == IntToString(i)
    ensures ItemFor(form, kind, None, None).sortOrder == i
  {
    ParseIntOfIntToString(i);
  }

  /** The result of one storage upload; an empty message stands for an error
      without one. */
  datatype Upload = Uploaded | UploadFailed(message: string)

  /** The outcome of saving: the message shown, whether it is an error, the
      paths uploaded, the row inserted (if any) and whether the form was
      reset to its defaults (sort order "0", published). */
  datatype Saved = Saved(message: string, isError: bool, uploads: seq<string>, item: Option<MediaItem>, reset: bool)

  /** Time and randomness drawn for each of the two uploads. */
  datatype Stamps = Stamps(mainNow: nat, mainRand: string, thumbNow: nat, thumbRand: string)

  function UploadMessage(message: string): (r: string)
    ensures r != ""
  {
    if message != "" then message else "Failed to upload file."
  }

  /** Every upload path lies in its folder. */
  lemma UploadPathInFolder(folder: Folder, name: string, now: nat, rand: string)
    ensures StartsWith(BuildUploadPath(folder, name, now, rand), FolderName(folder) + "/")
  {
    StartsWithPrefix(BuildUploadPath(folder, name, now, rand), FolderName(folder) + "/", BaseSegment(name) + "-");
  }

  /** The storage paths of the main file (photo and audio only) and of the
      thumbnail (when one is chosen). */
  function UploadPaths(form: Form, kind: MediaKind, stamps: Stamps): (r: (Option<string>, Option<string>))
    ensures r.0.Some? <==> kind != Video && form.mainFile.Some?
    ensures r.0.Some? ==> StartsWith(r.0.value, FolderName(FolderForKind(kind)) + "/")
    ensures r.1.Some? <==> form.thumbFile.Some?
    ensures r.1.Some? ==> StartsWith(r.1.value, FolderName(Thumbs) + "/")
  {
    (MainUploadPath(form, kind, stamps), ThumbUploadPath(form, stamps))
  }

  function MainUploadPath(form: Form, kind: MediaKind, stamps: Stamps): (r: Option<string>)
    ensures r.Some? <==> kind != Video && form.mainFile.Some?
    ensures r.Some? ==> StartsWith(r.value, FolderName(FolderForKind(kind)) + "/")
  {
    if kind != Video && form.mainFile.Some? then
      UploadPathInFolder(FolderForKind(kind), form.mainFile.value.name, stamps.mainNow, stamps.mainRand);
      Some(BuildUploadPath(FolderForKind(kind), form.mainFile.value.name, stamps.mainNow, stamps.mainRand))
    else None
  }

  function ThumbUploadPath(form: Form, stamps: Stamps): (r: Option<string>)
    ensures r.Some? <==> form.thumbFile.Some?
    ensures r.Some? ==> StartsWith(r.value, FolderName(Thumbs) + "/")
  {
    if form.thumbFile.Some? then
      UploadPathInFolder(Thumbs, form.thumbFile.value.name, stamps.thumbNow, stamps.thumbRand);
      Some(BuildUploadPath(Thumbs, form.thumbFile.value.name, stamps.thumbNow, stamps.thumbRand))
    else None
  }

  /** The save phase of the submit handler, after `ValidateSubmit` accepted:
      upload the main file to `mainPath` (when there is one), then the
      thumbnail to `thumbPath`, then insert the row; the first failure ends
      the save with its message. */
  function Save(form: Form, kind: MediaKind, mainPath: Option<string>, thumbPath: Option<string>,
                mainUpload: Upload, thumbUpload: Upload, insertFails: bool): (r: Saved)
    ensures r.item.Some? <==> !r.isError
    ensures r.item.Some? <==>
      !insertFails && (mainPath.Some? ==> mainUpload.Uploaded?) && (thumbPath.Some? ==> thumbUpload.Uploaded?)
    ensures r.item.Some? ==>
      && r.reset && r.message == "Media item saved successfully."
      && r.item.value == ItemFor(form, kind, mainPath, thumbPath)
      && r.uploads == (if mainPath.Some? then [mainPath.value] else []) + (if thumbPath.Some? then [thumbPath.value] else [])
    ensures r.isError ==> !r.reset && r.message != ""
    ensures mainPath.Some? && mainUpload.UploadFailed? ==> r.uploads == [] && r.message == UploadMessage(mainUpload.message)
    ensures forall i :: 0 <= i < |r.uploads| ==>
      (mainPath.Some? && r.uploads[i] == mainPath.value) || (thumbPath.Some? && r.uploads[i] == thumbPath.value)
  {
    if mainPath.Some? && mainUpload.UploadFailed? then
      Saved(UploadMessage(mainUpload.message), true, [], None, false)
    else
      var afterMain := if mainPath.Some? then [mainPath.value] else [];
      if thumbPath.Some? && thumbUpload.UploadFailed? then
        Saved(UploadMessage(thumbUpload.message), true, afterMain, None, false)
      else
        var uploads := afterMain + if thumbPath.Some? then [thumbPath.value] else [];
        if insertFails then Saved("Could not save media item.", true, uploads, None, false)
        else Saved("Media item saved successfully.", false, uploads,
                   Some(ItemFor(form, kind, mainPath, thumbPath)), true)
  }

  /** What one press of the submit button leads to. */
  datatype Submission = NotSubmitted(check: Check) | Submitted(saved: Saved)

  /** The submit handler: the checks, then the save with the paths built
      from the chosen files. */
  function Submit(form: Form, isUrl: string -> bool, signedIn: bool, stamps: Stamps,
                  mainUpload: Upload, thumbUpload: Upload, insertFails: bool): (r: Submission)
    ensures r.Submitted? <==> ValidateSubmit(form, isUrl, signedIn).Accepted?
    ensures r.NotSubmitted? ==> !r.check.Accepted?
    ensures r.Submitted? && r.saved.item.Some? ==>
      && Acceptable(form, r.saved.item.value.kind, isUrl, signedIn)
      && (r.saved.item.value.filePath.Some? <==> r.saved.item.value.kind != Video)
      && (r.saved.item.value.thumbPath.Some? <==> form.thumbFile.Some?)
      && (r.saved.item.value.externalUrl.Some? <==> r.saved.item.value.kind == Video)
  {
    match ValidateSubmit(form, isUrl, signedIn)
    case Accepted(kind) =>
      var (mainPath, thumbPath) := UploadPaths(form, kind, stamps);
      Submitted(Save(form, kind, mainPath, thumbPath, mainUpload, thumbUpload, insertFails))
    case check => NotSubmitted(check)
  }
}
