// backend/services/avatar_service.go: the avatar library in the app's
// avatar directory, its file-naming scheme and its metadata.

module Avatars {
  import opened Wrappers
  import opened Bytes
  import opened Strings
  import opened FilePaths

  datatype AvatarError =
    | UserIdRequired       // "userID is required"
    | NoContext            // "context not set for AvatarService"
    | DialogFailed         // the error of the file dialog
    | ReadSelectionFailed  // "failed to read selected file"
    | ReadSourceFailed     // "failed to read source file"
    | SourceNotFound       // "source avatar file not found"
    | ThumbnailFailed      // "failed to generate manual thumbnail"
    | AvatarDirUnreadable  // "failed to read avatar directory"
    | PathRequired         // "path is required"
    | ReadFailed           // "failed to read file"
    | FilenameRequired     // "filename is required"
    | AvatarNotFound       // "avatar file not found"
    | StatFailed           // "failed to stat image file"
    | DecodeFailed         // "failed to decode image config"

  // ----- Thumbnail names -----

  const ThumbSuffix := "_thumb"

  /** getThumbnailFilename: `_thumb` goes between the name and its extension. */
  function ThumbnailName(filename: string): string {
    Stem(filename) + ThumbSuffix + Ext(filename)
  }

  /** isThumbnailFile: the name without its extension ends in `_thumb`. */
  predicate IsThumbnail(filename: string) {
    HasSuffix(Stem(filename), ThumbSuffix)
  }

  /** A thumbnail name keeps the extension and extends the stem by `_thumb`. */
  lemma ThumbnailNameParts(filename: string)
    ensures Ext(ThumbnailName(filename)) == Ext(filename)
    ensures Stem(ThumbnailName(filename)) == Stem(filename) + ThumbSuffix
  {
    var e := Ext(filename);
    var x := Stem(filename) + ThumbSuffix;
    if e == [] {
      assert Stem(filename) == filename;
      assert ThumbnailName(filename) == filename + ThumbSuffix;
      ExtOfPlainSuffix(filename, ThumbSuffix);
    } else {
      StemOfExtended(x, e);
    }
  }

  /** The recogniser accepts every name the naming scheme produces. */
  lemma ThumbnailNameIsThumbnail(filename: string)
    ensures IsThumbnail(ThumbnailName(filename))
  {
    ThumbnailNameParts(filename);
  }

  /** The recogniser accepts only names the scheme produces: every thumbnail is some file's thumbnail. */
  lemma ThumbnailsAreNamed(f: string)
    requires IsThumbnail(f)
    ensures exists g :: ThumbnailName(g) == f
  {
    var s, e := Stem(f), Ext(f);
    var x := s[..|s| - |ThumbSuffix|];
    assert s == x + ThumbSuffix;
    if e != [] {
      StemOfExtended(x, e);
      assert ThumbnailName(x + e) == f;
    } else {
      assert s == f;
      assert FilePaths.Plain(ThumbSuffix);
      ExtOfPlainSuffix(x, ThumbSuffix);
      assert Ext(x) == [];
      assert Stem(x) == x;
      assert ThumbnailName(x) == f;
    }
  }

  /** Distinct avatars get distinct thumbnails, so no two share one. */
  lemma ThumbnailNameInjective(f: string, g: string)
    requires ThumbnailName(f) == ThumbnailName(g)
    ensures f == g
  {
    ThumbnailNameParts(f);
    ThumbnailNameParts(g);
    assert Stem(f) + ThumbSuffix == Stem(g) + ThumbSuffix;
    assert Stem(f) == (Stem(f) + ThumbSuffix)[..|Stem(f)|];
    assert Stem(g) == (Stem(g) + ThumbSuffix)[..|Stem(g)|];
  }

  /** The example of the source's comment. */
  lemma ThumbnailNameExample()
    ensures ThumbnailName("abc123.jpg") == "abc123_thumb.jpg"
  {
    StemOfExtended("abc123", ".jpg");
    assert "abc123" + ".jpg" == "abc123.jpg";
  }

  // ----- The gallery -----

  /** One entry of os.ReadDir on the avatar directory. */
  datatype Entry = Entry(name: string, isDir: bool)

  /** The avatar directory: absent, unreadable, or its entries in directory order. */
  datatype AvatarDir = NoAvatarDir | UnreadableDir | Listed(entries: seq<Entry>)

  predicate InGallery(e: Entry) {
    !e.isDir && !IsThumbnail(e.name)
  }

  /** The names GetAvailableAvatars keeps, in directory order. */
  function Gallery(entries: seq<Entry>): (names: seq<string>)
    ensures |names| <= |entries|
    ensures forall k :: 0 <= k < |names| ==> !IsThumbnail(names[k])
  {
    if entries == [] then []
    else
      var rest := Gallery(entries[..|entries| - 1]);
      var e := entries[|entries| - 1];
      if InGallery(e) then rest + [e.name] else rest
  }

  /** A name is in the gallery exactly when a file entry that is not a thumbnail carries it. */
  lemma {:induction false} GalleryMembers(entries: seq<Entry>, name: string)
    ensures name in Gallery(entries) <==> exists k :: 0 <= k < |entries| && InGallery(entries[k]) && entries[k].name == name
    decreases |entries|
  {
    if entries != [] {
      var init := entries[..|entries| - 1];
      GalleryMembers(init, name);
      assert forall k :: 0 <= k < |init| ==> init[k] == entries[k];
    }
  }

  /** The gallery keeps directory order: kept entries come out as they came in. */
  lemma {:induction false} GalleryKeepsOrder(entries: seq<Entry>, extra: seq<Entry>)
    ensures Gallery(entries + extra) == Gallery(entries) + Gallery(extra)
    decreases |extra|
  {
    if extra == [] {
      assert entries + extra == entries;
    } else {
      var init, e := extra[..|extra| - 1], extra[|extra| - 1];
      var all := entries + extra;
      assert all[..|all| - 1] == entries + init;
      assert all[|all| - 1] == e;
      var tail := if InGallery(e) then [e.name] else [];
      assert Gallery(all) == Gallery(entries + init) + tail;
      assert Gallery(extra) == Gallery(init) + tail;
      GalleryKeepsOrder(entries, init);
      assert Gallery(entries) + Gallery(init) + tail == Gallery(entries) + (Gallery(init) + tail);
    }
  }

  /** One more entry of the listing adds its name when the gallery keeps it. */
  lemma GalleryStep(entries: seq<Entry>, i: nat)
    requires i < |entries|
    ensures Gallery(entries[..i + 1]) ==
      Gallery(entries[..i]) + (if InGallery(entries[i]) then [entries[i].name] else [])
  {
    assert entries[..i + 1][..i] == entries[..i];
  }

  /** GetAvailableAvatars: the non-directory, non-thumbnail names; none when the directory is missing. */
  method GetAvailableAvatars(dir: AvatarDir) returns (r: Result<seq<string>, AvatarError>)
    ensures dir == NoAvatarDir ==> r == Ok([])
    ensures dir == UnreadableDir ==> r == Err(AvatarDirUnreadable)
    ensures dir.Listed? ==> r == Ok(Gallery(dir.entries))
  {
    match dir
    case NoAvatarDir => return Ok([]);
    case UnreadableDir => return Err(AvatarDirUnreadable);
    case Listed(entries) =>
      var avatars := [];
      for i := 0 to |entries|
        invariant avatars == Gallery(entries[..i])
      {
        GalleryStep(entries, i);
        var entry := entries[i];
        if !entry.isDir && !IsThumbnail(entry.name) {
          avatars := avatars + [entry.name];
        }
      }
      assert entries[..|entries|] == entries;
      return Ok(avatars);
  }

  // ----- Content-addressed saving -----

  /** The stored name of an image: the hex MD5 of its bytes (`digest`) and the source's extension. */
  function StoredName(digest: Bytes -> string, data: Bytes, source: string): string {
    digest(data) + Ext(source)
  }

  /** The library after a save that writes only when the name is new, with the thumbnail if one was made. */
  function SavedIfAbsent(files: map<string, Bytes>, name: string, data: Bytes, thumbnail: Option<Bytes>): map<string, Bytes> {
    if name in files then files
    else if thumbnail.Some? then files[name := data][ThumbnailName(name) := thumbnail.value]
    else files[name := data]
  }

  /**
   * Deduplication: a name already in the library is never rewritten, a new
   * one holds the image, and saving again is a no-op.
   */
  lemma SaveIfAbsentDeduplicates(files: map<string, Bytes>, name: string, data: Bytes, thumbnail: Option<Bytes>,
                                 data': Bytes, thumbnail': Option<Bytes>)
    ensures var saved := SavedIfAbsent(files, name, data, thumbnail);
      && name in saved
      && (name in files ==> saved == files)
      && (name !in files ==> saved[name] == data)
      && SavedIfAbsent(saved, name, data', thumbnail') == saved
      && (forall k :: k in files && k != ThumbnailName(name) ==> k in saved && saved[k] == files[k])
  {
    if name !in files && thumbnail.Some? {
      assert ThumbnailName(name) != name by {
        assert |ThumbnailName(name)| == |name| + |ThumbSuffix| by {
          assert Stem(name) + Ext(name) == name;
        }
      }
    }
  }

  /** Identical content under the same extension is stored under one name. */
  lemma SameImageSameName(digest: Bytes -> string, data: Bytes, p: string, q: string)
    requires Ext(p) == Ext(q)
    ensures StoredName(digest, data, p) == StoredName(digest, data, q)
  {
  }

  /** The result of the native file dialog: the chosen path ("" when cancelled) and whether it failed. */
  datatype Dialog = Dialog(selection: string, failed: bool)

  /**
   * The avatar directory as a map from file name to contents. Names are
   * taken relative to the directory; filepath.Join's cleaning is not modelled.
   */
  class AvatarLibrary {
    var files: map<string, Bytes>

    constructor (initial: map<string, Bytes>)
      ensures files == initial
    {
      files := initial;
    }

    /**
     * SelectAndSaveAvatar: check the arguments, take the dialog's choice and
     * store it under its content name unless that name exists; a failed
     * thumbnail is not an error. `read` is the selected file's contents,
     * `thumbnail` what generateThumbnail writes, None when it fails.
     */
    method SelectAndSaveAvatar(userId: string, hasContext: bool, dialog: Dialog, read: Option<Bytes>,
                               digest: Bytes -> string, thumbnail: Option<Bytes>)
      returns (r: Result<string, AvatarError>)
      modifies this
      ensures userId == "" ==> r == Err(UserIdRequired) && files == old(files)
      ensures userId != "" && !hasContext ==> r == Err(NoContext) && files == old(files)
      ensures userId != "" && hasContext && dialog.selection == "" ==> r == Ok("") && files == old(files)
      ensures userId != "" && hasContext && dialog.selection != "" && dialog.failed ==>
        r == Err(DialogFailed) && files == old(files)
      ensures userId != "" && hasContext && dialog.selection != "" && !dialog.failed && read.None? ==>
        r == Err(ReadSelectionFailed) && files == old(files)
      ensures userId != "" && hasContext && dialog.selection != "" && !dialog.failed && read.Some? ==>
        var name := StoredName(digest, read.value, dialog.selection);
        r == Ok(name) && files == SavedIfAbsent(old(files), name, read.value, thumbnail)
    {
      if userId == "" {
        return Err(UserIdRequired);
      }
      if !hasContext {
        return Err(NoContext);
      }
      if dialog.selection == "" {
        return Ok("");
      }
      if dialog.failed {
        return Err(DialogFailed);
      }
      if read.None? {
        return Err(ReadSelectionFailed);
      }
      var data := read.value;
      var destFilename := digest(data) + Ext(dialog.selection);
      if destFilename !in files {
        files := files[destFilename := data];
        if thumbnail.Some? {
          files := files[ThumbnailName(destFilename) := thumbnail.value];
        }
      }
      return Ok(destFilename);
    }

    /**
     * SaveAvatarWithCrop: an absolute source is read and stored under its
     * content name unless that exists; any other source names a file already
     * in the library. The cropped thumbnail is then written, and failing to
     * make it is an error. `read` is the absolute source's contents,
     * `thumbnail` what generateManualThumbnail writes, None when it fails.
     */
    method SaveAvatarWithCrop(userId: string, sourcePath: string, read: Option<Bytes>,
                              digest: Bytes -> string, thumbnail: Option<Bytes>)
      returns (r: Result<string, AvatarError>)
      modifies this
      ensures userId == "" ==> r == Err(UserIdRequired) && files == old(files)
      ensures userId != "" && IsAbs(sourcePath) && read.None? ==> r == Err(ReadSourceFailed) && files == old(files)
      ensures userId != "" && IsAbs(sourcePath) && read.Some? ==>
        var name := StoredName(digest, read.value, sourcePath);
        var saved := SavedIfAbsent(old(files), name, read.value, None);
        && r == (if thumbnail.Some? then Ok(name) else Err(ThumbnailFailed))
        && files == if thumbnail.Some? then saved[ThumbnailName(name) := thumbnail.value] else saved
      ensures userId != "" && !IsAbs(sourcePath) && sourcePath !in old(files) ==>
        r == Err(SourceNotFound) && files == old(files)
      ensures userId != "" && !IsAbs(sourcePath) && sourcePath in old(files) ==>
        && r == (if thumbnail.Some? then Ok(sourcePath) else Err(ThumbnailFailed))
        && files == if thumbnail.Some? then old(files)[ThumbnailName(sourcePath) := thumbnail.value] else old(files)
    {
      if userId == "" {
        return Err(UserIdRequired);
      }
      var finalFilename;
      if IsAbs(sourcePath) {
        if read.None? {
          return Err(ReadSourceFailed);
        }
        var data := read.value;
        finalFilename := digest(data) + Ext(sourcePath);
        if finalFilename !in files {
          files := files[finalFilename := data];
        }
        assert finalFilename == StoredName(digest, data, sourcePath);
        assert files == SavedIfAbsent(old(files), finalFilename, data, None);
      } else {
        finalFilename := sourcePath;
        if finalFilename !in files {
          return Err(SourceNotFound);
        }
      }
      if thumbnail.None? {
        return Err(ThumbnailFailed);
      }
      files := files[ThumbnailName(finalFilename) := thumbnail.value];
      return Ok(finalFilename);
    }

    /** DeleteAvatarFile: remove an existing avatar and its thumbnail, if it has one. */
    method DeleteAvatarFile(filename: string) returns (r: Outcome<AvatarError>)
      modifies this
      ensures filename == "" ==> r == Fail(FilenameRequired) && files == old(files)
      ensures filename != "" && filename !in old(files) ==> r == Fail(AvatarNotFound) && files == old(files)
      ensures filename != "" && filename in old(files) ==>
        r == Pass && files == old(files) - {filename, ThumbnailName(filename)}
    {
      if filename == "" {
        return Fail(FilenameRequired);
      }
      if filename !in files {
        return Fail(AvatarNotFound);
      }
      files := files - {filename};
      var thumbFilename := ThumbnailName(filename);
      if thumbFilename in files {
        files := files - {thumbFilename};
      }
      return Pass;
    }

    /**
     * The checks SetAvatar makes before it hands the name to the session
     * store: Pass means the update goes ahead.
     */
    function SetAvatarCheck(userId: string, filename: string): (r: Outcome<AvatarError>)
      reads this
      ensures r == Pass <==> userId != "" && filename != "" && filename in files
    {
      if userId == "" then Fail(UserIdRequired)
      else if filename == "" then Fail(FilenameRequired)
      else if filename !in files then Fail(AvatarNotFound)
      else Pass
    }

    /** GetImageMetadata, with `decoded` the result of image.DecodeConfig on the file. */
    function Metadata(filename: string, decoded: Option<ImageConfig>): (r: Result<ImageMetadata, AvatarError>)
      reads this
      requires filename in files ==> |files[filename]| <= Int64Max
      ensures filename == "" ==> r == Err(FilenameRequired)
      ensures filename != "" && filename !in files ==> r == Err(StatFailed)
      ensures filename != "" && filename in files ==>
        (r.Ok? <==> decoded.Some? || ToLower(Ext(filename)) == ".svg")
      ensures r.Err? && filename != "" && filename in files ==> r.error == DecodeFailed && decoded.None?
      ensures r.Ok? ==> filename in files && r.value.size == |files[filename]| && r.value.filename == filename
      ensures r.Ok? ==> r.value.formatSize == SizeLabelOf(r.value.size)
      ensures r.Ok? && decoded.None? ==>
        && r.value.contentType == "image/svg+xml" && r.value.format == "svg"
        && r.value.width == 0 && r.value.height == 0
      ensures r.Ok? && decoded.Some? ==>
        && r.value.contentType == MetadataContentType(ToLower(Ext(filename)))
        && r.value.width == decoded.value.width && r.value.height == decoded.value.height
        && r.value.format == decoded.value.format
    {
      if filename == "" then Err(FilenameRequired)
      else if filename !in files then Err(StatFailed)
      else
        var size := |files[filename]|;
        var ext := ToLower(Ext(filename));
        match decoded
        case None =>
          if ext == ".svg" then Ok(ImageMetadata(filename, size, SizeLabelOf(size), 0, 0, "svg", "image/svg+xml"))
          else Err(DecodeFailed)
        case Some(config) =>
          Ok(ImageMetadata(filename, size, SizeLabelOf(size), config.width, config.height, config.format,
                           MetadataContentType(ext)))
    }
  }

  /** The guard SetAvatarColor and RemoveAvatar share before the session store is called. */
  function UserIdGuard(userId: string): (r: Outcome<AvatarError>)
    ensures r == Pass <==> userId != ""
  {
    if userId == "" then Fail(UserIdRequired) else Pass
  }

  // ----- MIME types -----

  /** The MIME type ReadImageAsBase64 puts in the data URL, for a lower-cased extension. */
  function DataUrlMime(ext: string): string {
    if ext == ".png" then "image/png"
    else if ext == ".webp" then "image/webp"
    else if ext == ".gif" then "image/gif"
    else if ext == ".svg" then "image/svg+xml"
    else "image/jpeg"
  }

  /** The content type GetImageMetadata reports, for a lower-cased extension. */
  function MetadataContentType(ext: string): string {
    if ext == ".png" then "image/png"
    else if ext == ".jpg" || ext == ".jpeg" then "image/jpeg"
    else if ext == ".webp" then "image/webp"
    else if ext == ".gif" then "image/gif"
    else if ext == ".svg" then "image/svg+xml"
    else "image/unknown"
  }

  /**
   * The two tables agree wherever the metadata table knows the extension,
   * and the data URL falls back to JPEG where it does not.
   */
  lemma MimeTablesAgree(ext: string)
    ensures MetadataContentType(ext) != "image/unknown" ==> DataUrlMime(ext) == MetadataContentType(ext)
    ensures MetadataContentType(ext) == "image/unknown" ==> DataUrlMime(ext) == "image/jpeg"
    ensures DataUrlMime(ext) in {"image/png", "image/webp", "image/gif", "image/svg+xml", "image/jpeg"}
  {
  }

  /** ReadImageAsBase64: `data:<mime>;base64,<encoding>` for a readable file; `encode` is base64. */
  function ReadImageAsBase64(path: string, read: Option<Bytes>, encode: Bytes -> string): (r: Result<string, AvatarError>)
    ensures path == "" ==> r == Err(PathRequired)
    ensures path != "" && read.None? ==> r == Err(ReadFailed)
    ensures path != "" && read.Some? ==> r.Ok?
    ensures r.Ok? ==> read.Some? && HasPrefix(r.value, "data:" + DataUrlMime(ToLower(Ext(path))) + ";")
    ensures r.Ok? ==> HasSuffix(r.value, ";base64," + encode(read.value))
    ensures r.Ok? ==> |r.value| == |"data:" + DataUrlMime(ToLower(Ext(path)))| + |";base64," + encode(read.value)|
  {
    if path == "" then Err(PathRequired)
    else if read.None? then Err(ReadFailed)
    else Ok("data:" + DataUrlMime(ToLower(Ext(path))) + ";base64," + encode(read.value))
  }

  /** The extension's case does not matter: `.PNG` files are PNG images. */
  lemma ReadImageIgnoresCase(name: string, read: Bytes, encode: Bytes -> string)
    ensures ReadImageAsBase64(name + ".PNG", Some(read), encode) == Ok("data:image/png;base64," + encode(read))
  {
    StemOfExtended(name, ".PNG");
    var lower := ToLower(".PNG");
    assert lower[0] == '.' && lower[1] == 'p' && lower[2] == 'n' && lower[3] == 'g';
    assert lower == ".png";
    assert DataUrlMime(ToLower(Ext(name + ".PNG"))) == "image/png";
    assert "data:" + "image/png" + ";base64," + encode(read) == "data:image/png;base64," + encode(read);
  }

  // ----- Sizes -----

  const Unit := 1024
  const Int64Max := 0x7FFF_FFFF_FFFF_FFFF
  const Int64Min := -0x8000_0000_0000_0000
  const UnitLetters := "KMGTPE"

  /** What formatByteSize prints: `<b> B`, or b / divisor to one decimal followed by `<unit>B`. */
  datatype SizeLabel = Plain(bytes: int) | Scaled(bytes: int, divisor: nat, unit: char)

  datatype ImageConfig = ImageConfig(width: int, height: int, format: string)

  datatype ImageMetadata = ImageMetadata(
    filename: string, size: int, formatSize: SizeLabel,
    width: int, height: int, format: string, contentType: string)

  function Pow(base: nat, e: nat): nat {
    if e == 0 then 1 else base * Pow(base, e - 1)
  }

  /** How many times formatByteSize's loop divides a quotient n by 1024 before it drops below 1024. */
  function Steps(n: nat): nat {
    if n < Unit then 0 else 1 + Steps(n / Unit)
  }

  /** n lies between the powers of 1024 that its step count names. */
  lemma {:induction false} StepsBounds(n: nat)
    requires n >= 1
    ensures Pow(Unit, Steps(n)) <= n < Pow(Unit, Steps(n) + 1)
  {
    if n >= Unit {
      var q := n / Unit;
      StepsBounds(q);
      var s := Steps(q);
      assert n == Unit * q + n % Unit;
      assert Pow(Unit, s + 1) == Unit * Pow(Unit, s);
      assert Pow(Unit, s + 2) == Unit * Pow(Unit, s + 1);
      assert Unit * Pow(Unit, s) <= Unit * q;
      assert q + 1 <= Pow(Unit, s + 1);
      assert Unit * (q + 1) <= Unit * Pow(Unit, s + 1);
    }
  }

  lemma {:induction false} PowMonotone(a: nat, c: nat)
    requires a <= c
    ensures Pow(Unit, a) <= Pow(Unit, c)
    decreases c
  {
    if a < c {
      PowMonotone(a, c - 1);
    }
  }

  /** For a size of 1024 bytes or more the exponent picks a unit letter: int64 sizes stay below 1024^7. */
  lemma ExponentInRange(b: int)
    requires Unit <= b <= Int64Max
    ensures Steps(b / Unit) < |UnitLetters|
    ensures Pow(Unit, Steps(b / Unit) + 1) <= b < Pow(Unit, Steps(b / Unit) + 2)
  {
    var q := b / Unit;
    var e := Steps(q);
    StepsBounds(q);
    assert b == Unit * q + b % Unit;
    assert Pow(Unit, e + 1) == Unit * Pow(Unit, e);
    assert Pow(Unit, e + 2) == Unit * Pow(Unit, e + 1);
    assert Unit * Pow(Unit, e) <= Unit * q;
    assert Unit * (q + 1) <= Unit * Pow(Unit, e + 1);
    if e >= 6 {
      PowMonotone(7, e + 1);
      assert false;
    }
  }

  /**
   * formatByteSize, with the float rendering left out: below 1024 the
   * plain byte count; otherwise the power of 1024 the size is divided by and
   * its unit letter.
   */
  function SizeLabelOf(b: int): SizeLabel
    requires Int64Min <= b <= Int64Max
  {
    if b < Unit then Plain(b)
    else
      ExponentInRange(b);
      var e := Steps(b / Unit);
      Scaled(b, Pow(Unit, e + 1), UnitLetters[e])
  }

  /**
   * The unit is the largest power of 1024 not above the size: K for
   * kibibytes up to E for exbibytes.
   */
  lemma SizeLabelUnit(b: int)
    requires Unit <= b <= Int64Max
    ensures exists e ::
      && 0 <= e < |UnitLetters|
      && SizeLabelOf(b) == Scaled(b, Pow(Unit, e + 1), UnitLetters[e])
      && Pow(Unit, e + 1) <= b < Pow(Unit, e + 2)
  {
    ExponentInRange(b);
    var e := Steps(b / Unit);
    assert SizeLabelOf(b) == Scaled(b, Pow(Unit, e + 1), UnitLetters[e]);
  }

  /** formatByteSize's loop: divide the quotient by 1024 while it is at least 1024, scaling the divisor. */
  method FormatByteSize(b: int) returns (r: SizeLabel)
    requires Int64Min <= b <= Int64Max
    ensures r == SizeLabelOf(b)
  {
    if b < Unit {
      return Plain(b);
    }
    var div: nat := Unit;
    var exp: nat := 0;
    var n: nat := b / Unit;
    while n >= Unit
      invariant div == Pow(Unit, exp + 1)
      invariant exp + Steps(n) == Steps(b / Unit)
      decreases n
    {
      div := div * Unit;
      exp := exp + 1;
      n := n / Unit;
    }
    ExponentInRange(b);
    return Scaled(b, div, UnitLetters[exp]);
  }
}
