/** The recipe image handlers of recipe-api/src/controllers/imageController.js.
    Image files live in one storage directory, modelled as a map from file
    name to bytes; the router has already loaded the recipe named by `:id`.
    Upload checks authorship before parsing the data URI, derives the file
    extension from the MIME subtype, replaces the recipe's previous file and
    records the new name; download maps the extension back to a MIME type. */
module ImageController {
  import opened Wrappers
  import opened Text
  import opened Http
  import opened ObjectIds
  import opened RecipeModel
  import opened ImageValidation
  import opened ImageBase64
  import RecipeController

  const ForbiddenMessage := "Forbidden"
  const InvalidUri := "Invalid image data URI"
  const Uploaded := "Image uploaded"
  const NoImage := "No image uploaded"
  const FileMissing := "Image file not found"

  /** The avatar storage directory. */
  class ImageStore {
    var files: map<string, seq<int>>

    constructor(init: map<string, seq<int>>)
      ensures files == init
    {
      files := init;
    }
  }

  /** `[a-zA-Z0-9.+-]` */
  predicate IsSubtypeChar(c: char) {
    ('a' <= c <= 'z') || ('A' <= c <= 'Z') || ('0' <= c <= '9') || c == '.' || c == '+' || c == '-'
  }

  predicate AllSubtypeChars(s: string) {
    forall i :: 0 <= i < |s| ==> IsSubtypeChar(s[i])
  }

  /** `image.match(/^data:(image\/[a-zA-Z0-9.+-]+);base64,(.*)$/)`: the MIME
      subtype and the payload. The subtype cannot hold `;`, so it ends at the
      first `;`, which must start `;base64,`. */
  function ParseDataUri(s: string): (r: Option<(string, string)>)
    ensures r.Some? ==> && r.value.0 != "" && AllSubtypeChars(r.value.0) && SingleLine(r.value.1)
                        && s == "data:image/" + r.value.0 + Marker + r.value.1
  {
    if !StartsWith(s, "data:image/") then None
    else
      var rest := s[11..];
      match IndexOf(rest, ';')
      case None => None
      case Some(i) =>
        var subtype := rest[..i];
        var tail := rest[i..];
        if subtype != "" && AllSubtypeChars(subtype) && StartsWith(tail, Marker) && SingleLine(tail[|Marker|..]) then
          assert s == s[..11] + rest && rest == subtype + tail && tail == Marker + tail[|Marker|..];
          Some((subtype, tail[|Marker|..]))
        else None
  }

  /** Every URI of the pattern's shape is parsed into its own parts. */
  lemma ParseDataUriComplete(subtype: string, payload: string)
    requires subtype != "" && AllSubtypeChars(subtype) && SingleLine(payload)
    ensures ParseDataUri("data:image/" + subtype + Marker + payload) == Some((subtype, payload))
  {
    var s := "data:image/" + subtype + Marker + payload;
    var rest := s[11..];
    assert s[..11] == "data:image/";
    assert rest == subtype + (Marker + payload);
    assert rest[..|subtype|] == subtype;
    assert ';' !in subtype by {
      forall i | 0 <= i < |subtype| ensures subtype[i] != ';' {
        assert IsSubtypeChar(subtype[i]);
      }
    }
    IndexOfFirst(rest, ';', |subtype|);
    assert rest[|subtype|..] == Marker + payload;
    assert (Marker + payload)[..|Marker|] == Marker;
    assert (Marker + payload)[|Marker|..] == payload;
  }

  /** `svg` for `svg+xml`, otherwise the subtype with its first `jpeg`
      replaced by `jpg`. */
  function Extension(subtype: string): string {
    if subtype == "svg+xml" then "svg" else ReplaceFirst(subtype, "jpeg", "jpg")
  }

  /** The subtypes the upload schema admits get the extensions png, jpg, gif
      and svg. */
  lemma UploadExtensions()
    ensures Extension("png") == "png" && Extension("gif") == "gif"
    ensures Extension("jpeg") == "jpg" && Extension("jpg") == "jpg"
    ensures Extension("svg+xml") == "svg"
    ensures forall k :: 0 <= k < |UploadSubtypes| ==> Extension(UploadSubtypes[k]) in ["png", "jpg", "gif", "svg"]
  {
    assert StartsWith("jpeg", "jpeg");
    assert "jpeg"[4..] == "";
    assert ReplaceFirst("jpeg", "jpeg", "jpg") == "jpg";
  }

  /** Every data URI the upload schema accepts is parsed by `createImage`
      into its own subtype and payload, and gets one of the four extensions. */
  lemma UploadAcceptedParses(subtype: string, payload: string)
    requires subtype in UploadSubtypes && payload != "" && AllBase64(payload)
    ensures ParseDataUri(DataUriPrefix(subtype) + payload) == Some((subtype, payload))
    ensures Extension(subtype) in ["png", "jpg", "gif", "svg"]
  {
    assert subtype != "" && AllSubtypeChars(subtype);
    Base64IsPlain(payload);
    ParseDataUriComplete(subtype, payload);
    assert DataUriPrefix(subtype) + payload == "data:image/" + subtype + Marker + payload;
    UploadExtensions();
  }

  /** `${recipe.id}.${ext}` */
  function FileName(id: Id, ext: string): string {
    id + "." + ext
  }

  /** `path.extname(filename).slice(1)`: what follows the last dot, or "" when
      there is none or it starts the name. */
  function ExtName(filename: string): (ext: string)
    ensures '.' !in ext
  {
    match LastIndexOf(filename, '.')
    case None => ""
    case Some(i) => if i == 0 then "" else filename[i + 1..]
  }

  /** `image/${ext === 'jpg' ? 'jpeg' : ext}` */
  function MimeOf(ext: string): string {
    "image/" + (if ext == "jpg" then "jpeg" else ext)
  }

  /** The extension of a stored file name reads back as the one it was built with. */
  lemma ExtNameOfFileName(id: Id, ext: string)
    requires id != "" && '.' !in ext
    ensures ExtName(FileName(id, ext)) == ext
  {
    LastIndexOfBefore(id, '.', ext);
    assert FileName(id, ext) == id + ['.'] + ext;
    assert (id + ['.'] + ext)[|id| + 1..] == ext;
  }

  /** A recipe's file is named after it. */
  lemma FileNamePrefix(id: Id, ext: string)
    ensures StartsWith(FileName(id, ext), id + ".")
  {
    assert FileName(id, ext)[..|id| + 1] == id + ".";
  }

  /** An uploaded image is downloaded with the MIME type of the extension its
      subtype was given: PNG, GIF and JPEG keep their own, `jpg` becomes
      `image/jpeg`, and SVG becomes `image/svg` rather than `image/svg+xml`. */
  lemma MimeRoundTrip(id: Id, subtype: string)
    requires id != "" && subtype in UploadSubtypes
    ensures MimeOf(ExtName(FileName(id, Extension(subtype)))) == MimeOf(Extension(subtype))
    ensures MimeOf(Extension(subtype)) ==
              if subtype == "svg+xml" then "image/svg" else if subtype == "jpg" then "image/jpeg" else "image/" + subtype
  {
    ExtensionHasNoDot(subtype);
    MimeOfFileName(id, Extension(subtype));
    UploadExtensions();
  }

  /** No admitted subtype's extension holds a dot. */
  lemma ExtensionHasNoDot(subtype: string)
    requires subtype in UploadSubtypes
    ensures '.' !in Extension(subtype)
  {
    UploadExtensions();
  }

  /** The download's MIME type depends only on the extension the file was named with. */
  lemma MimeOfFileName(id: Id, ext: string)
    requires id != "" && '.' !in ext
    ensures MimeOf(ExtName(FileName(id, ext))) == MimeOf(ext)
  {
    ExtNameOfFileName(id, ext);
  }

  /** The old file is deleted when the recipe has a (truthy) image name that
      differs from the new one. */
  predicate ReplacesOld(previous: Option<string>, filename: string) {
    previous.Some? && previous.value != "" && previous.value != filename
  }

  /** The storage after the old file, if any, is removed and the new one is
      written. */
  function Stored(files: map<string, seq<int>>, previous: Option<string>, filename: string, bytes: seq<int>)
    : (r: map<string, seq<int>>)
    ensures r.Keys == (if ReplacesOld(previous, filename) then files.Keys - {previous.value} else files.Keys) + {filename}
    ensures r[filename] == bytes
    ensures forall f | f in files && f != filename && !(ReplacesOld(previous, filename) && f == previous.value) :: r[f] == files[f]
  {
    (if ReplacesOld(previous, filename) then files - {previous.value} else files)[filename := bytes]
  }

  /** Removing a name that is not there changes nothing. */
  lemma RemoveAbsent(files: map<string, seq<int>>, name: string)
    requires name !in files
    ensures files - {name} == files
  {
  }

  /** `recipe.image = filename; await recipe.save()`: the timestamps plugin
      refreshes `updatedAt` only when the name actually changed. */
  function Renamed(recipe: Recipe, filename: string, now: int): (r: Recipe)
    ensures r.image == Some(filename)
    ensures r.updatedAt == (if recipe.image == Some(filename) then recipe.updatedAt else now)
    ensures r.(image := recipe.image, updatedAt := recipe.updatedAt) == recipe
  {
    if recipe.image == Some(filename) then recipe else recipe.(image := Some(filename), updatedAt := now)
  }

  datatype UploadReply = UploadReply(message: string, image: string)

  /** `createImage`. `unlinkError` is what deleting an existing old file
      reports when that fails for a reason other than a missing file (a
      missing file's ENOENT is ignored); such an error propagates as a 500,
      before the new file is written. */
  method CreateImage(recipes: RecipeController.RecipeStore, store: ImageStore, id: Id, user: Id, image: string,
                     now: int, decode: string -> seq<int>, unlinkError: Option<string>)
    returns (r: Reply<UploadReply>)
    requires id in recipes.recipes
    modifies recipes, store
    ensures old(recipes.recipes[id].authorId) != user ==>
              r == Failure(403, ForbiddenMessage) && recipes.recipes == old(recipes.recipes) && store.files == old(store.files)
    ensures old(recipes.recipes[id].authorId) == user && ParseDataUri(image).None? ==>
              r == Failure(400, InvalidUri) && recipes.recipes == old(recipes.recipes) && store.files == old(store.files)
    ensures old(recipes.recipes[id].authorId) == user && ParseDataUri(image).Some? && ToBuffer(image, decode).Err? ==>
              r == Failure(500, InvalidPayload) && recipes.recipes == old(recipes.recipes) && store.files == old(store.files)
    ensures old(recipes.recipes[id].authorId) == user && ParseDataUri(image).Some? && ToBuffer(image, decode).Ok? ==>
              var name := FileName(id, Extension(ParseDataUri(image).value.0));
              var previous := old(recipes.recipes[id].image);
              if ReplacesOld(previous, name) && previous.value in old(store.files) && unlinkError.Some? then
                r == Failure(500, unlinkError.value) && recipes.recipes == old(recipes.recipes) && store.files == old(store.files)
              else
                && store.files == Stored(old(store.files), previous, name, ToBuffer(image, decode).value)
                && recipes.recipes == old(recipes.recipes)[id := Renamed(old(recipes.recipes[id]), name, now)]
                && r == Success(200, UploadReply(Uploaded, name))
  {
    var recipe := recipes.recipes[id];
    if recipe.authorId != user {
      return ErrorReply(Forbidden(ForbiddenMessage));
    }
    var parsed := ParseDataUri(image);
    if parsed.None? {
      return ErrorReply(BadRequest(InvalidUri));
    }
    var ext := Extension(parsed.value.0);
    var buffer := ToBuffer(image, decode);
    if buffer.Err? {
      return ErrorReply(Thrown(buffer.error));
    }
    var name := FileName(id, ext);
    if ReplacesOld(recipe.image, name) {
      if recipe.image.value in store.files {
        if unlinkError.Some? {
          return ErrorReply(Thrown(unlinkError.value));
        }
        store.files := store.files - {recipe.image.value};
      } else {
        RemoveAbsent(store.files, recipe.image.value);
      }
    }
    store.files := store.files[name := buffer.value];
    assert store.files == Stored(old(store.files), recipe.image, name, buffer.value);
    recipes.recipes := recipes.recipes[id := Renamed(recipe, name, now)];
    r := Success(200, UploadReply(Uploaded, name));
  }

  /** `getImage`: 404 when the recipe has no image name or its file cannot be
      read; otherwise the file as a data URI whose MIME type comes from the
      name's extension. `encode` is the base64 encoder. */
  function GetImage(recipes: map<Id, Recipe>, files: map<string, seq<int>>, id: Id, encode: seq<int> -> string)
    : (r: Reply<string>)
    requires id in recipes
    ensures (recipes[id].image.None? || recipes[id].image.value == "") ==> r == Failure(404, NoImage)
    ensures recipes[id].image.Some? && recipes[id].image.value != "" && recipes[id].image.value !in files ==>
              r == Failure(404, FileMissing)
    ensures r.Success? ==> && r.status == 200 && recipes[id].image.Some? && recipes[id].image.value in files
                           && r.value == "data:" + MimeOf(ExtName(recipes[id].image.value)) + Marker
                                         + encode(files[recipes[id].image.value])
  {
    var name := recipes[id].image.GetOr("");
    if name == "" then ErrorReply(NotFound(NoImage))
    else if name !in files then ErrorReply(NotFound(FileMissing))
    else Success(200, "data:" + MimeOf(ExtName(name)) + Marker + encode(files[name]))
  }
}
