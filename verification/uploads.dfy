/** Product image uploads on the backend: the extension rule, the checks of
    an upload, the stored name and URL, and deleting a stored file. The
    upload directory is a set of file names. */
module Uploads {
  import opened Wrappers
  import opened Text
  import Images

  /** The five allowed extensions, in the order the source lists them. */
  const AllowedList: seq<string> := [".jpg", ".jpeg", ".png", ".gif", ".webp"]
  const AllowedExtensions: set<string> := {".jpg", ".jpeg", ".png", ".gif", ".webp"}
  const MaxBytes: nat := 5 * 1024 * 1024

  const TypePrefix: string := "File type not allowed. Allowed types: "
  const TooLarge: string := "File too large. Max size is 5MB"
  const FileNotFound: string := "File not found"
  const UrlPrefix: string := "/static/products/"

  /** The index of the last `c` in `s`, or -1. */
  function LastIndex(s: string, c: char): (r: int)
    ensures -1 <= r < |s|
    ensures r >= 0 ==> s[r] == c
    ensures forall j :: r < j < |s| ==> s[j] != c
  {
    if |s| == 0 then -1
    else if s[|s| - 1] == c then |s| - 1
    else LastIndex(s[..|s| - 1], c)
  }

  /** Any index with the two properties of `LastIndex` is the last index. */
  lemma LastIndexUnique(s: string, c: char, r: int)
    requires -1 <= r < |s|
    requires r >= 0 ==> s[r] == c
    requires forall j :: r < j < |s| ==> s[j] != c
    ensures r == LastIndex(s, c)
  {
  }

  /** The final component of a path: what follows the last `/`. */
  function BaseName(path: string): (r: string)
    ensures |r| <= |path| && r == path[|path| - |r|..]
    ensures forall i :: 0 <= i < |r| ==> r[i] != '/'
    ensures |r| == |path| - 1 - LastIndex(path, '/')
  {
    path[LastIndex(path, '/') + 1..]
  }

  /** The base name is the longest slash-free suffix: when it is not the
      whole path, a `/` stands right before it. */
  lemma BaseNameFollowsSlash(path: string)
    ensures |BaseName(path)| < |path| ==> path[|path| - |BaseName(path)| - 1] == '/'
  {
  }

  /** pathlib's `suffix`: from the last dot of the name, when that dot is
      neither the first nor the last character; otherwise empty. */
  function Suffix(name: string): (r: string)
    ensures r == "" || (2 <= |r| < |name| && r[0] == '.' && r == name[|name| - |r|..])
    ensures r != "" ==> forall i :: 1 <= i < |r| ==> r[i] != '.'
  {
    var i := LastIndex(name, '.');
    if 0 < i < |name| - 1 then name[i..] else ""
  }

  /** `get_file_extension` */
  function Extension(filename: string): (r: string)
    ensures r == LowerStr(Suffix(BaseName(filename)))
    ensures forall i :: 0 <= i < |r| ==> !IsAsciiUpper(r[i])
  {
    LowerStr(Suffix(BaseName(filename)))
  }

  /** `is_allowed_file` */
  predicate IsAllowed(filename: string) {
    Extension(filename) in AllowedExtensions
  }

  lemma LowerIdempotent(s: string)
    ensures LowerStr(LowerStr(s)) == LowerStr(s)
  {
  }

  /** Lower-casing moves no dot and no slash. */
  lemma LastIndexLower(s: string, c: char)
    requires !IsAsciiUpper(c) && !IsAsciiLower(c)
    ensures LastIndex(LowerStr(s), c) == LastIndex(s, c)
  {
    var l := LastIndex(s, c);
    var t := LowerStr(s);
    forall j | l < j < |t|
      ensures t[j] != c
    {
      assert s[j] != c;
    }
    LastIndexUnique(t, c, l);
  }

  /** Lower-casing commutes with dropping a prefix. */
  lemma LowerDrop(s: string, k: nat)
    requires k <= |s|
    ensures LowerStr(s)[k..] == LowerStr(s[k..])
  {
    assert |LowerStr(s)[k..]| == |LowerStr(s[k..])|;
    forall i | 0 <= i < |s| - k
      ensures LowerStr(s)[k..][i] == LowerStr(s[k..])[i]
    {
    }
  }

  lemma BaseNameLower(path: string)
    ensures BaseName(LowerStr(path)) == LowerStr(BaseName(path))
  {
    LastIndexLower(path, '/');
    LowerDrop(path, LastIndex(path, '/') + 1);
  }

  lemma SuffixLower(name: string)
    ensures Suffix(LowerStr(name)) == LowerStr(Suffix(name))
  {
    LastIndexLower(name, '.');
    var i := LastIndex(name, '.');
    if 0 < i < |name| - 1 {
      LowerDrop(name, i);
    }
  }

  /** The extension ignores the case of the whole file name. */
  lemma ExtensionIgnoresCase(filename: string)
    ensures Extension(LowerStr(filename)) == Extension(filename)
    ensures IsAllowed(LowerStr(filename)) <==> IsAllowed(filename)
  {
    var b := BaseName(filename);
    BaseNameLower(filename);
    SuffixLower(b);
    LowerIdempotent(Suffix(b));
  }

  /** `', '.join(...)` */
  function Join(parts: seq<string>, sep: string): (r: string)
    ensures |parts| == 1 ==> r == parts[0]
    ensures |parts| == 0 ==> r == ""
  {
    if |parts| == 0 then ""
    else if |parts| == 1 then parts[0]
    else parts[0] + sep + Join(parts[1..], sep)
  }

  /** What a successful upload returns. */
  datatype Uploaded = Uploaded(filename: string, url: string, size: nat)

  /** `upload_product_image`. `content` is the uploaded bytes, `uuid` the
      text of the generated uuid, and `order` the order in which the set of
      extensions is listed in the error detail. The directory gains the
      stored name on success. */
  function UploadImage(dir: set<string>, filename: string, content: seq<bv8>, uuid: string, order: seq<string>)
    : (r: (Result<Uploaded, HttpError>, set<string>))
    requires multiset(order) == multiset(AllowedList)
    ensures r.0.Ok? <==> IsAllowed(filename) && |content| <= MaxBytes
    ensures !IsAllowed(filename) ==> r.0 == Err(HttpError(400, TypePrefix + Join(order, ", ")))
    ensures IsAllowed(filename) && |content| > MaxBytes ==> r.0 == Err(HttpError(400, TooLarge))
    ensures r.0.Err? ==> r.1 == dir
    ensures r.0.Ok? ==>
      && r.0.value.filename == uuid + Extension(filename)
      && r.0.value.url == UrlPrefix + r.0.value.filename
      && r.0.value.size == |content|
      && r.1 == dir + {r.0.value.filename}
  {
    if !IsAllowed(filename) then (Err(HttpError(400, TypePrefix + Join(order, ", "))), dir)
    else if |content| > MaxBytes then (Err(HttpError(400, TooLarge)), dir)
    else
      var stored := uuid + Extension(filename);
      (Ok(Uploaded(stored, UrlPrefix + stored, |content|)), dir + {stored})
  }

  /** The size limit is inclusive. */
  lemma SizeLimitInclusive(dir: set<string>, filename: string, content: seq<bv8>, big: seq<bv8>, uuid: string)
    requires IsAllowed(filename)
    requires |content| == MaxBytes && |big| == MaxBytes + 1
    ensures UploadImage(dir, filename, content, uuid, AllowedList).0.Ok?
    ensures UploadImage(dir, filename, big, uuid, AllowedList).0 == Err(HttpError(400, TooLarge))
  {
  }

  /** The type is checked before the size: an oversized file of the wrong
      type is reported as the wrong type. */
  lemma TypeCheckedFirst(dir: set<string>, filename: string, big: seq<bv8>, uuid: string, order: seq<string>)
    requires multiset(order) == multiset(AllowedList)
    requires !IsAllowed(filename) && |big| > MaxBytes
    ensures UploadImage(dir, filename, big, uuid, order).0.Err?
    ensures UploadImage(dir, filename, big, uuid, order).0.error.detail != TooLarge
  {
    TypeDetailIsNotTooLarge(Join(order, ", "));
  }

  lemma TypeDetailIsNotTooLarge(listing: string)
    ensures TypePrefix + listing != TooLarge
  {
    assert (TypePrefix + listing)[6] == 'y';
  }

  /** Lower-casing keeps a string without upper-case letters as it is. */
  lemma LowerKeepsLower(s: string)
    requires forall i :: 0 <= i < |s| ==> !IsAsciiUpper(s[i])
    ensures LowerStr(s) == s
  {
  }

  /** An extension is empty, or a dot followed by at least one character
      that is neither a dot nor a slash. */
  lemma ExtensionShape(filename: string)
    ensures Extension(filename) == "" || (|Extension(filename)| >= 2 && Extension(filename)[0] == '.')
    ensures forall i :: 1 <= i < |Extension(filename)| ==> Extension(filename)[i] != '.'
    ensures forall i :: 0 <= i < |Extension(filename)| ==> Extension(filename)[i] != '/'
  {
    var sfx := Suffix(BaseName(filename));
    SuffixOfBaseName(BaseName(filename));
    LowerKeepsMarks(sfx);
  }

  /** Lower-casing keeps every dot and slash where it was. */
  lemma LowerKeepsMarks(s: string)
    ensures forall i :: 0 <= i < |s| ==> (LowerStr(s)[i] == '.' <==> s[i] == '.')
    ensures forall i :: 0 <= i < |s| ==> (LowerStr(s)[i] == '/' <==> s[i] == '/')
  {
  }

  /** The suffix of a slash-free name is slash-free. */
  lemma SuffixOfBaseName(b: string)
    requires forall i :: 0 <= i < |b| ==> b[i] != '/'
    ensures forall i :: 0 <= i < |Suffix(b)| ==> Suffix(b)[i] != '/'
  {
    var sfx := Suffix(b);
    forall i | 0 <= i < |sfx|
      ensures sfx[i] != '/'
    {
      assert sfx[i] == b[|b| - |sfx| + i];
    }
  }

  /** A slash-free stem followed by a dot and a dot-free, slash-free tail
      is its own base name, and the dot and tail are its suffix. */
  lemma SuffixAfterStem(stem: string, e: string)
    requires stem != ""
    requires forall i :: 0 <= i < |stem| ==> stem[i] != '/'
    requires |e| >= 2 && e[0] == '.'
    requires forall i :: 1 <= i < |e| ==> e[i] != '.' && e[i] != '/'
    ensures BaseName(stem + e) == stem + e
    ensures Suffix(stem + e) == e
  {
    var s := stem + e;
    LastIndexUnique(s, '/', -1);
    LastIndexUnique(s, '.', |stem|);
    assert s[|stem|..] == e;
  }

  /** A plain name without dots or slashes followed by an extension has that
      extension as its suffix. */
  lemma SuffixAfterPlainName(uuid: string, e: string)
    requires uuid != ""
    requires forall i :: 0 <= i < |uuid| ==> uuid[i] != '.' && uuid[i] != '/'
    requires e == "" || (|e| >= 2 && e[0] == '.')
    requires forall i :: 1 <= i < |e| ==> e[i] != '.'
    requires forall i :: 0 <= i < |e| ==> e[i] != '/'
    ensures BaseName(uuid + e) == uuid + e
    ensures Suffix(uuid + e) == e
  {
    if e == "" {
      assert uuid + e == uuid;
      LastIndexUnique(uuid, '/', -1);
      LastIndexUnique(uuid, '.', -1);
    } else {
      SuffixAfterStem(uuid, e);
    }
  }

  /** Only the last dot counts: the extension of a slash-free stem (which
      may hold dots) followed by a dot and a dot-free, slash-free tail is
      that tail, lower-cased. */
  lemma ExtensionOf(stem: string, e: string)
    requires stem != ""
    requires forall i :: 0 <= i < |stem| ==> stem[i] != '/'
    requires |e| >= 2 && e[0] == '.'
    requires forall i :: 1 <= i < |e| ==> e[i] != '.' && e[i] != '/'
    ensures Extension(stem + e) == LowerStr(e)
  {
    SuffixAfterStem(stem, e);
  }

  /** A dot file such as `.jpg` has no extension, and neither has a name
      ending in a dot: both are refused. */
  lemma DotAtEitherEndIsNoExtension(name: string)
    requires |name| >= 1
    requires forall i :: 0 <= i < |name| ==> name[i] != '/'
    requires (name[0] == '.' && forall i :: 1 <= i < |name| ==> name[i] != '.') || name[|name| - 1] == '.'
    ensures Extension(name) == ""
    ensures !IsAllowed(name)
  {
    LastIndexUnique(name, '/', -1);
    assert BaseName(name) == name;
    if name[|name| - 1] == '.' {
      LastIndexUnique(name, '.', |name| - 1);
    } else {
      LastIndexUnique(name, '.', 0);
    }
  }

  /** The stored name has the same extension as the upload when the uuid
      text is a plain name without dots or slashes. */
  lemma StoredNameKeepsExtension(filename: string, uuid: string)
    requires uuid != ""
    requires forall i :: 0 <= i < |uuid| ==> uuid[i] != '.' && uuid[i] != '/'
    ensures Extension(uuid + Extension(filename)) == Extension(filename)
  {
    var e := Extension(filename);
    ExtensionShape(filename);
    SuffixAfterPlainName(uuid, e);
    LowerKeepsLower(e);
  }

  /** A stored URL is relative, so the frontend serves it from the backend
      origin. */
  lemma StoredUrlResolves(stored: string)
    ensures Images.ImageUrl(Some(UrlPrefix + stored), Images.CardPlaceholder)
      == Images.BackendOrigin + (UrlPrefix + stored)
  {
    var url := UrlPrefix + stored;
    assert !StartsWith(url, "http") by {
      assert url[0] == '/';
    }
  }

  /** `delete_product_image`, leaving out the failure of the removal itself. */
  function DeleteImage(dir: set<string>, name: string): (r: (Result<string, HttpError>, set<string>))
    ensures name !in dir ==> r.0 == Err(HttpError(404, FileNotFound)) && r.1 == dir
    ensures name in dir ==> r.0.Ok? && r.1 == dir - {name}
  {
    if name !in dir then (Err(HttpError(404, FileNotFound)), dir)
    else (Ok("File deleted successfully"), dir - {name})
  }

  /** Deleting what an upload stored under a fresh name succeeds and
      restores the directory; a second delete of it gives 404. */
  lemma UploadThenDelete(dir: set<string>, filename: string, content: seq<bv8>, uuid: string)
    requires UploadImage(dir, filename, content, uuid, AllowedList).0.Ok?
    requires uuid + Extension(filename) !in dir
    ensures DeleteImage(UploadImage(dir, filename, content, uuid, AllowedList).1,
                        UploadImage(dir, filename, content, uuid, AllowedList).0.value.filename) == (Ok("File deleted successfully"), dir)
    ensures DeleteImage(dir, uuid + Extension(filename)).0 == Err(HttpError(404, FileNotFound))
  {
    var up := UploadImage(dir, filename, content, uuid, AllowedList);
    DeleteAdded(dir, up.0.value.filename);
  }

  /** Deleting a name just added to the directory restores it; the name
      was not there before. */
  lemma DeleteAdded(dir: set<string>, stored: string)
    requires stored !in dir
    ensures DeleteImage(dir + {stored}, stored) == (Ok("File deleted successfully"), dir)
    ensures DeleteImage(dir, stored).0 == Err(HttpError(404, FileNotFound))
  {
    assert (dir + {stored}) - {stored} == dir;
  }
}
