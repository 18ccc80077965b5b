/** The file-upload utility: an allow-list on the file extension, a storage
    path sharded by the first four characters of the generated name, and a
    registry list in which a file whose digest is already recorded is
    refused as a duplicate. */
module Uploads {
  import opened Tables
  import opened Text

  const UPLOAD_FOLDER := "uploads"
  const ALLOWED_EXTENSIONS: set<string> := {".txt", ".pdf", ".png", ".jpg", ".jpeg", ".gif"}

  /** `allowed_file`: the lower-cased extension is on the allow-list. */
  predicate AllowedFile(filename: string) {
    AsciiLower(Extension(filename)) in ALLOWED_EXTENSIONS
  }

  /** An allowed file name ends, up to letter case, in one of the six
      extensions, and that ending is its whole extension. */
  lemma AllowedFileEnding(filename: string)
    requires AllowedFile(filename)
    ensures exists e :: e in ALLOWED_EXTENSIONS && |e| <= |filename|
                        && AsciiLower(filename[|filename| - |e|..]) == e
                        && Extension(filename) == filename[|filename| - |e|..]
  {
    var x := Extension(filename);
    var e := AsciiLower(x);
    assert |e| == |x| && x == filename[|filename| - |e|..];
    assert e in ALLOWED_EXTENSIONS && AsciiLower(filename[|filename| - |e|..]) == e;
  }

  /** The comparison ignores letter case. */
  lemma UpperCaseExtensionAllowed()
    ensures AllowedFile("report.PDF")
  {
    ExtensionFromLastDot("report.PDF", 0, 6);
    assert AsciiLower(".PDF") == ".pdf";
  }

  /** Only the part after the last dot counts. */
  lemma LastDotDecides()
    ensures AllowedFile("photo.final.JpEg")
  {
    ExtensionFromLastDot("photo.final.JpEg", 0, 11);
    assert AsciiLower(".JpEg") == ".jpeg";
  }

  /** A double extension is judged by its last part alone. */
  lemma DoubleExtensionRefused()
    ensures !AllowedFile("archive.tar.gz")
  {
    ExtensionFromLastDot("archive.tar.gz", 0, 11);
    assert AsciiLower(".gz") == ".gz";
  }

  /** A leading dot does not start an extension, so `.txt` is refused. */
  lemma DotfileRefused()
    ensures !AllowedFile(".txt")
  {
    var p := ".txt";
    assert LastIndex(p, '/') == -1;
    assert p[0] == '.' && forall k :: 0 < k < 4 ==> p[k] != '.';
    assert LastIndex(p, '.') == 0;
    assert Extension(p) == "";
  }

  /** A name without a dot has no extension and is refused. */
  lemma BareNameRefused()
    ensures !AllowedFile("notes")
  {
    assert LastIndex("notes", '.') == -1;
  }

  // ---------------------------------------------------------------------
  // Storage path

  /** A path separator of the platform: `/`, and on Windows also `\`. */
  predicate IsSep(c: char, windows: bool) {
    c == '/' || (windows && c == '\\')
  }

  /** `os.path.join(a, b)` for components without a drive letter. */
  function Join(a: string, b: string, windows: bool): (r: string)
    ensures b != [] && IsSep(b[0], windows) ==> r == b
  {
    if b != [] && IsSep(b[0], windows) then b
    else if a == [] || IsSep(a[|a| - 1], windows) then a + b
    else a + [if windows then '\\' else '/'] + b
  }

  /** A relative component is appended to `a`, with one separator between them
      exactly when `a` is non-empty and does not already end in one. */
  lemma JoinParts(a: string, b: string, windows: bool)
    requires !(b != [] && IsSep(b[0], windows))
    ensures var r := Join(a, b, windows);
      && |a| + |b| <= |r| && r[..|a|] == a && r[|r| - |b|..] == b
      && |r| == |a| + |b| + (if a == [] || IsSep(a[|a| - 1], windows) then 0 else 1)
      && (|r| > |a| + |b| ==> IsSep(r[|a|], windows))
  {
  }

  /** Where `upload_file` saves a file called `name`: `uploads/<name[:2]>/<name[2:4]>/<name>`. */
  function FilePath(name: string, windows: bool): string
    requires |name| >= 4
  {
    Join(Join(Join(UPLOAD_FOLDER, name[..2], windows), name[2..4], windows), name, windows)
  }

  /** `s.replace("\\", "/")`. */
  function ForwardSlashes(s: string): (r: string)
    ensures |r| == |s|
    ensures forall i :: 0 <= i < |s| ==> r[i] == (if s[i] == '\\' then '/' else s[i])
  {
    if s == [] then [] else [if s[0] == '\\' then '/' else s[0]] + ForwardSlashes(s[1..])
  }

  predicate NoSeparators(s: string) {
    forall i :: 0 <= i < |s| ==> s[i] != '/' && s[i] != '\\'
  }

  /** `ForwardSlashes` works character by character, so it distributes over `+`. */
  lemma ForwardSlashesConcat(x: string, y: string)
    ensures ForwardSlashes(x + y) == ForwardSlashes(x) + ForwardSlashes(y)
  {
    var l, r := ForwardSlashes(x + y), ForwardSlashes(x) + ForwardSlashes(y);
    forall i | 0 <= i < |l| ensures l[i] == r[i] {
      if i < |x| { assert (x + y)[i] == x[i]; } else { assert (x + y)[i] == y[i - |x|]; }
    }
  }

  /** A string without separators comes out of `ForwardSlashes` unchanged. */
  lemma ForwardSlashesPlain(s: string)
    requires NoSeparators(s)
    ensures ForwardSlashes(s) == s
  {
  }

  /** The three joins put one platform separator before each of the shards and the name. */
  lemma FilePathParts(name: string, windows: bool)
    requires |name| >= 4 && NoSeparators(name)
    ensures var sep := if windows then '\\' else '/';
      FilePath(name, windows) == UPLOAD_FOLDER + [sep] + name[..2] + [sep] + name[2..4] + [sep] + name
  {
    var a, b := name[..2], name[2..4];
    var sep := if windows then '\\' else '/';
    assert a[0] == name[0] && b[0] == name[2];
    assert UPLOAD_FOLDER[|UPLOAD_FOLDER| - 1] == 's';
    var p1 := Join(UPLOAD_FOLDER, a, windows);
    assert p1 == UPLOAD_FOLDER + [sep] + a;
    assert p1[|p1| - 1] == a[1];
    var p2 := Join(p1, b, windows);
    assert p2 == p1 + [sep] + b;
    assert p2[|p2| - 1] == b[1];
  }

  /** The path the registry records is the same on both platforms and has the
      sharded layout. */
  lemma {:induction false} RecordedPathLayout(name: string, windows: bool)
    requires |name| >= 4 && NoSeparators(name)
    ensures ForwardSlashes(FilePath(name, windows))
         == UPLOAD_FOLDER + "/" + name[..2] + "/" + name[2..4] + "/" + name
  {
    var a, b := name[..2], name[2..4];
    var sep := if windows then '\\' else '/';
    FilePathParts(name, windows);
    assert NoSeparators(a) && NoSeparators(b) && NoSeparators(UPLOAD_FOLDER);
    ForwardSlashesPlain(UPLOAD_FOLDER);
    ForwardSlashesPlain(a);
    ForwardSlashesPlain(b);
    ForwardSlashesPlain(name);
    assert ForwardSlashes([sep]) == "/";
    var u, x, y := UPLOAD_FOLDER + [sep] + a, UPLOAD_FOLDER + [sep] + a + [sep] + b, UPLOAD_FOLDER + [sep];
    ForwardSlashesConcat(UPLOAD_FOLDER, [sep]);
    ForwardSlashesConcat(y, a);
    ForwardSlashesConcat(u, [sep]);
    ForwardSlashesConcat(u + [sep], b);
    ForwardSlashesConcat(x, [sep]);
    ForwardSlashesConcat(x + [sep], name);
  }

  // ---------------------------------------------------------------------
  // The registry

  /** The text of `str(uuid.uuid4())`: 36 lower-case hex digits and hyphens. */
  predicate UuidText(u: string) {
    |u| == 36 && forall i :: 0 <= i < |u| ==> ('0' <= u[i] <= '9' || 'a' <= u[i] <= 'f' || u[i] == '-')
  }

  datatype FileRecord = FileRecord(uuid: string, originalName: string, extension: string,
                                   date: string, path: string, md5: string)

  datatype UploadOutcome = NoFile | Disallowed(extension: string) | Duplicate | Stored

  /** No two records carry the same digest. */
  predicate DigestsDistinct(records: seq<FileRecord>) {
    forall i, j :: 0 <= i < j < |records| ==> records[i].md5 != records[j].md5
  }

  predicate HasDigest(records: seq<FileRecord>, md5: string) {
    exists k :: 0 <= k < |records| && records[k].md5 == md5
  }

  /** The name a file is stored under: the uuid text and the lower-cased extension. */
  function StoredName(uuid: string, originalName: string): string {
    uuid + AsciiLower(Extension(originalName))
  }

  /** None of the six extensions holds a path separator. */
  lemma AllowedExtensionsPlain(e: string)
    requires e in ALLOWED_EXTENSIONS
    ensures NoSeparators(e)
  {
  }

  /** An allowed extension holds no path separator, so neither does the stored name. */
  lemma StoredNameHasNoSeparators(uuid: string, originalName: string)
    requires UuidText(uuid) && AllowedFile(originalName)
    ensures |StoredName(uuid, originalName)| >= 4 && NoSeparators(StoredName(uuid, originalName))
  {
    var e := AsciiLower(Extension(originalName));
    AllowedExtensionsPlain(e);
    var n := uuid + e;
    forall i | 0 <= i < |n| ensures n[i] != '/' && n[i] != '\\' {
      if i < |uuid| { assert n[i] == uuid[i]; } else { assert n[i] == e[i - |uuid|]; }
    }
  }

  /** What `upload_file` answers for a posted `file` whose content has digest `md5`. */
  function Decision(file: Option<string>, records: seq<FileRecord>, md5: string): (r: UploadOutcome)
    ensures r == NoFile <==> file.None? || file.value == ""
    ensures r.Disallowed? <==> file.Some? && file.value != "" && !AllowedFile(file.value)
    ensures r.Disallowed? ==> r.extension == AsciiLower(Extension(file.value))
    ensures r == Duplicate <==> file.Some? && file.value != "" && AllowedFile(file.value) && HasDigest(records, md5)
    ensures r == Stored ==> !HasDigest(records, md5)
  {
    if file.None? || file.value == "" then NoFile
    else if !AllowedFile(file.value) then Disallowed(AsciiLower(Extension(file.value)))
    else if HasDigest(records, md5) then Duplicate
    else Stored
  }

  /** The entry appended for a stored file. */
  function NewRecord(uuid: string, originalName: string, now: string, md5: string, windows: bool): (r: FileRecord)
    requires UuidText(uuid)
    ensures r.md5 == md5 && r.originalName == originalName && r.date == now
    ensures r.uuid == StoredName(uuid, originalName) && r.uuid[..36] == uuid
    ensures r.extension == AsciiLower(Extension(originalName)) && r.uuid[36..] == r.extension
  {
    var name := StoredName(uuid, originalName);
    FileRecord(name, originalName, AsciiLower(Extension(originalName)), now,
               ForwardSlashes(FilePath(name, windows)), md5)
  }

  /** The recorded path of an accepted file has the sharded layout on either platform. */
  lemma NewRecordPath(uuid: string, originalName: string, now: string, md5: string, windows: bool)
    requires UuidText(uuid) && AllowedFile(originalName)
    ensures var name := StoredName(uuid, originalName);
      NewRecord(uuid, originalName, now, md5, windows).path
        == UPLOAD_FOLDER + "/" + name[..2] + "/" + name[2..4] + "/" + name
  {
    StoredNameHasNoSeparators(uuid, originalName);
    RecordedPathLayout(StoredName(uuid, originalName), windows);
  }

  /** Storing keeps the digests distinct. */
  lemma {:induction false} StoringKeepsDigestsDistinct(records: seq<FileRecord>, file: Option<string>,
                                                      uuid: string, now: string, md5: string, windows: bool)
    requires UuidText(uuid) && DigestsDistinct(records)
    requires Decision(file, records, md5) == Stored
    ensures DigestsDistinct(records + [NewRecord(uuid, file.value, now, md5, windows)])
  {
    var rs := records + [NewRecord(uuid, file.value, now, md5, windows)];
    forall i, j | 0 <= i < j < |rs| ensures rs[i].md5 != rs[j].md5 {
      if j == |records| {
        assert rs[i] == records[i];
        assert !HasDigest(records, md5);
      } else {
        assert rs[i] == records[i] && rs[j] == records[j];
      }
    }
  }

  /** Once a file is stored, posting content with the same digest again,
      under any allowed name, is refused as a duplicate. */
  lemma SecondCopyRefused(records: seq<FileRecord>, file: Option<string>, again: string,
                          uuid: string, now: string, md5: string, windows: bool)
    requires UuidText(uuid) && Decision(file, records, md5) == Stored
    requires again != "" && AllowedFile(again)
    ensures Decision(Some(again), records + [NewRecord(uuid, file.value, now, md5, windows)], md5) == Duplicate
  {
    var rs := records + [NewRecord(uuid, file.value, now, md5, windows)];
    assert rs[|records|].md5 == md5;
  }

  /** The scan of `upload_file` over the recorded entries for the new file's digest. */
  method ScanDigests(records: seq<FileRecord>, md5: string) returns (seen: bool)
    ensures seen == HasDigest(records, md5)
  {
    var i := 0;
    while i < |records|
      invariant 0 <= i <= |records|
      invariant forall k :: 0 <= k < i ==> records[k].md5 != md5
    {
      if records[i].md5 == md5 {
        return true;
      }
      i := i + 1;
    }
    return false;
  }

  class Registry {
    /** Whether the server joins paths with Windows separators. */
    const windows: bool
    /** The in-memory `files_data` list. */
    var records: seq<FileRecord>
    /** The files present under the upload folder. */
    var disk: set<string>

    constructor (loaded: seq<FileRecord>, files: set<string>, windows: bool)
      ensures records == loaded && disk == files && this.windows == windows
    {
      records, disk, this.windows := loaded, files, windows;
    }

    /** The POST branch of `upload_file`. `file` is the uploaded file's name
        (`None` when the form has no file field); `uuid`, `md5` and `now` stand
        for `uuid.uuid4()`, the digest of the saved file and the clock. The
        file is written before its digest is known and removed again when the
        digest is already recorded. */
    method Upload(file: Option<string>, uuid: string, md5: string, now: string) returns (outcome: UploadOutcome)
      requires UuidText(uuid)
      modifies this
      ensures outcome == Decision(file, old(records), md5)
      ensures outcome != Stored ==> records == old(records)
      ensures outcome == NoFile || outcome.Disallowed? ==> disk == old(disk)
      ensures outcome == Duplicate ==> disk == old(disk) - {FilePath(StoredName(uuid, file.value), windows)}
      ensures outcome == Stored ==> records == old(records) + [NewRecord(uuid, file.value, now, md5, windows)]
      ensures outcome == Stored ==> disk == old(disk) + {FilePath(StoredName(uuid, file.value), windows)}
      ensures DigestsDistinct(old(records)) ==> DigestsDistinct(records)
    {
      if file.None? || file.value == "" {
        return NoFile;
      }
      var originalName := file.value;
      var ext := AsciiLower(Extension(originalName));
      if !AllowedFile(originalName) {
        return Disallowed(ext);
      }
      var uuidName := uuid + ext;
      var filePath := FilePath(uuidName, windows);
      disk := disk + {filePath};
      var seen := ScanDigests(records, md5);
      if seen {
        disk := disk - {filePath};
        return Duplicate;
      }
      if DigestsDistinct(records) {
        StoringKeepsDigestsDistinct(records, file, uuid, now, md5, windows);
      }
      records := records + [NewRecord(uuid, originalName, now, md5, windows)];
      outcome := Stored;
    }
  }
}
