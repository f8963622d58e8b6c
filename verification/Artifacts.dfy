/** The artifact paths of internal/server: which names are served, and how a path is taken apart. */
module Artifacts {
  import opened Text

  /** filepath.Ext: from the last dot of the last path element. */
  function Ext(path: string): (e: string)
    ensures |e| <= |path| && HasSuffix(path, e)
  {
    if path == "" || path[|path| - 1] == '/' then ""
    else
      var front, last := path[..|path| - 1], path[|path| - 1];
      if last == '.' then "."
      else if Ext(front) == "" then ""
      else Ext(front) + [last]
  }

  /** What follows the last slash. */
  function LastElement(path: string): (e: string)
    ensures '/' !in e
  {
    if path == "" || path[|path| - 1] == '/' then "" else LastElement(path[..|path| - 1]) + [path[|path| - 1]]
  }

  predicate IsSlash(c: char) {
    c == '/'
  }

  /** filepath.Base */
  function Base(path: string): string {
    if path == "" then "."
    else
      var t := TrimRight(path, IsSlash);
      if t == "" then "/" else LastElement(t)
  }

  predicate AllowedExt(ext: string) {
    ext == ".png" || ext == ".jpg" || ext == ".jpeg" || ext == ".gif" || ext == ".webp"
  }

  predicate SegmentChar(c: char) {
    'a' <= c <= 'z' || 'A' <= c <= 'Z' || '0' <= c <= '9' || c == '_' || c == '-'
  }

  predicate SafeSegment(s: string) {
    s != "" && s != "." && s != ".." && forall i | 0 <= i < |s| :: SegmentChar(s[i])
  }

  predicate SafeFile(file: string) {
    && file != "" && file != "." && file != ".." && Base(file) == file && '\0' !in file
    && SafeSegment(TrimSuffix(file, Ext(file)))
    && AllowedExt(ToLower(Ext(file)))
  }

  function TrimPrefix(s: string, prefix: string): string {
    if HasPrefix(s, prefix) then s[|prefix|..] else s
  }

  const ROOT := "/artifacts/"

  /** The job and the file that a request path names, if it is served at all. */
  function Requested(path: string): Option<(string, string)> {
    var parts := Split(TrimPrefix(path, ROOT), '/');
    if |parts| != 2 || !SafeSegment(parts[0]) || !SafeFile(parts[1]) then None else Some((parts[0], parts[1]))
  }

  // ----------------------------------------------------------- paths that are made

  predicate Unreserved(c: char) {
    SegmentChar(c) || c == '.'
  }

  /** url.PathEscape, of which only this matters: the unreserved characters stay. */
  function PathEscape(s: string, escape: char -> string): string {
    if s == "" then "" else (if Unreserved(s[0]) then [s[0]] else escape(s[0])) + PathEscape(s[1..], escape)
  }

  function ArtifactPath(job: string, file: string, escape: char -> string): string {
    ROOT + PathEscape(job, escape) + "/" + PathEscape(file, escape)
  }

  lemma {:induction false} EscapeStays(s: string, escape: char -> string)
    requires forall i | 0 <= i < |s| :: Unreserved(s[i])
    ensures PathEscape(s, escape) == s
  {
    if s != "" {
      EscapeStays(s[1..], escape);
    }
  }

  /** A name without slash or dot, and then a dot and more of the kind: taken apart as it was made. */
  lemma {:induction false} ExtOfName(stem: string, ext: string)
    requires '/' !in ext && ext != "" && ext[0] == '.' && forall i | 1 <= i < |ext| :: ext[i] != '.'
    ensures Ext(stem + ext) == ext
  {
    var name := stem + ext;
    if |ext| > 1 {
      assert name[..|name| - 1] == stem + ext[..|ext| - 1];
      ExtOfName(stem, ext[..|ext| - 1]);
      assert ext[..|ext| - 1] + [ext[|ext| - 1]] == ext;
    } else {
      assert ext == ".";
    }
  }

  lemma {:induction false} LastElementOfName(name: string)
    requires '/' !in name
    ensures LastElement(name) == name
  {
    if name != "" {
      LastElementOfName(name[..|name| - 1]);
    }
  }

  lemma BaseOfName(name: string)
    requires '/' !in name && name != ""
    ensures Base(name) == name
  {
    LastElementOfName(name);
    assert TrimRight(name, IsSlash) == name;
  }

  lemma {:induction false} ExtHasNoSlash(path: string)
    ensures '/' !in Ext(path)
  {
    if path != "" && path[|path| - 1] != '/' {
      ExtHasNoSlash(path[..|path| - 1]);
    }
  }

  lemma SafeSegmentHasNoSlash(s: string)
    requires SafeSegment(s)
    ensures '/' !in s
  {
  }

  lemma SafeFileHasNoSlash(file: string)
    requires SafeFile(file)
    ensures '/' !in file
  {
    var stem, ext := TrimSuffix(file, Ext(file)), Ext(file);
    ExtHasNoSlash(file);
    SafeSegmentHasNoSlash(stem);
    NoSlashInParts(stem, ext);
    assert file == stem + ext;
  }

  lemma NoSlashInParts(a: string, b: string)
    requires '/' !in a && '/' !in b
    ensures '/' !in a + b
  {
  }

  lemma SplitOnce(a: string, b: string)
    requires '/' !in a && '/' !in b
    ensures Split(a + "/" + b, '/') == [a, b]
  {
    SplitAppend(a, b, '/');
    SplitNone(a, '/');
    SplitNone(b, '/');
  }

  /** The server finds in a path just the job and the file that were put into it. */
  lemma PathRoundTrip(job: string, file: string)
    requires SafeSegment(job) && SafeFile(file)
    ensures Requested(ROOT + job + "/" + file) == Some((job, file))
  {
    SafeSegmentHasNoSlash(job);
    SafeFileHasNoSlash(file);
    SplitOnce(job, file);
    assert TrimPrefix(ROOT + job + "/" + file, ROOT) == job + "/" + file;
  }

  /** So it does with the path that artifactURL makes of them, escaped character by character. */
  lemma EscapedRoundTrip(job: string, file: string, escape: char -> string)
    requires SafeSegment(job) && SafeFile(file) && forall i | 0 <= i < |file| :: Unreserved(file[i])
    ensures Requested(ArtifactPath(job, file, escape)) == Some((job, file))
  {
    EscapeStays(job, escape);
    EscapeStays(file, escape);
    PathRoundTrip(job, file);
  }

  lemma TwoParts(rest: string, parts: seq<string>)
    requires parts == Split(rest, '/') && |parts| == 2
    ensures rest == parts[0] + "/" + parts[1]
  {
    SplitJoin(rest, '/');
    assert parts == [parts[0], parts[1]];
    assert Join(parts[1..], "/") == parts[1];
  }

  /** And it serves no other path: neither a second way to write one nor one that leads elsewhere. */
  lemma OnlySafePaths(path: string)
    requires HasPrefix(path, ROOT) && Requested(path).Some?
    ensures var (job, file) := Requested(path).value;
            && SafeSegment(job) && SafeFile(file) && '/' !in job && '/' !in file
            && path == ROOT + job + "/" + file
  {
    var rest := TrimPrefix(path, ROOT);
    var parts := Split(rest, '/');
    TwoParts(rest, parts);
    SafeFileHasNoSlash(parts[1]);
    SafeSegmentHasNoSlash(parts[0]);
    assert path == ROOT + rest;
  }

  // ------------------------------------------------------------- what is served exactly

  predicate NameChars(s: string) {
    forall i | 0 <= i < |s| ::
      'a' <= s[i] <= 'z' || 'A' <= s[i] <= 'Z' || '0' <= s[i] <= '9' || s[i] == '_' || s[i] == '-'
  }

  /** The ending of an image file, in any case. */
  predicate ImageEnding(ext: string) {
    ToLower(ext) in [".png", ".jpg", ".jpeg", ".gif", ".webp"]
  }

  lemma EndingChars(ext: string)
    requires ImageEnding(ext)
    ensures 4 <= |ext| <= 5 && ext[0] == '.' && '/' !in ext && '\0' !in ext
    ensures forall i | 1 <= i < |ext| :: ext[i] != '.'
  {
    var low := ToLower(ext);
    assert forall i | 0 <= i < |ext| :: low[i] == LowerChar(ext[i]);
  }

  lemma EndingIsExt(stem: string, ext: string)
    requires ImageEnding(ext) && stem != "" && NameChars(stem)
    ensures SafeFile(stem + ext)
  {
    EndingChars(ext);
    SegmentOfChars(stem);
    ExtOfName(stem, ext);
    NoSlashInParts(stem, ext);
    BaseOfName(stem + ext);
    StemBefore(stem, ext);
    NoNulInParts(stem, ext);
    EndingIsAllowed(ext);
    PartsAreSafe(stem + ext, stem, ext);
  }

  lemma EndingIsAllowed(ext: string)
    requires ImageEnding(ext)
    ensures AllowedExt(ToLower(ext))
  {
  }

  lemma PartsAreSafe(file: string, stem: string, ext: string)
    requires |file| > 2 && Ext(file) == ext && Base(file) == file && '\0' !in file && TrimSuffix(file, ext) == stem
    requires SafeSegment(stem) && AllowedExt(ToLower(ext))
    ensures SafeFile(file)
  {
  }

  lemma SegmentOfChars(s: string)
    requires s != "" && NameChars(s)
    ensures SafeSegment(s) && '/' !in s && '\0' !in s
  {
    assert forall i | 0 <= i < |s| :: SegmentChar(s[i]);
    assert s[0] != '.';
  }

  lemma StemBefore(stem: string, ext: string)
    ensures TrimSuffix(stem + ext, ext) == stem
  {
    assert (stem + ext)[|stem|..] == ext && (stem + ext)[..|stem|] == stem;
  }

  lemma NoNulInParts(a: string, b: string)
    requires '\0' !in a && '\0' !in b
    ensures '\0' !in a + b
  {
  }

  lemma FileHasEnding(file: string)
    requires SafeFile(file)
    ensures var stem, ext := TrimSuffix(file, Ext(file)), Ext(file);
            file == stem + ext && stem != "" && NameChars(stem) && ImageEnding(ext)
  {
    assert forall c | SegmentChar(c) :: 'a' <= c <= 'z' || 'A' <= c <= 'Z' || '0' <= c <= '9' || c == '_' || c == '-';
  }

  /** The files that may be served are letters, digits, "_" and "-" with the ending of an image. */
  lemma SafeFileExactly(file: string)
    ensures SafeFile(file)
       <==> exists stem, ext :: file == stem + ext && stem != "" && NameChars(stem) && ImageEnding(ext)
  {
    if SafeFile(file) {
      FileHasEnding(file);
    }
    if stem, ext :| file == stem + ext && stem != "" && NameChars(stem) && ImageEnding(ext) {
      EndingIsExt(stem, ext);
    }
  }

  /** Below the root exactly these paths are served: a job of such characters, and such a file. */
  lemma ServedExactly(path: string, job: string, file: string)
    requires HasPrefix(path, ROOT)
    ensures Requested(path) == Some((job, file))
       <==> path == "/artifacts/" + job + "/" + file && job != "" && NameChars(job) && SafeFile(file)
  {
    if Requested(path) == Some((job, file)) {
      OnlySafePaths(path);
      CharsOfSegment(job);
    }
    if path == "/artifacts/" + job + "/" + file && job != "" && NameChars(job) && SafeFile(file) {
      SegmentOfChars(job);
      PathRoundTrip(job, file);
    }
  }

  lemma CharsOfSegment(s: string)
    requires SafeSegment(s)
    ensures s != "" && NameChars(s)
  {
    assert forall i | 0 <= i < |s| :: SegmentChar(s[i]);
  }
}
