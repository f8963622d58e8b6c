/** The screenshots that internal/worker publishes: their names, and which of them are shown to Codex. */
module Screenshots {
  import opened Text
  import opened Decimal
  import Artifacts

  predicate Alnum(c: char) {
    'a' <= c <= 'z' || 'A' <= c <= 'Z' || '0' <= c <= '9'
  }

  /** Letters and digits, with one dash for everything between them. */
  function Dashed(s: string): (b: string)
    ensures forall i | 0 <= i < |b| :: Alnum(b[i]) || b[i] == '-'
  {
    if s == "" then ""
    else
      var b, c := Dashed(s[..|s| - 1]), s[|s| - 1];
      if Alnum(c) then b + [c]
      else if b != "" && b[|b| - 1] == '-' then b
      else b + "-"
  }

  function Stem(name: string): string {
    var t := Trim(Dashed(TrimSuffix(Artifacts.Base(name), Artifacts.Ext(name))), IsDash);
    if t == "" then "screenshot" else t
  }

  function LowerExt(name: string): string {
    ToLower(Artifacts.Ext(name))
  }

  /** The names that are tried: plain, then with "-2", "-3" and so on. */
  function Candidate(stem: string, ext: string, n: nat): string {
    if n < 2 then ToLower(stem + ext) else ToLower(stem) + ("-" + Numeral(n) + ext)
  }

  lemma {:induction false} ToLowerAppend(a: string, b: string)
    ensures ToLower(a + b) == ToLower(a) + ToLower(b)
  {
  }

  lemma LowerStays(ext: string)
    requires Artifacts.AllowedExt(ext)
    ensures ToLower(ext) == ext
  {
  }

  lemma CandidatesDiffer(stem: string, ext: string, m: nat, n: nat)
    requires Artifacts.AllowedExt(ext) && 1 <= m < n
    ensures Candidate(stem, ext, m) != Candidate(stem, ext, n)
  {
    var low := ToLower(stem);
    if m < 2 {
      ToLowerAppend(stem, ext);
      assert |Candidate(stem, ext, m)| == |stem| + |ext|;
      assert |Candidate(stem, ext, n)| == |stem| + 1 + |Numeral(n)| + |ext|;
    } else if Candidate(stem, ext, m) == Candidate(stem, ext, n) {
      SameMiddle(low, Numeral(m), Numeral(n), ext);
      NumeralInjective(m, n);
    }
  }

  lemma SameMiddle(head: string, a: string, b: string, ext: string)
    requires head + ("-" + a + ext) == head + ("-" + b + ext)
    ensures a == b
  {
    var s, t := head + ("-" + a + ext), head + ("-" + b + ext);
    assert |a| == |b|;
    assert a == s[|head| + 1..|head| + 1 + |a|] && b == t[|head| + 1..|head| + 1 + |b|];
  }

  /** The first name that is free. */
  ghost predicate IsFirstFree(used: set<string>, stem: string, ext: string, n: nat) {
    && n >= 1 && Candidate(stem, ext, n) !in used
    && forall k | 1 <= k < n :: Candidate(stem, ext, k) in used
  }

  ghost predicate FirstFreeName(used: set<string>, stem: string, ext: string, name: string) {
    exists n :: IsFirstFree(used, stem, ext, n) && name == Candidate(stem, ext, n)
  }

  /** A name that is taken gets a number, from 2 on. */
  lemma NumberedName(used: set<string>, stem: string, ext: string, n: nat)
    requires n >= 2 && ToLower(stem + ext) in used && ToLower(stem) + "-" + Numeral(n) + ext !in used
    requires forall k | 2 <= k < n :: ToLower(stem) + "-" + Numeral(k) + ext in used
    ensures FirstFreeName(used, stem, ext, ToLower(stem) + "-" + Numeral(n) + ext)
  {
    forall k | 2 <= k <= n
      ensures Candidate(stem, ext, k) == ToLower(stem) + "-" + Numeral(k) + ext
    {
      assert ToLower(stem) + "-" + Numeral(k) + ext == ToLower(stem) + ("-" + Numeral(k) + ext);
    }
    assert IsFirstFree(used, stem, ext, n);
  }

  class NameAllocator {
    var used: set<string>

    constructor (existing: set<string>)
      ensures used == existing
    {
      used := existing;
    }

    /** safeScreenshotFileName: "" for a file of the wrong kind. */
    method SafeScreenshotFileName(name: string) returns (candidate: string)
      modifies this
      ensures if !Artifacts.AllowedExt(LowerExt(name)) then candidate == "" && used == old(used)
              else candidate !in old(used) && used == old(used) + {candidate}
      ensures Artifacts.AllowedExt(LowerExt(name)) ==> FirstFreeName(old(used), Stem(name), LowerExt(name), candidate)
    {
      var ext := ToLower(Artifacts.Ext(name));
      if !Artifacts.AllowedExt(ext) {
        return "";
      }
      var b := DashStem(TrimSuffix(Artifacts.Base(name), Artifacts.Ext(name)));
      var stem := Trim(b, IsDash);
      if stem == "" {
        stem := "screenshot";
      }
      candidate := FirstFree(stem, ext);
      used := used + {candidate};
    }

    /** The search ends because the names that are tried all differ and only finitely many are taken. */
    method FirstFree(stem: string, ext: string) returns (candidate: string)
      requires Artifacts.AllowedExt(ext)
      ensures candidate !in used
      ensures FirstFreeName(used, stem, ext, candidate)
    {
      candidate := ToLower(stem + ext);
      var i := 2;
      ghost var tried: set<string> := {};
      while candidate in used
        invariant i >= 2 && candidate == Candidate(stem, ext, i - 1)
        invariant tried <= used && Tried(stem, ext, i - 1, tried)
        decreases used - tried
      {
        Untried(stem, ext, i - 1, tried);
        tried := tried + {candidate};
        candidate := ToLower(stem) + ("-" + Numeral(i) + ext);
        i := i + 1;
      }
      AllTried(used, stem, ext, i - 1, tried);
    }
  }

  /** These are the first candidates, before the n-th. */
  ghost predicate Tried(stem: string, ext: string, n: nat, tried: set<string>) {
    && (forall k | 1 <= k < n :: Candidate(stem, ext, k) in tried)
    && (forall t | t in tried :: exists k :: 1 <= k < n && t == Candidate(stem, ext, k))
  }

  lemma AllTried(used: set<string>, stem: string, ext: string, n: nat, tried: set<string>)
    requires n >= 1 && Tried(stem, ext, n, tried) && tried <= used && Candidate(stem, ext, n) !in used
    ensures FirstFreeName(used, stem, ext, Candidate(stem, ext, n))
  {
    assert IsFirstFree(used, stem, ext, n);
  }

  method DashStem(raw: string) returns (b: string)
    ensures b == Dashed(raw)
  {
    b := "";
    var lastDash := false;
    for i := 0 to |raw|
      invariant b == Dashed(raw[..i])
      invariant lastDash <==> b != "" && b[|b| - 1] == '-'
    {
      assert raw[..i + 1][..i] == raw[..i];
      if Alnum(raw[i]) {
        b := b + [raw[i]];
        lastDash := false;
      } else if !lastDash {
        b := b + "-";
        lastDash := true;
      }
    }
    assert raw[..|raw|] == raw;
  }

  lemma Untried(stem: string, ext: string, n: nat, tried: set<string>)
    requires Artifacts.AllowedExt(ext) && n >= 1 && Tried(stem, ext, n, tried)
    ensures Candidate(stem, ext, n) !in tried
    ensures Tried(stem, ext, n + 1, tried + {Candidate(stem, ext, n)})
  {
    if Candidate(stem, ext, n) in tried {
      var k :| 1 <= k < n && Candidate(stem, ext, n) == Candidate(stem, ext, k);
      CandidatesDiffer(stem, ext, k, n);
    }
  }

  // --------------------------------------------------------- the server accepts them

  /** The characters of a published name, apart from its extension. */
  ghost predicate Plain(s: string) {
    s != "" && forall i | 0 <= i < |s| :: Alnum(s[i]) || s[i] == '-'
  }

  lemma TrimmedIsPlain(b: string)
    requires forall i | 0 <= i < |b| :: Alnum(b[i]) || b[i] == '-'
    ensures Trim(b, IsDash) != "" ==> Plain(Trim(b, IsDash))
  {
    var l, r := TrimParts(b, IsDash);
    var t := Trim(b, IsDash);
    assert forall i | 0 <= i < |t| :: t[i] == b[|l| + i];
  }

  lemma StemIsPlain(name: string)
    ensures Plain(Stem(name))
  {
    PlainOr(Dashed(TrimSuffix(Artifacts.Base(name), Artifacts.Ext(name))), "screenshot");
  }

  lemma PlainOr(b: string, fallback: string)
    requires (forall i | 0 <= i < |b| :: Alnum(b[i]) || b[i] == '-') && Plain(fallback)
    ensures Plain(if Trim(b, IsDash) == "" then fallback else Trim(b, IsDash))
  {
    TrimmedIsPlain(b);
  }

  lemma LowerIsPlain(s: string)
    requires Plain(s)
    ensures Plain(ToLower(s))
  {
  }

  lemma PlainAppend(a: string, b: string)
    requires Plain(a) && Plain(b)
    ensures Plain(a + b)
  {
  }

  lemma NumberIsPlain(n: nat)
    ensures Plain("-" + Numeral(n))
  {
    assert AllDigits(Numeral(n));
  }

  /** Every candidate is a plain name and the extension. */
  lemma CandidateParts(stem: string, ext: string, n: nat) returns (body: string)
    requires Plain(stem) && Artifacts.AllowedExt(ext)
    ensures Plain(body) && Candidate(stem, ext, n) == body + ext
  {
    LowerStays(ext);
    LowerIsPlain(stem);
    if n < 2 {
      body := ToLower(stem);
      ToLowerAppend(stem, ext);
    } else {
      body := ToLower(stem) + ("-" + Numeral(n));
      NumberIsPlain(n);
      PlainAppend(ToLower(stem), "-" + Numeral(n));
    }
  }

  lemma ExtShape(ext: string)
    requires Artifacts.AllowedExt(ext)
    ensures '/' !in ext && '\0' !in ext && |ext| > 1 && ext[0] == '.' && forall i | 1 <= i < |ext| :: ext[i] != '.'
  {
  }

  lemma PlainIsSegment(s: string)
    requires Plain(s)
    ensures Artifacts.SafeSegment(s) && '/' !in s && '\0' !in s
  {
    assert Alnum(s[0]) || s[0] == '-';
  }

  lemma PlainFileIsSafe(body: string, ext: string)
    requires Plain(body) && Artifacts.AllowedExt(ext)
    ensures Artifacts.SafeFile(body + ext)
  {
    var file := body + ext;
    ExtShape(ext);
    LowerStays(ext);
    Artifacts.ExtOfName(body, ext);
    PlainIsSegment(body);
    Artifacts.BaseOfName(file);
    assert TrimSuffix(file, ext) == body;
  }

  lemma AllocatedParts(used: set<string>, name: string, candidate: string) returns (body: string, ext: string)
    requires Artifacts.AllowedExt(LowerExt(name)) && FirstFreeName(used, Stem(name), LowerExt(name), candidate)
    ensures candidate == body + ext && Plain(body) && Artifacts.AllowedExt(ext)
  {
    var n :| IsFirstFree(used, Stem(name), LowerExt(name), n) && candidate == Candidate(Stem(name), LowerExt(name), n);
    StemIsPlain(name);
    body := CandidateParts(Stem(name), LowerExt(name), n);
    ext := LowerExt(name);
  }

  lemma AllocatedIsSafe(used: set<string>, name: string, candidate: string)
    requires Artifacts.AllowedExt(LowerExt(name)) && FirstFreeName(used, Stem(name), LowerExt(name), candidate)
    ensures Artifacts.SafeFile(candidate)
  {
    var body, ext := AllocatedParts(used, name, candidate);
    PlainFileIsSafe(body, ext);
  }

  lemma PlainUnreserved(body: string, ext: string)
    requires Plain(body) && Artifacts.AllowedExt(ext)
    ensures forall i | 0 <= i < |body + ext| :: Artifacts.Unreserved((body + ext)[i])
  {
    assert forall i | 0 <= i < |body| :: Artifacts.SegmentChar(body[i]);
    assert forall i | 0 <= i < |ext| :: Artifacts.Unreserved(ext[i]);
  }

  /** Every name that the allocator gives out is one that the server serves, and the path that is
      published for it leads to just this name of just this job. */
  lemma AllocatedIsServed(used: set<string>, name: string, candidate: string, job: string, escape: char -> string)
    requires Artifacts.AllowedExt(LowerExt(name)) && FirstFreeName(used, Stem(name), LowerExt(name), candidate)
    ensures Artifacts.SafeFile(candidate)
    ensures Artifacts.SafeSegment(job) ==>
              Artifacts.Requested(Artifacts.ArtifactPath(job, candidate, escape)) == Some((job, candidate))
  {
    var body, ext := AllocatedParts(used, name, candidate);
    AllocatedIsSafe(used, name, candidate);
    PlainUnreserved(body, ext);
    if Artifacts.SafeSegment(job) {
      Artifacts.EscapedRoundTrip(job, candidate, escape);
    }
  }

  /** Job ids, which CreateJob makes of the time, are safe path segments. */
  lemma JobIdIsSafe(nanos: nat)
    ensures Artifacts.SafeSegment("job_" + Numeral(nanos))
  {
    var id := "job_" + Numeral(nanos);
    assert forall i | 4 <= i < |id| :: id[i] == Numeral(nanos)[i - 4];
  }

  // ------------------------------------------------------------------- publishing

  const MAX_SCREENSHOTS := 12

  /** What becomes of a copy: it may fail before or after the target file is there. */
  datatype Copy = Whole | Part | Nothing

  /** A file in the screenshot directory: its name, whether it is a regular image of a fitting size
      with a name that is not suspicious, and what its copy will come to. */
  datatype Source = Source(name: string, fit: bool, copy: Copy)

  predicate Publishable(e: Source) {
    e.fit && Artifacts.AllowedExt(LowerExt(e.name))
  }

  /** The names that are taken, the files in the public directory, and what was published so far. */
  datatype Shelf = Shelf(used: set<string>, files: set<string>, published: seq<string>)

  function Placed(e: Source, s: Shelf, name: string): Shelf {
    Shelf(s.used + {name}, if e.copy == Nothing then s.files else s.files + {name},
          if e.copy == Whole then s.published + [name] else s.published)
  }

  ghost predicate Places(e: Source, s: Shelf, t: Shelf) {
    if |s.published| >= MAX_SCREENSHOTS || !Publishable(e) then t == s
    else exists name :: FirstFreeName(s.used, Stem(e.name), LowerExt(e.name), name) && t == Placed(e, s, name)
  }

  /** What the sources, one after the other, make of the shelf. */
  ghost predicate Fills(entries: seq<Source>, s: Shelf, t: Shelf)
    decreases |entries|, 1
  {
    if entries == [] then t == s else exists mid :: FillsVia(entries, s, mid, t)
  }

  ghost predicate FillsVia(entries: seq<Source>, s: Shelf, mid: Shelf, t: Shelf)
    requires entries != []
    decreases |entries|, 0
  {
    Fills(entries[..|entries| - 1], s, mid) && Places(entries[|entries| - 1], mid, t)
  }

  /** The public directory of a job. */
  class Gallery {
    var files: set<string>

    constructor ()
      ensures files == {}
    {
      files := {};
    }

    /** The loop of publishScreenshotArtifacts. */
    method Publish(entries: seq<Source>) returns (published: seq<string>)
      modifies this
      ensures exists used :: Fills(entries, Shelf(old(files), old(files), []), Shelf(used, files, published))
    {
      published := [];
      var allocator := new NameAllocator(files);
      ghost var start := Shelf(files, files, []);
      for i := 0 to |entries|
        invariant fresh(allocator)
        invariant Fills(entries[..i], start, Shelf(allocator.used, files, published))
      {
        ghost var shelf := Shelf(allocator.used, files, published);
        published := PublishNext(entries[i], allocator, published);
        OneMore(entries, i, start, shelf, Shelf(allocator.used, files, published));
      }
      assert entries[..|entries|] == entries;
    }

    /** One turn of that loop. */
    method PublishNext(e: Source, allocator: NameAllocator, published: seq<string>) returns (more: seq<string>)
      modifies this, allocator
      ensures Places(e, Shelf(old(allocator.used), old(files), published), Shelf(allocator.used, files, more))
    {
      more := published;
      if |published| < MAX_SCREENSHOTS && Publishable(e) {
        var name := allocator.SafeScreenshotFileName(e.name);
        if e.copy != Nothing {
          files := files + {name};
        }
        if e.copy == Whole {
          more := published + [name];
        }
        assert Shelf(allocator.used, files, more)
            == Placed(e, Shelf(old(allocator.used), old(files), published), name);
      }
    }
  }

  lemma OneMore(entries: seq<Source>, i: nat, s: Shelf, mid: Shelf, t: Shelf)
    requires i < |entries| && Fills(entries[..i], s, mid) && Places(entries[i], mid, t)
    ensures Fills(entries[..i + 1], s, t)
  {
    assert entries[..i + 1][..i] == entries[..i];
    assert FillsVia(entries[..i + 1], s, mid, t);
  }

  ghost predicate NewFiles(before: set<string>, files: set<string>, published: seq<string>) {
    && (forall name | name in files - before :: Artifacts.SafeFile(name))
    && (forall i | 0 <= i < |published| :: published[i] in files - before)
  }

  /** Nothing is overwritten or removed; every new file has a name that was free and is served; and what
      was published are new files, each once. */
  ghost predicate Tidy(before: set<string>, s: Shelf) {
    && before <= s.files <= s.used
    && NewFiles(before, s.files, s.published)
    && (forall i, j | 0 <= i < j < |s.published| :: s.published[i] != s.published[j])
    && |s.published| <= MAX_SCREENSHOTS
  }

  lemma OneMoreDistinct(published: seq<string>, name: string)
    requires name !in published
    requires forall i, j | 0 <= i < j < |published| :: published[i] != published[j]
    ensures forall i, j | 0 <= i < j < |published + [name]| :: (published + [name])[i] != (published + [name])[j]
  {
  }

  lemma NewFile(before: set<string>, files: set<string>, published: seq<string>, name: string)
    requires NewFiles(before, files, published) && name !in before && Artifacts.SafeFile(name)
    ensures NewFiles(before, files + {name}, published) && NewFiles(before, files + {name}, published + [name])
  {
  }

  lemma PlacedTidy(before: set<string>, e: Source, s: Shelf, name: string)
    requires Tidy(before, s) && |s.published| < MAX_SCREENSHOTS
    requires name !in s.used && Artifacts.SafeFile(name)
    ensures Tidy(before, Placed(e, s, name))
  {
    assert NewFiles(before, s.files, s.published) && name !in s.published;
    NewFile(before, s.files, s.published, name);
    OneMoreDistinct(s.published, name);
  }

  lemma PlacesTidy(before: set<string>, e: Source, s: Shelf, t: Shelf)
    requires Tidy(before, s) && Places(e, s, t)
    ensures Tidy(before, t)
  {
    if |s.published| < MAX_SCREENSHOTS && Publishable(e) {
      var name :| FirstFreeName(s.used, Stem(e.name), LowerExt(e.name), name) && t == Placed(e, s, name);
      AllocatedIsSafe(s.used, e.name, name);
      PlacedTidy(before, e, s, name);
    }
  }

  lemma {:induction false} FillsTidy(entries: seq<Source>, before: set<string>, t: Shelf)
    requires Fills(entries, Shelf(before, before, []), t)
    ensures Tidy(before, t)
  {
    if entries != [] {
      var s :| FillsVia(entries, Shelf(before, before, []), s, t);
      FillsTidy(entries[..|entries| - 1], before, s);
      PlacesTidy(before, entries[|entries| - 1], s, t);
    }
  }

  /** How many sources could be published. */
  function Wholes(entries: seq<Source>): nat {
    if entries == [] then 0
    else
      var e := entries[|entries| - 1];
      Wholes(entries[..|entries| - 1]) + if Publishable(e) && e.copy == Whole then 1 else 0
  }

  /** Every screenshot that can be copied is published, up to the first twelve. */
  lemma {:induction false} FillsUp(entries: seq<Source>, before: set<string>, t: Shelf)
    requires Fills(entries, Shelf(before, before, []), t)
    ensures |t.published| == if Wholes(entries) < 12 then Wholes(entries) else 12
  {
    if entries != [] {
      var e := entries[|entries| - 1];
      var s :| FillsVia(entries, Shelf(before, before, []), s, t);
      FillsUp(entries[..|entries| - 1], before, s);
    }
  }

  // --------------------------------------------------- the screenshots of one review

  const MARKERS := [
    "secret", "token", "password", "passwd", "private-key", "private_key", "api-key", "api_key",
    "access-key", "access_key"]

  predicate HasMarker(low: string) {
    exists m | m in MARKERS :: Contains(low, m)
  }

  /** suspiciousArtifactName */
  predicate Suspicious(name: string) {
    HasMarker(ToLower(name))
  }

  /** The order of file names: os.ReadDir and sort.Strings compare bytes, and UTF-8 keeps the order of
      the characters. */
  predicate Below(a: string, b: string) {
    if b == "" then false
    else if a == "" then true
    else a[0] < b[0] || (a[0] == b[0] && Below(a[1..], b[1..]))
  }

  ghost predicate Sorted(names: seq<string>) {
    forall i, j | 0 <= i < j < |names| :: Below(names[i], names[j])
  }

  /** A directory listing: the names in order, each once. */
  ghost predicate Lists(names: seq<string>, files: set<string>) {
    Sorted(names) && forall name :: name in names <==> name in files
  }

  /** The names that may be shown: not suspicious, of the right kind, and regular files that are not too large. */
  predicate Shown(name: string, regular: string -> bool) {
    !Suspicious(name) && regular(name) && Artifacts.AllowedExt(LowerExt(name))
  }

  /** Those of the names that satisfy a condition, in their order. */
  function Kept(names: seq<string>, keep: string -> bool): seq<string> {
    if names == [] then []
    else Kept(names[..|names| - 1], keep) + if keep(names[|names| - 1]) then [names[|names| - 1]] else []
  }

  method ImageFiles(names: seq<string>, regular: string -> bool) returns (images: seq<string>)
    ensures images == Kept(names, name => Shown(name, regular))
  {
    images := [];
    for i := 0 to |names|
      invariant images == Kept(names[..i], name => Shown(name, regular))
    {
      assert names[..i + 1][..i] == names[..i];
      if Suspicious(names[i]) || !regular(names[i]) || !Artifacts.AllowedExt(LowerExt(names[i])) {
        continue;
      }
      images := images + [names[i]];
    }
    assert names[..|names|] == names;
  }

  /** The files that are shown now and were not known before. */
  function NewImages(names: seq<string>, known: set<string>, regular: string -> bool): seq<string> {
    Kept(Kept(names, name => Shown(name, regular)), name => name !in known)
  }

  /** screenshotFileSet of publicScreenshotImageFiles: what a listing shows. */
  function Known(names: seq<string>, regular: string -> bool): set<string> {
    var shown := Kept(names, name => Shown(name, regular));
    set name | name in shown
  }

  /** publicScreenshotImageFilesSince */
  method ImageFilesSince(names: seq<string>, before: set<string>, regular: string -> bool) returns (images: seq<string>)
    ensures images == NewImages(names, before, regular)
  {
    var files := ImageFiles(names, regular);
    images := [];
    for i := 0 to |files|
      invariant images == Kept(files[..i], name => name !in before)
    {
      assert files[..i + 1][..i] == files[..i];
      if files[i] !in before {
        images := images + [files[i]];
      }
    }
    assert files[..|files|] == files;
  }

  lemma {:induction false} KeptExactly(names: seq<string>, keep: string -> bool)
    ensures forall name :: name in Kept(names, keep) <==> name in names && keep(name)
  {
    if names != [] {
      KeptExactly(names[..|names| - 1], keep);
      assert forall name :: name in names <==> name in names[..|names| - 1] || name == names[|names| - 1];
    }
  }

  lemma {:induction false} KeptSorted(names: seq<string>, keep: string -> bool)
    requires Sorted(names)
    ensures Sorted(Kept(names, keep))
  {
    if names != [] {
      var front, last := names[..|names| - 1], names[|names| - 1];
      KeptSorted(front, keep);
      KeptExactly(front, keep);
      assert forall name | name in front :: Below(name, last);
      var kept := Kept(front, keep);
      assert forall i | 0 <= i < |kept| :: kept[i] in front;
    }
  }

  /** A review returns, in order, exactly the files that appeared during it and may be shown, published or
      not: none that was there before, and none that renaming has made suspicious. */
  lemma SinceExactly(names: seq<string>, earlier: seq<string>, now: set<string>, before: set<string>,
                     regular: string -> bool)
    requires Lists(names, now) && Lists(earlier, before) && before <= now
    ensures var images := NewImages(names, Known(earlier, regular), regular);
            && Sorted(images)
            && forall name :: name in images <==> name in now && name !in before && Shown(name, regular)
  {
    var shown := name => Shown(name, regular);
    var known := Known(earlier, regular);
    var files := Kept(names, shown);
    KeptSorted(names, shown);
    KeptSorted(files, name => name !in known);
    KeptExactly(names, shown);
    KeptExactly(earlier, shown);
    KeptExactly(files, name => name !in known);
  }
}
