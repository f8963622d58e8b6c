/** What a visual review returns, compared with what it published, and how that reaches Codex. */
module Reviews {
  import opened Text
  import opened Screenshots
  import opened Suspicion
  import Artifacts
  import Implementation
  import Images
  import ImageInputs
  import Guarantees

  // -------------------------------------------------------- files that were not published

  /** The sources whose copies broke off after the target file was there, as far as they were reached. */
  function Broken(entries: seq<Source>): seq<Source> {
    if entries == [] then []
    else
      var front, e := Broken(entries[..|entries| - 1]), entries[|entries| - 1];
      if |Taken(entries[..|entries| - 1])| < MAX_SCREENSHOTS && Publishable(e) && e.copy == Part then front + [e]
      else front
  }

  /** Every file was there before, or was published, or is left over from a broken copy. */
  ghost predicate Accounts(before: set<string>, t: Shelf, left: seq<string>) {
    && (forall name :: name in t.files <==> name in before || name in t.published || name in left)
    && (forall name | name in left :: name !in before && name !in t.published)
  }

  lemma PlacedAccounts(before: set<string>, e: Source, s: Shelf, left: seq<string>, name: string)
    requires Tidy(before, s) && Accounts(before, s, left) && name !in s.used
    ensures Accounts(before, Placed(e, s, name), if e.copy == Part then left + [name] else left)
  {
    assert name !in s.files;
  }

  lemma PlacesLeft(before: set<string>, e: Source, s: Shelf, t: Shelf, sources: seq<Source>, left: seq<string>)
    returns (more: seq<string>)
    requires Tidy(before, s) && Accounts(before, s, left) && AllNamedAfter(left, sources) && Places(e, s, t)
    ensures Accounts(before, t, more)
    ensures AllNamedAfter(more,
              if |s.published| < MAX_SCREENSHOTS && Publishable(e) && e.copy == Part then sources + [e] else sources)
  {
    more := left;
    if |s.published| < MAX_SCREENSHOTS && Publishable(e) {
      var name :| FirstFreeName(s.used, Stem(e.name), LowerExt(e.name), name) && t == Placed(e, s, name);
      PlacedAccounts(before, e, s, left, name);
      if e.copy == Part {
        more := left + [name];
        assert NamedAfter(name, e);
        OneMoreNamed(left, sources, name, e);
      }
    }
  }

  /** The new files that were not published belong, one by one, to the broken copies. */
  lemma {:induction false} FillsLeft(entries: seq<Source>, before: set<string>, t: Shelf) returns (left: seq<string>)
    requires Fills(entries, Shelf(before, before, []), t)
    ensures Accounts(before, t, left) && AllNamedAfter(left, Broken(entries))
  {
    if entries == [] {
      left := [];
    } else {
      var front := entries[..|entries| - 1];
      var s :| FillsVia(entries, Shelf(before, before, []), s, t);
      var some := FillsLeft(front, before, s);
      FillsTidy(front, before, s);
      FillsNamed(front, before, s);
      left := PlacesLeft(before, entries[|entries| - 1], s, t, Broken(front), some);
    }
  }

  // ------------------------------------------------------------ the returned images

  /** A review: what it published on a shelf, the listings after and before, and new files that are
      regular and not too large. */
  ghost predicate Review(entries: seq<Source>, before: set<string>, t: Shelf, names: seq<string>, earlier: seq<string>,
                         regular: string -> bool) {
    && Fills(entries, Shelf(before, before, []), t)
    && Lists(names, t.files) && Lists(earlier, before)
    && forall name | name in t.files && name !in before :: regular(name)
  }

  function Returned(names: seq<string>, earlier: seq<string>, regular: string -> bool): seq<string> {
    NewImages(names, Known(earlier, regular), regular)
  }

  lemma ReturnedExactly(entries: seq<Source>, before: set<string>, t: Shelf, names: seq<string>, earlier: seq<string>,
                        regular: string -> bool)
    requires Review(entries, before, t, names, earlier, regular)
    ensures Sorted(Returned(names, earlier, regular))
    ensures forall name :: name in Returned(names, earlier, regular)
                      <==> name in t.files && name !in before && !Suspicious(name)
  {
    FillsTidy(entries, before, t);
    SinceExactly(names, earlier, t.files, before, regular);
    forall name | name in t.files && name !in before
      ensures Shown(name, regular) <==> !Suspicious(name)
    {
      assert name in t.files - before;
      assert Artifacts.SafeFile(name);
    }
  }

  ghost predicate AllSuspicious(sources: seq<Source>) {
    forall i | 0 <= i < |sources| :: !HarmlessStem(sources[i])
  }

  /** The files left by broken copies are all suspicious exactly if the stems of their sources are. */
  lemma LeftVerdict(left: seq<string>, sources: seq<Source>)
    requires AllNamedAfter(left, sources)
    ensures (forall name | name in left :: Suspicious(name)) <==> AllSuspicious(sources)
  {
    forall i | 0 <= i < |left|
      ensures Suspicious(left[i]) <==> !HarmlessStem(sources[i])
    {
      NamedVerdict(left[i], sources[i]);
    }
    if AllSuspicious(sources) {
      forall name | name in left
        ensures Suspicious(name)
      {
        var i :| 0 <= i < |left| && left[i] == name;
        assert !HarmlessStem(sources[i]);
      }
    }
    if forall name | name in left :: Suspicious(name) {
      forall i | 0 <= i < |sources|
        ensures !HarmlessStem(sources[i])
      {
        assert left[i] in left;
      }
    }
  }

  ghost predicate OnlyPublished(images: seq<string>, published: seq<string>) {
    forall name | name in images :: name in published
  }

  /** The names published during the review that are not suspicious, in order. */
  ghost predicate ArePublished(images: seq<string>, published: seq<string>) {
    Sorted(images) && forall name :: name in images <==> name in published && !Suspicious(name)
  }

  lemma LeftDecides(before: set<string>, t: Shelf, left: seq<string>, images: seq<string>)
    requires Accounts(before, t, left) && Sorted(images) && forall name | name in t.published :: name !in before
    requires forall name :: name in images <==> name in t.files && name !in before && !Suspicious(name)
    ensures OnlyPublished(images, t.published) <==> forall name | name in left :: Suspicious(name)
    ensures ArePublished(images, t.published) <==> OnlyPublished(images, t.published)
  {
    if OnlyPublished(images, t.published) {
      forall name | name in left
        ensures Suspicious(name)
      {
        assert name in t.files && name !in t.published;
      }
    }
  }

  lemma PublishedAreNew(entries: seq<Source>, before: set<string>, t: Shelf)
    requires Fills(entries, Shelf(before, before, []), t)
    ensures forall name | name in t.published :: name !in before
  {
    FillsTidy(entries, before, t);
    forall name | name in t.published
      ensures name !in before
    {
      var i :| 0 <= i < |t.published| && t.published[i] == name;
      assert t.published[i] in t.files - before;
    }
  }

  /** A review returns only what it published, and then exactly the published names that are not
      suspicious, in order, if and only if every copy that broke off has a suspicious stem. */
  lemma PublishedExactly(entries: seq<Source>, before: set<string>, t: Shelf, names: seq<string>, earlier: seq<string>,
                         regular: string -> bool)
    requires Review(entries, before, t, names, earlier, regular)
    ensures OnlyPublished(Returned(names, earlier, regular), t.published) <==> AllSuspicious(Broken(entries))
    ensures ArePublished(Returned(names, earlier, regular), t.published) <==> AllSuspicious(Broken(entries))
  {
    ReturnedExactly(entries, before, t, names, earlier, regular);
    var left := FillsLeft(entries, before, t);
    LeftVerdict(left, Broken(entries));
    PublishedAreNew(entries, before, t);
    LeftDecides(before, t, left, Returned(names, earlier, regular));
  }

  predicate PublishedFrom(name: string, published: seq<string>, sources: seq<Source>) {
    |published| == |sources| && exists i | 0 <= i < |published| :: published[i] == name && HarmlessStem(sources[i])
  }

  /** In terms of the sources: then the images are the published names whose sources have harmless stems. */
  lemma ImagesOfSources(entries: seq<Source>, before: set<string>, t: Shelf, names: seq<string>, earlier: seq<string>,
                        regular: string -> bool)
    requires Review(entries, before, t, names, earlier, regular) && AllSuspicious(Broken(entries))
    ensures Sorted(Returned(names, earlier, regular))
    ensures forall name :: name in Returned(names, earlier, regular)
                      <==> PublishedFrom(name, t.published, Taken(entries))
  {
    PublishedExactly(entries, before, t, names, earlier, regular);
    FillsNamed(entries, before, t);
    forall i | 0 <= i < |t.published|
      ensures Suspicious(t.published[i]) <==> !HarmlessStem(Taken(entries)[i])
    {
      NamedVerdict(t.published[i], Taken(entries)[i]);
    }
    forall name
      ensures name in t.published && !Suspicious(name) <==> PublishedFrom(name, t.published, Taken(entries))
    {
    }
  }

  // ------------------------------------------------------------- a half-written screenshot

  /** A copy that breaks off publishes nothing, and yet its file is returned; on its own it lets the
      review pass. */
  lemma HalfWrittenPasses(e: Source, regular: string -> bool) returns (t: Shelf, names: seq<string>)
    requires Publishable(e) && e.copy == Part && HarmlessStem(e)
    requires regular(Candidate(Stem(e.name), LowerExt(e.name), 1))
    ensures Review([e], {}, t, names, [], regular)
    ensures t.published == [] && |Returned(names, [], regular)| > 0
    ensures Implementation.Passed(Implementation.Visual(true, Returned(names, [], regular)))
  {
    var name: string;
    t, name := HalfWritten(e);
    names := [name];
    SingleReview([e], t, name, regular);
    ReturnedExactly([e], {}, t, names, [], regular);
    assert name in Returned(names, [], regular);
  }

  lemma SingleReview(entries: seq<Source>, t: Shelf, name: string, regular: string -> bool)
    requires Fills(entries, Shelf({}, {}, []), t) && t.files == {name} && regular(name)
    ensures Review(entries, {}, t, [name], [], regular)
  {
  }

  lemma HalfWritten(e: Source) returns (t: Shelf, name: string)
    requires Publishable(e) && e.copy == Part && HarmlessStem(e)
    ensures name == Candidate(Stem(e.name), LowerExt(e.name), 1) && !Suspicious(name)
    ensures Fills([e], Shelf({}, {}, []), t) && t.published == [] && t.files == {name}
  {
    var start := Shelf({}, {}, []);
    name := Candidate(Stem(e.name), LowerExt(e.name), 1);
    FirstIsFree(Stem(e.name), LowerExt(e.name));
    PlacesOne(e, start, name);
    t := Placed(e, start, name);
    FillsOne(e, start, t);
    CandidateVerdict(Stem(e.name), LowerExt(e.name), 1);
  }

  /** There are such sources. */
  lemma SimpleSource(name: string, e: Source)
    requires name == "a.png" && e == Source(name, true, Part)
    ensures Publishable(e) && HarmlessStem(e)
  {
    assert name == "a" + ".png";
    Artifacts.ExtOfName("a", ".png");
    Artifacts.BaseOfName(name);
    LowerStays(".png");
    SimpleStem(name);
    SimpleWord(Stem(name));
  }

  lemma SimpleStem(name: string)
    requires name == "a.png" && Artifacts.Ext(name) == ".png" && Artifacts.Base(name) == name
    ensures Stem(name) == "a"
  {
    assert TrimSuffix(name, ".png") == "a";
    DashedAlnum("", "a");
    assert "" + "a" == "a" && Dashed("") == "";
    TrimTight("a", IsDash);
  }

  lemma SimpleWord(stem: string)
    requires stem == "a"
    ensures !Suspicious(stem)
  {
    assert ToLower(stem) == stem;
    NoMarker(stem);
  }

  // ------------------------------------------------------------------ on the way to Codex

  /** The paths of published files. */
  function Paths(dir: string, names: seq<string>): seq<string> {
    seq(|names|, i requires 0 <= i < |names| => dir + "/" + names[i])
  }

  lemma {:induction false} BelowDiffers(a: string)
    ensures !Below(a, a)
  {
    if a != "" {
      BelowDiffers(a[1..]);
    }
  }

  lemma PathDiffers(dir: string, a: string, b: string)
    requires a != b
    ensures dir + "/" + a != dir + "/" + b
  {
    assert (dir + "/" + a)[|dir| + 1..] == a && (dir + "/" + b)[|dir| + 1..] == b;
  }

  lemma PathIsNotBlank(dir: string, name: string)
    ensures !Blank(dir + "/" + name)
  {
    BlankIsAllSpace(dir + "/" + name);
    assert (dir + "/" + name)[|dir|] == '/';
  }

  /** Files of a sorted listing are fresh images, unless the issue has images in the same directory. */
  lemma PathsAreFresh(dir: string, names: seq<string>, base: seq<string>)
    requires Sorted(names) && forall file | file in base :: !HasPrefix(file, dir + "/")
    ensures Images.Fresh(base, Paths(dir, names))
  {
    var paths := Paths(dir, names);
    forall i, j | 0 <= i < j < |paths|
      ensures paths[i] != paths[j]
    {
      BelowDiffers(names[i]);
      PathDiffers(dir, names[i], names[j]);
    }
    forall file | file in paths
      ensures !Blank(file) && file !in base
    {
      var i :| 0 <= i < |paths| && paths[i] == file;
      PathIsNotBlank(dir, names[i]);
      assert HasPrefix(file, dir + "/");
    }
  }

  /** The screenshots that a review returns reach the next Codex run exactly once each, behind the images
      of the issue, as long as none of these lies in the public directory. */
  lemma ReturnedReachCodex(cfg: Implementation.Config, o: Implementation.Oracle, log: Implementation.Log,
                           base: seq<string>, i: nat, dir: string, names: seq<string>, now: set<string>,
                           earlier: seq<string>, before: set<string>, regular: string -> bool)
    requires Guarantees.CodexRuns(log) == 0 && Guarantees.VisualRuns(log) == 0
    requires Lists(names, now) && Lists(earlier, before) && before <= now
    requires forall file | file in base :: !HasPrefix(file, dir + "/")
    requires var end := Guarantees.LogOf(Implementation.Turns(cfg, o, base, Implementation.Start(o, log, base)));
             && i < |end| && end[i].Codex?
             && ImageInputs.Unseen(end[..i]) == Some(Paths(dir, Returned(names, earlier, regular)))
    ensures var end := Guarantees.LogOf(Implementation.Turns(cfg, o, base, Implementation.Start(o, log, base)));
            end[i].inputs == Images.Merged(base) + Paths(dir, Returned(names, earlier, regular))
  {
    SinceExactly(names, earlier, now, before, regular);
    PathsAreFresh(dir, Returned(names, earlier, regular), base);
    ImageInputs.ReviewReachesCodex(cfg, o, log, base, i);
  }
}
