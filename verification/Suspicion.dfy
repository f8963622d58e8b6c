/** Which published screenshots are withheld from Codex because of their new names, and why only those. */
module Suspicion {
  import opened Text
  import opened Decimal
  import opened Screenshots
  import Artifacts

  // -------------------------------------------------- what renaming adds at the end of a name

  /** What all markers have in common. */
  ghost predicate Marker(m: string) {
    && |m| >= 5 && m[|m| - 1] != '-'
    && forall i | 0 <= i < |m| :: m[i] != '.' && !IsDigit(m[i])
  }

  lemma MarkersAreMarkers(m: string)
    requires m in MARKERS
    ensures Marker(m)
  {
  }

  lemma {:induction false} ContainsIsShorter(s: string, m: string)
    requires Contains(s, m)
    ensures |m| <= |s|
  {
    if !HasPrefix(s, m) {
      ContainsIsShorter(s[1..], m);
    }
  }

  lemma NoMarkerInExt(ext: string, m: string)
    requires Marker(m) && 0 < |ext| <= 5 && ext[0] == '.'
    ensures !Contains(ext, m)
  {
    assert m[0] != ext[0];
    if Contains(ext[1..], m) {
      ContainsIsShorter(ext[1..], m);
    }
  }

  lemma {:induction false} NoMarkerInDigits(digits: string, ext: string, m: string)
    requires Marker(m) && 0 < |ext| <= 5 && ext[0] == '.' && AllDigits(digits)
    ensures !Contains(digits + ext, m)
  {
    if digits == "" {
      NoMarkerInExt(ext, m);
      assert digits + ext == ext;
    } else {
      NoMarkerInDigits(digits[1..], ext, m);
      assert (digits + ext)[1..] == digits[1..] + ext;
      assert m[0] != digits[0] == (digits + ext)[0];
    }
  }

  lemma NoMarkerInNumber(digits: string, ext: string, m: string)
    requires Marker(m) && 0 < |ext| <= 5 && ext[0] == '.' && digits != "" && AllDigits(digits)
    ensures !Contains("-" + digits + ext, m)
  {
    var tail := "-" + digits + ext;
    NoMarkerInDigits(digits, ext, m);
    assert tail[1..] == digits + ext;
    assert m[1] != digits[0] == tail[1];
  }

  /** A tail that no marker can reach into: a dot, or a dash and a digit. */
  ghost predicate Seam(tail: string) {
    tail != "" && (tail[0] == '.' || (|tail| > 1 && tail[0] == '-' && IsDigit(tail[1])))
  }

  lemma NoPrefixAcross(low: string, tail: string, m: string)
    requires Marker(m) && Seam(tail)
    ensures HasPrefix(low + tail, m) <==> HasPrefix(low, m)
  {
    var s := low + tail;
    assert s[|low|] == tail[0] && (|tail| > 1 ==> s[|low| + 1] == tail[1]);
    assert |m| <= |low| ==> s[..|m|] == low[..|m|];
  }

  /** Appending such a tail makes no marker and breaks none. */
  lemma {:induction false} TailAddsNothing(low: string, tail: string, m: string)
    requires Marker(m) && Seam(tail) && !Contains(tail, m)
    ensures Contains(low + tail, m) <==> Contains(low, m)
  {
    NoPrefixAcross(low, tail, m);
    if low == "" {
      assert low + tail == tail;
    } else {
      assert (low + tail)[1..] == low[1..] + tail;
      TailAddsNothing(low[1..], tail, m);
    }
  }

  lemma TailKeepsVerdict(low: string, tail: string)
    requires Seam(tail) && forall m | m in MARKERS :: Marker(m) && !Contains(tail, m)
    ensures HasMarker(low + tail) <==> HasMarker(low)
  {
    forall m | m in MARKERS
      ensures Contains(low + tail, m) <==> Contains(low, m)
    {
      TailAddsNothing(low, tail, m);
    }
  }

  lemma ExtKeepsVerdict(low: string, ext: string)
    requires Artifacts.AllowedExt(ext)
    ensures HasMarker(low + ext) <==> HasMarker(low)
  {
    forall m | m in MARKERS
      ensures Marker(m) && !Contains(ext, m)
    {
      MarkersAreMarkers(m);
      NoMarkerInExt(ext, m);
    }
    TailKeepsVerdict(low, ext);
  }

  lemma NumberKeepsVerdict(low: string, digits: string, ext: string)
    requires Artifacts.AllowedExt(ext) && digits != "" && AllDigits(digits)
    ensures HasMarker(low + ("-" + digits + ext)) <==> HasMarker(low)
  {
    forall m | m in MARKERS
      ensures Marker(m) && !Contains("-" + digits + ext, m)
    {
      MarkersAreMarkers(m);
      NoMarkerInNumber(digits, ext, m);
    }
    TailKeepsVerdict(low, "-" + digits + ext);
  }

  lemma LowerTwice(s: string)
    ensures ToLower(ToLower(s)) == ToLower(s)
  {
  }

  lemma LowerNumber(digits: string, ext: string)
    requires Artifacts.AllowedExt(ext) && AllDigits(digits)
    ensures ToLower("-" + digits + ext) == "-" + digits + ext
  {
    LowerStays(ext);
    ToLowerAppend("-" + digits, ext);
    assert ToLower("-" + digits) == "-" + digits;
  }

  /** Whichever candidate is chosen, its name is suspicious exactly if the stem is. */
  lemma CandidateVerdict(stem: string, ext: string, n: nat)
    requires Artifacts.AllowedExt(ext)
    ensures Suspicious(Candidate(stem, ext, n)) <==> Suspicious(stem)
  {
    LowerTwice(stem);
    if n < 2 {
      LowerTwice(stem + ext);
      ToLowerAppend(stem, ext);
      LowerStays(ext);
      ExtKeepsVerdict(ToLower(stem), ext);
    } else {
      ToLowerAppend(ToLower(stem), "-" + Numeral(n) + ext);
      LowerNumber(Numeral(n), ext);
      NumberKeepsVerdict(ToLower(stem), Numeral(n), ext);
    }
  }

  /** The exact condition: a screenshot is published under a suspicious name if and only if the stem of
      its own name, with dashes for whatever is no letter or digit, is suspicious. */
  lemma RenamedExactly(used: set<string>, name: string, candidate: string)
    requires Artifacts.AllowedExt(LowerExt(name)) && FirstFreeName(used, Stem(name), LowerExt(name), candidate)
    ensures Suspicious(candidate) <==> Suspicious(Stem(name))
  {
    var n :| IsFirstFree(used, Stem(name), LowerExt(name), n) && candidate == Candidate(Stem(name), LowerExt(name), n);
    CandidateVerdict(Stem(name), LowerExt(name), n);
  }

  // --------------------------------------------------------------- a whole review

  /** The sources that are published, in order. */
  function Taken(entries: seq<Source>): seq<Source> {
    if entries == [] then []
    else
      var front, e := Taken(entries[..|entries| - 1]), entries[|entries| - 1];
      if |front| < MAX_SCREENSHOTS && Publishable(e) && e.copy == Whole then front + [e] else front
  }

  ghost predicate NamedAfter(name: string, e: Source) {
    exists n: nat :: name == Candidate(Stem(e.name), LowerExt(e.name), n) && Artifacts.AllowedExt(LowerExt(e.name))
  }

  ghost predicate AllNamedAfter(published: seq<string>, sources: seq<Source>) {
    |published| == |sources| && forall i | 0 <= i < |published| :: NamedAfter(published[i], sources[i])
  }

  lemma NamedVerdict(name: string, e: Source)
    requires NamedAfter(name, e)
    ensures Suspicious(name) <==> Suspicious(Stem(e.name))
  {
    var n: nat :| name == Candidate(Stem(e.name), LowerExt(e.name), n);
    CandidateVerdict(Stem(e.name), LowerExt(e.name), n);
  }

  lemma OneMoreNamed(published: seq<string>, sources: seq<Source>, name: string, e: Source)
    requires AllNamedAfter(published, sources) && NamedAfter(name, e)
    ensures AllNamedAfter(published + [name], sources + [e])
  {
  }

  lemma PlacesNamed(e: Source, s: Shelf, t: Shelf, sources: seq<Source>)
    requires Places(e, s, t) && AllNamedAfter(s.published, sources)
    ensures AllNamedAfter(t.published,
              if |sources| < MAX_SCREENSHOTS && Publishable(e) && e.copy == Whole then sources + [e] else sources)
  {
    if |s.published| < MAX_SCREENSHOTS && Publishable(e) {
      var name :| FirstFreeName(s.used, Stem(e.name), LowerExt(e.name), name) && t == Placed(e, s, name);
      assert NamedAfter(name, e);
      OneMoreNamed(s.published, sources, name, e);
    }
  }

  /** The published names belong, one by one, to the first twelve sources that could be copied. */
  lemma {:induction false} FillsNamed(entries: seq<Source>, before: set<string>, t: Shelf)
    requires Fills(entries, Shelf(before, before, []), t)
    ensures AllNamedAfter(t.published, Taken(entries))
  {
    if entries != [] {
      var s :| FillsVia(entries, Shelf(before, before, []), s, t);
      FillsNamed(entries[..|entries| - 1], before, s);
      PlacesNamed(entries[|entries| - 1], s, t, Taken(entries[..|entries| - 1]));
    }
  }

  /** What a review publishes of a source, it shows to Codex if and only if the source's stem is not
      suspicious. */
  lemma PublishedIsShown(entries: seq<Source>, before: set<string>, t: Shelf, names: seq<string>, earlier: seq<string>,
                         regular: string -> bool, i: nat)
    requires Fills(entries, Shelf(before, before, []), t)
    requires Lists(names, t.files) && Lists(earlier, before)
    requires forall k | 0 <= k < |t.published| :: regular(t.published[k])
    requires i < |t.published|
    ensures |Taken(entries)| == |t.published|
    ensures t.published[i] in NewImages(names, Known(earlier, regular), regular)
       <==> !Suspicious(Stem(Taken(entries)[i].name))
  {
    FillsTidy(entries, before, t);
    FillsNamed(entries, before, t);
    SinceExactly(names, earlier, t.files, before, regular);
    assert Artifacts.SafeFile(t.published[i]);
    NamedVerdict(t.published[i], Taken(entries)[i]);
  }

  predicate ShownAsNamed(published: seq<string>, sources: seq<Source>, images: seq<string>, i: nat)
    requires i < |published| == |sources|
  {
    published[i] in images <==> !Suspicious(Stem(sources[i].name))
  }

  predicate HarmlessStem(e: Source) {
    !Suspicious(Stem(e.name))
  }

  ghost predicate AllShown(published: seq<string>, images: seq<string>) {
    forall i | 0 <= i < |published| :: published[i] in images
  }

  ghost predicate AllHarmless(sources: seq<Source>) {
    forall i | 0 <= i < |sources| :: HarmlessStem(sources[i])
  }

  lemma AllOrSome(published: seq<string>, sources: seq<Source>, images: seq<string>)
    requires |published| == |sources|
    requires forall i | 0 <= i < |published| :: ShownAsNamed(published, sources, images, i)
    ensures AllShown(published, images) <==> AllHarmless(sources)
  {
    if AllShown(published, images) {
      forall i | 0 <= i < |sources|
        ensures HarmlessStem(sources[i])
      {
        assert ShownAsNamed(published, sources, images, i);
      }
    }
    if AllHarmless(sources) {
      forall i | 0 <= i < |published|
        ensures published[i] in images
      {
        assert ShownAsNamed(published, sources, images, i) && HarmlessStem(sources[i]);
      }
    }
  }

  /** Every published screenshot of a review is shown to Codex exactly when no published source has a
      suspicious stem. */
  lemma AllShownExactly(entries: seq<Source>, before: set<string>, t: Shelf, names: seq<string>, earlier: seq<string>,
                        regular: string -> bool)
    requires Fills(entries, Shelf(before, before, []), t)
    requires Lists(names, t.files) && Lists(earlier, before)
    requires forall k | 0 <= k < |t.published| :: regular(t.published[k])
    ensures AllShown(t.published, NewImages(names, Known(earlier, regular), regular)) <==> AllHarmless(Taken(entries))
  {
    FillsNamed(entries, before, t);
    forall i | 0 <= i < |t.published|
      ensures ShownAsNamed(t.published, Taken(entries), NewImages(names, Known(earlier, regular), regular), i)
    {
      PublishedIsShown(entries, before, t, names, earlier, regular, i);
    }
    AllOrSome(t.published, Taken(entries), NewImages(names, Known(earlier, regular), regular));
  }

  // ------------------------------------------------------------------- an input

  lemma {:induction false} ContainsOnly(s: string, sub: string, c: char)
    requires c in sub && c !in s
    ensures !Contains(s, sub)
  {
    assert !HasPrefix(s, sub);
    if s != "" {
      ContainsOnly(s[1..], sub, c);
    }
  }

  lemma MarkersNeedOneOf(m: string)
    requires m in MARKERS
    ensures 's' in m || 't' in m || 'w' in m || '-' in m || '_' in m
  {
  }

  lemma NoMarker(low: string)
    requires 's' !in low && 't' !in low && 'w' !in low && '-' !in low && '_' !in low
    ensures !HasMarker(low)
  {
    forall m | m in MARKERS
      ensures !Contains(low, m)
    {
      MarkersNeedOneOf(m);
      var c :| c in m && c !in low;
      ContainsOnly(low, m, c);
    }
  }

  lemma DottedIsHarmless(name: string)
    requires name == "api.key.png"
    ensures !Suspicious(name)
  {
    assert ToLower(name) == name;
    NoMarker(name);
  }

  lemma DashedMore(s: string, c: char)
    ensures Dashed(s + [c])
         == if Alnum(c) then Dashed(s) + [c]
            else if Dashed(s) != "" && Dashed(s)[|Dashed(s)| - 1] == '-' then Dashed(s)
            else Dashed(s) + "-"
  {
    assert (s + [c])[..|s|] == s;
  }

  ghost predicate AllAlnum(s: string) {
    forall i | 0 <= i < |s| :: Alnum(s[i])
  }

  lemma AlnumFront(more: string)
    requires AllAlnum(more) && more != ""
    ensures AllAlnum(more[..|more| - 1]) && Alnum(more[|more| - 1])
  {
  }

  lemma LastOfBoth(s: string, more: string)
    requires more != ""
    ensures s + more == (s + more[..|more| - 1]) + [more[|more| - 1]]
  {
  }

  /** Letters and digits stay as they are. */
  lemma {:induction false} DashedAlnum(s: string, more: string)
    requires AllAlnum(more)
    ensures Dashed(s + more) == Dashed(s) + more
  {
    if more == "" {
      assert s + more == s && Dashed(s) + more == Dashed(s);
    } else {
      var front, c := more[..|more| - 1], more[|more| - 1];
      AlnumFront(more);
      DashedAlnum(s, front);
      DashedMore(s + front, c);
      LastOfBoth(s, more);
      LastOfBoth(Dashed(s), more);
    }
  }

  lemma DashedDot(a: string)
    requires a != "" && AllAlnum(a)
    ensures Dashed(a + ".") == a + "-"
  {
    DashedAlnum("", a);
    assert "" + a == a && Dashed("") == "";
    DashedMore(a, '.');
  }

  lemma DashedDotted(a: string, b: string)
    requires a != "" && AllAlnum(a) && AllAlnum(b)
    ensures Dashed(a + "." + b) == a + "-" + b
  {
    DashedDot(a);
    DashedAlnum(a + ".", b);
  }

  lemma DashedApiKey(s: string)
    requires s == "api.key"
    ensures Dashed(s) == "api-key"
  {
    DashedDotted("api", "key");
    assert s == "api" + "." + "key";
  }

  lemma StemOfDotted(name: string)
    requires name == "api.key.png"
    ensures Stem(name) == "api-key" && Artifacts.Ext(name) == ".png"
  {
    assert name == "api.key" + ".png";
    Artifacts.ExtOfName("api.key", ".png");
    Artifacts.BaseOfName(name);
    assert TrimSuffix(name, ".png") == "api.key";
    DashedApiKey("api.key");
    TrimTight("api-key", IsDash);
  }

  lemma DashedIsSuspicious(stem: string)
    requires stem == "api-key"
    ensures Suspicious(stem)
  {
    assert ToLower(stem) == stem;
    assert MARKERS[6] == stem && Contains(stem, stem);
  }

  lemma FirstIsFree(stem: string, ext: string)
    ensures FirstFreeName({}, stem, ext, Candidate(stem, ext, 1))
  {
    assert IsFirstFree({}, stem, ext, 1);
  }

  lemma FillsOne(e: Source, s: Shelf, t: Shelf)
    requires Places(e, s, t)
    ensures Fills([e], s, t)
  {
    assert [e][..0] == [];
    assert FillsVia([e], s, s, t);
  }

  lemma PlacesOne(e: Source, s: Shelf, name: string)
    requires |s.published| < MAX_SCREENSHOTS && Publishable(e)
    requires FirstFreeName(s.used, Stem(e.name), LowerExt(e.name), name)
    ensures Places(e, s, Placed(e, s, name))
  {
  }

  /** The dash that replaces the dot makes a suspicious word: this screenshot has a harmless name and is
      published, and the review does not show it. */
  lemma HiddenScreenshot(e: Source, regular: string -> bool) returns (t: Shelf, names: seq<string>)
    requires e.name == "api.key.png" && e.fit && e.copy == Whole
    ensures !Suspicious(e.name)
    ensures Fills([e], Shelf({}, {}, []), t) && |t.published| == 1 && Lists(names, t.files)
    ensures regular(t.published[0]) ==> t.published[0] !in NewImages(names, Known([], regular), regular)
  {
    DottedIsHarmless(e.name);
    StemOfDotted(e.name);
    DashedIsSuspicious(Stem(e.name));
    LowerStays(".png");
    var start, name := Shelf({}, {}, []), Candidate(Stem(e.name), LowerExt(e.name), 1);
    FirstIsFree(Stem(e.name), LowerExt(e.name));
    PlacesOne(e, start, name);
    t, names := Placed(e, start, name), [name];
    FillsOne(e, start, t);
    if regular(name) {
      PublishedIsShown([e], {}, t, names, [], regular, 0);
      assert [e][..0] == [] && Taken([e]) == [e];
    }
  }

  // ----------------------------------------------------------------- what a name becomes

  /** A run of characters that are neither letters nor digits becomes one dash. */
  lemma {:induction false} DashedGap(s: string, gap: string)
    requires s == "" || Alnum(s[|s| - 1])
    requires gap != "" && forall i | 0 <= i < |gap| :: !Alnum(gap[i])
    ensures Dashed(s + gap) == Dashed(s) + "-"
  {
    var front, c := gap[..|gap| - 1], gap[|gap| - 1];
    LastOfBoth(s, gap);
    DashedMore(s + front, c);
    if front == "" {
      assert s + front == s;
      DashedEndsAlnum(s);
    } else {
      DashedGap(s, front);
    }
  }

  lemma DashedEndsAlnum(s: string)
    requires s == "" || Alnum(s[|s| - 1])
    ensures Dashed(s) == "" || Dashed(s)[|Dashed(s)| - 1] != '-'
  {
  }

  /** The stem of a file is what stands before its ending, dashed, without dashes at the ends. */
  lemma StemOfFile(name: string, ext: string)
    requires '/' !in name && Artifacts.ImageEnding(ext)
    ensures var t := Trim(Dashed(name), IsDash);
            Stem(name + ext) == if t == "" then "screenshot" else t
  {
    Artifacts.EndingChars(ext);
    Artifacts.ExtOfName(name, ext);
    Artifacts.NoSlashInParts(name, ext);
    Artifacts.BaseOfName(name + ext);
    Artifacts.StemBefore(name, ext);
    StemParts(name + ext, name, ext);
  }

  lemma StemParts(file: string, name: string, ext: string)
    requires Artifacts.Ext(file) == ext && Artifacts.Base(file) == file && TrimSuffix(file, ext) == name
    ensures var t := Trim(Dashed(name), IsDash);
            Stem(file) == if t == "" then "screenshot" else t
  {
  }

  lemma MarkedBy(low: string, m: string)
    requires m in MARKERS && Contains(low, m)
    ensures HasMarker(low)
  {
  }

  /** A name is suspicious exactly if, in lower case, it holds one of these. */
  lemma SuspiciousExactly(name: string, markers: seq<string>)
    requires markers == ["secret", "token", "password", "passwd", "private-key", "private_key", "api-key", "api_key",
                         "access-key", "access_key"]
    ensures Suspicious(name)
       <==> exists i, a: string, b: string | 0 <= i < |markers| :: ToLower(name) == a + markers[i] + b
  {
    var low := ToLower(name);
    assert markers == MARKERS;
    if Suspicious(name) {
      var m :| m in MARKERS && Contains(low, m);
      var i :| 0 <= i < |markers| && markers[i] == m;
      var a, b := ContainedSomewhere(low, m);
      assert low == a + markers[i] + b;
    }
    if i, a: string, b: string :| 0 <= i < |markers| && low == a + markers[i] + b {
      SomewhereContained(a, markers[i], b);
      MarkedBy(low, markers[i]);
    }
  }
}
