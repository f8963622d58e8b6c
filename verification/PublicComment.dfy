/** internal/publiccomment: what may be posted as an issue comment, and how it is cut into chunks. */
module PublicComment {
  import opened Text
  import opened Utf8

  const FALLBACK := "Codex Gateway 状态已更新。\n\n详情已保存在内部审计日志中。"
  const MAX_CHUNK_BYTES: int := 60 * 1024
  const MAX_TITLE_BYTES: int := 120
  const FALLBACK_TITLE := "Codex Gateway update"

  const NEWLINE: byte := 10

  function Safe(body: string, sensitive: string -> bool): (r: string)
    ensures r != ""
    ensures r == FALLBACK || !sensitive(r)
  {
    var b := TrimSpace(StripControl(body));
    if b == "" || sensitive(b) then FALLBACK else b
  }

  /** What a body says: the text m is left of it when its control characters are taken out, and then the white
      space at its ends. */
  ghost predicate Says(body: string, at: seq<nat>, l: string, m: string, r: string) {
    Uncontrolled(body, l + m + r, at) && All(l, IsSpace) && All(r, IsSpace) && Tight(m, IsSpace)
  }

  lemma SaysSomething(body: string) returns (at: seq<nat>, l: string, m: string, r: string)
    ensures Says(body, at, l, m, r)
  {
    at := StripIsUncontrolled(body);
    l, r := TrimParts(StripControl(body), IsSpace);
    m := TrimSpace(StripControl(body));
  }

  /** A body is published as what it says, unless that is nothing or sensitive. */
  lemma SafeExactly(body: string, at: seq<nat>, l: string, m: string, r: string, sensitive: string -> bool)
    requires Says(body, at, l, m, r)
    ensures Safe(body, sensitive) == if m == "" || sensitive(m) then FALLBACK else m
  {
    UncontrolledIsStrip(body, l + m + r, at);
    TrimUnique(l, m, r, IsSpace);
  }

  /** Clean text with white space around it is published without that. */
  lemma CleanIsPublished(l: string, m: string, r: string, sensitive: string -> bool)
    requires All(l, IsSpace) && All(r, IsSpace) && Tight(m, IsSpace) && Clean(m) && m != "" && !sensitive(m)
    ensures Safe(l + m + r, sensitive) == m
  {
    StripAppend(l + m, r);
    StripAppend(l, m);
    StripClean(m);
    StripSpace(l);
    StripSpace(r);
    TrimUnique(StripControl(l), m, StripControl(r), IsSpace);
  }

  lemma {:induction false} StripSpace(s: string)
    requires All(s, IsSpace)
    ensures All(StripControl(s), IsSpace)
  {
    if s != "" {
      StripSpace(s[1..]);
    }
  }

  // ------------------------------------------------------------------- chunks

  /** strings.LastIndex(body[:end], "\n") */
  function LastNewline(body: seq<byte>, end: nat): (i: int)
    requires end <= |body|
    ensures -1 <= i < end
    ensures i >= 0 ==> body[i] == NEWLINE
    ensures forall j | i < j < end :: body[j] != NEWLINE
  {
    if end == 0 then -1 else if body[end - 1] == NEWLINE then end - 1 else LastNewline(body, end - 1)
  }

  /** The best place to cut at most maxBytes off: the last boundary that fits, or after the first
      character when not even that one fits. */
  ghost predicate LastFit(body: seq<byte>, maxBytes: int, cut: nat) {
    && Boundary(body, cut)
    && (body != [] ==> cut > 0)
    && (cut <= maxBytes ==> forall j | cut < j <= maxBytes :: !Boundary(body, j))
    && (cut > maxBytes ==> forall j | 0 < j < cut :: !Boundary(body, j))
  }

  method Utf8SafeCut(ghost text: string, body: seq<byte>, maxBytes: int) returns (cut: nat)
    requires body == EncodeText(text)
    ensures LastFit(body, maxBytes, cut)
  {
    if maxBytes >= |body| {
      return |body|;
    }
    var c := maxBytes;
    while c > 0 && !RuneStart(body[c])
      invariant c <= maxBytes
      invariant maxBytes >= 0 ==> c >= 0
      invariant forall j | c < j <= maxBytes && j > 0 :: !Boundary(body, j)
    {
      c := c - 1;
    }
    if c <= 0 {
      StartsWithBoundary(text);
      if body == [] {
        return 0;
      }
      assert forall j | 0 < j < Width(text[0]) :: body[j] == Encode(text[0])[j];
      return LeadWidth(body[0]);
    }
    return c;
  }

  /** A cut after a late newline, or else at the last boundary that fits. */
  ghost predicate ChunkCut(body: seq<byte>, maxBytes: int, cut: nat) {
    && Boundary(body, cut)
    && 0 < cut <= maxBytes
    && maxBytes / 2 <= cut
    && (|| body[cut - 1] == NEWLINE
        || (&& LastFit(body, maxBytes, cut)
            && forall i | maxBytes / 2 <= i + 1 && 0 < i < cut :: body[i] != NEWLINE))
  }

  method CommentChunkCut(ghost text: string, body: seq<byte>, maxBytes: int) returns (cut: nat)
    requires body == EncodeText(text)
    requires 8 <= maxBytes < |body|
    ensures ChunkCut(body, maxBytes, cut)
  {
    cut := Utf8SafeCut(text, body, maxBytes);
    assert maxBytes - 3 <= cut <= maxBytes by {
      var i := StartWithinFour(text, maxBytes - 3);
      assert Boundary(body, i);
    }
    var newline := LastNewline(body, cut);
    if newline > 0 && newline + 1 >= maxBytes / 2 {
      AfterAscii(text, newline);
      return newline + 1;
    }
  }

  function Flatten(chunks: seq<seq<byte>>): seq<byte> {
    if chunks == [] then [] else Flatten(chunks[..|chunks| - 1]) + chunks[|chunks| - 1]
  }

  /** A non-empty run of whole characters that fits. */
  ghost predicate ProperChunk(chunk: seq<byte>) {
    0 < |chunk| <= MAX_CHUNK_BYTES && Valid(chunk)
  }

  /** At least half full; it ends with a newline, or is as long as a chunk that has no newline in
      its second half can be. */
  ghost predicate FullChunk(chunk: seq<byte>) {
    && MAX_CHUNK_BYTES / 2 <= |chunk|
    && (|| chunk[|chunk| - 1] == NEWLINE
        || (&& MAX_CHUNK_BYTES - 3 <= |chunk|
            && forall i | MAX_CHUNK_BYTES / 2 - 1 <= i < |chunk| :: chunk[i] != NEWLINE))
  }

  ghost predicate AllFull(chunks: seq<seq<byte>>) {
    forall c | c in chunks :: ProperChunk(c) && FullChunk(c)
  }

  /** The chunks carry the whole body in order, and every chunk but the last is full. */
  ghost predicate WellChunked(body: seq<byte>, chunks: seq<seq<byte>>) {
    && chunks != []
    && Flatten(chunks) == body
    && AllFull(chunks[..|chunks| - 1])
    && ProperChunk(chunks[|chunks| - 1])
  }

  /** The loop's state: full chunks so far, and the text of what is still to be cut. */
  ghost predicate Cutting(whole: seq<byte>, text: string, chunks: seq<seq<byte>>, rest: seq<byte>) {
    && rest == EncodeText(text) && rest != []
    && Flatten(chunks) + rest == whole
    && AllFull(chunks)
  }

  method SafeChunks(body: string, sensitive: string -> bool) returns (chunks: seq<seq<byte>>)
    ensures WellChunked(EncodeText(Safe(body, sensitive)), chunks)
    ensures ByteLen(Safe(body, sensitive)) <= MAX_CHUNK_BYTES ==> |chunks| == 1
  {
    var safe := Safe(body, sensitive);
    var rest := EncodeText(safe);
    ghost var whole, text := rest, safe;
    StartCutting(safe);
    if |rest| <= MAX_CHUNK_BYTES {
      LastCut(whole, text, [], rest);
      return [rest];
    }
    chunks := [];
    while |rest| > MAX_CHUNK_BYTES
      invariant Cutting(whole, text, chunks, rest)
    {
      var cut := CommentChunkCut(text, rest, MAX_CHUNK_BYTES);
      text := NextCut(whole, text, chunks, rest, cut);
      chunks := chunks + [rest[..cut]];
      rest := rest[cut..];
    }
    LastCut(whole, text, chunks, rest);
    if rest != [] {
      chunks := chunks + [rest];
    }
  }

  /** The chunks of a comment, put together, are what its body says, or the fallback if that is nothing or
      sensitive. */
  lemma ChunksCarry(body: string, at: seq<nat>, l: string, m: string, r: string, sensitive: string -> bool,
                    chunks: seq<seq<byte>>)
    requires Says(body, at, l, m, r) && WellChunked(EncodeText(Safe(body, sensitive)), chunks)
    ensures Flatten(chunks) == EncodeText(if m == "" || sensitive(m) then FALLBACK else m)
  {
    SafeExactly(body, at, l, m, r, sensitive);
  }

  /** No chunk is empty or larger than 60 KiB, and only the last may be smaller than 30 KiB. */
  lemma ChunkSizes(body: seq<byte>, chunks: seq<seq<byte>>, i: nat)
    requires WellChunked(body, chunks) && i < |chunks|
    ensures 0 < |chunks[i]| <= 61440 && (i < |chunks| - 1 ==> |chunks[i]| >= 30720)
  {
    var front := chunks[..|chunks| - 1];
    if i < |front| {
      assert front[i] in front && front[i] == chunks[i];
    }
  }

  lemma StartCutting(text: string)
    requires text != ""
    ensures Cutting(EncodeText(text), text, [], EncodeText(text))
  {
    ByteLenBounds(text);
    assert [] + EncodeText(text) == EncodeText(text);
  }

  lemma NextCut(whole: seq<byte>, text: string, chunks: seq<seq<byte>>, rest: seq<byte>, cut: nat)
    returns (tail: string)
    requires Cutting(whole, text, chunks, rest) && |rest| > MAX_CHUNK_BYTES
    requires ChunkCut(rest, MAX_CHUNK_BYTES, cut)
    ensures Cutting(whole, tail, chunks + [rest[..cut]], rest[cut..])
  {
    var i := FullCut(text, rest, cut);
    tail := text[i..];
    FlattenAppend(chunks, rest[..cut]);
    MoveOver(Flatten(chunks), rest, cut);
  }

  lemma LastCut(whole: seq<byte>, text: string, chunks: seq<seq<byte>>, rest: seq<byte>)
    requires Cutting(whole, text, chunks, rest) && |rest| <= MAX_CHUNK_BYTES
    ensures WellChunked(whole, chunks + [rest])
  {
    FlattenAppend(chunks, rest);
    assert (chunks + [rest])[..|chunks|] == chunks;
    assert Valid(rest);
  }

  lemma FlattenAppend(chunks: seq<seq<byte>>, chunk: seq<byte>)
    ensures Flatten(chunks + [chunk]) == Flatten(chunks) + chunk
  {
    assert (chunks + [chunk])[..|chunks|] == chunks;
  }

  lemma MoveOver(front: seq<byte>, back: seq<byte>, cut: nat)
    requires cut <= |back|
    ensures (front + back[..cut]) + back[cut..] == front + back
  {
  }

  lemma FullCut(text: string, body: seq<byte>, cut: nat) returns (i: nat)
    requires body == EncodeText(text) && |body| > MAX_CHUNK_BYTES
    requires ChunkCut(body, MAX_CHUNK_BYTES, cut)
    ensures ProperChunk(body[..cut]) && FullChunk(body[..cut])
    ensures i <= |text| && EncodeText(text[i..]) == body[cut..]
  {
    i := CutAtBoundary(text, cut);
    assert Valid(body[..cut]);
    if body[cut - 1] != NEWLINE {
      var j := StartWithinFour(text, MAX_CHUNK_BYTES - 3);
      assert Boundary(body, j);
    }
  }

  /** Any way of chunking like that needs at most one chunk more than the halves that fit. */
  lemma ChunkCount(body: seq<byte>, chunks: seq<seq<byte>>)
    requires WellChunked(body, chunks)
    ensures |chunks| <= |body| / (MAX_CHUNK_BYTES / 2) + 1
  {
    FullLength(chunks[..|chunks| - 1]);
    HalvesThatFit(|chunks| - 1, |body|);
  }

  lemma HalvesThatFit(n: nat, total: nat)
    requires n * (MAX_CHUNK_BYTES / 2) <= total
    ensures n <= total / (MAX_CHUNK_BYTES / 2)
  {
  }

  lemma AllFullFront(chunks: seq<seq<byte>>)
    requires chunks != [] && AllFull(chunks)
    ensures AllFull(chunks[..|chunks| - 1]) && |chunks[|chunks| - 1]| >= MAX_CHUNK_BYTES / 2
  {
    assert forall c | c in chunks[..|chunks| - 1] :: c in chunks;
    assert chunks[|chunks| - 1] in chunks;
  }

  lemma OneMoreHalf(n: nat, total: nat, size: nat, half: nat)
    requires total >= n * half && size >= half
    ensures total + size >= (n + 1) * half
  {
  }

  lemma {:induction false} FullLength(chunks: seq<seq<byte>>)
    requires AllFull(chunks)
    ensures |Flatten(chunks)| >= |chunks| * (MAX_CHUNK_BYTES / 2)
  {
    if chunks != [] {
      var init, last := chunks[..|chunks| - 1], chunks[|chunks| - 1];
      AllFullFront(chunks);
      FullLength(init);
      OneMoreHalf(|init|, |Flatten(init)|, |last|, MAX_CHUNK_BYTES / 2);
    }
  }

  // ------------------------------------------------------------------- titles

  /** What is left when whole characters are dropped from the end until the text fits. */
  function Fit(body: string, maxBytes: int): (r: string)
    ensures |r| <= |body|
    ensures maxBytes > 0 ==> ByteLen(r) <= maxBytes
  {
    if maxBytes <= 0 then ""
    else if ByteLen(body) <= maxBytes then body
    else Fit(body[..|body| - 1], maxBytes)
  }

  /** It is the longest prefix of whole characters that takes at most maxBytes bytes. */
  lemma {:induction false} FitIsLongest(body: string, maxBytes: int)
    requires maxBytes > 0
    ensures Fit(body, maxBytes) == body[..|Fit(body, maxBytes)|]
    ensures forall k | |Fit(body, maxBytes)| < k <= |body| :: ByteLen(body[..k]) > maxBytes
  {
    assert body[..|body|] == body;
    if ByteLen(body) > maxBytes {
      var shorter := body[..|body| - 1];
      FitIsLongest(shorter, maxBytes);
      assert forall k | 0 <= k <= |shorter| :: body[..k] == shorter[..k];
    }
  }

  method TrimUtf8Bytes(body: string, maxBytes: int) returns (r: string)
    ensures r == Fit(body, maxBytes)
  {
    if maxBytes <= 0 {
      return "";
    }
    r := body;
    while ByteLen(r) > maxBytes
      invariant Fit(r, maxBytes) == Fit(body, maxBytes)
      decreases |r|
    {
      r := r[..|r| - 1];
    }
  }

  /** What SafeTitle publishes. */
  function SafeTitleOf(title: string, sensitive: string -> bool): string {
    var t := TrimSpace(StripControl(title));
    if t == "" || sensitive(t) then FALLBACK_TITLE else Fit(t, MAX_TITLE_BYTES)
  }

  /** The k characters before this place still fit, and with one more they do not. */
  predicate CutPoint(t: string, k: nat) {
    k < |t| && ByteLen(t[..k]) <= MAX_TITLE_BYTES < ByteLen(t[..k + 1])
  }

  /** What may be published of a cleaned title: the fallback, all of it, or all before the cut. */
  ghost predicate IsSafeTitle(t: string, r: string, sensitive: string -> bool) {
    if t == "" || sensitive(t) then r == FALLBACK_TITLE
    else r <= t && (if ByteLen(t) <= MAX_TITLE_BYTES then r == t else CutPoint(t, |r|))
  }

  lemma FallbackBytes(t: string)
    requires t == FALLBACK_TITLE
    ensures 0 < ByteLen(t) <= MAX_TITLE_BYTES
  {
    FallbackTitleText(t);
    ByteLenAscii(t);
  }

  lemma PublishedTitle(t: string, r: string, sensitive: string -> bool)
    requires r == if t == "" || sensitive(t) then FALLBACK_TITLE else Fit(t, MAX_TITLE_BYTES)
    ensures 0 < ByteLen(r) <= MAX_TITLE_BYTES && IsSafeTitle(t, r, sensitive)
  {
    if t == "" || sensitive(t) {
      FallbackBytes(r);
    } else if ByteLen(t) <= MAX_TITLE_BYTES {
      NonEmptyBytes(t);
    } else {
      FitIsCut(t);
    }
  }

  /** The title is never empty and never too long; a harmless one is cut only if it must be, and then
      just where it stops fitting. */
  method SafeTitle(title: string, sensitive: string -> bool) returns (r: string)
    ensures 0 < ByteLen(r) <= MAX_TITLE_BYTES
    ensures IsSafeTitle(TrimSpace(StripControl(title)), r, sensitive)
    ensures r == SafeTitleOf(title, sensitive)
  {
    var t := TrimSpace(StripControl(title));
    PublishedTitle(t, SafeTitleOf(title, sensitive), sensitive);
    if t == "" || sensitive(t) {
      return FALLBACK_TITLE;
    }
    if ByteLen(t) <= MAX_TITLE_BYTES {
      return t;
    }
    r := TrimUtf8Bytes(t, MAX_TITLE_BYTES);
  }

  lemma NonEmptyBytes(t: string)
    requires t != ""
    ensures ByteLen(t) > 0
  {
    ByteLenBounds(t);
  }

  lemma FitIsCut(t: string)
    requires ByteLen(t) > MAX_TITLE_BYTES
    ensures var r := Fit(t, MAX_TITLE_BYTES);
            r <= t && CutPoint(t, |r|) && 0 < ByteLen(r)
  {
    var r := Fit(t, MAX_TITLE_BYTES);
    FitIsLongest(t, MAX_TITLE_BYTES);
    FitNear(t, MAX_TITLE_BYTES);
    assert r == t[..|r|];
    assert r != t;
  }

  lemma LongerPrefix(t: string, k: nat, n: nat)
    requires k <= n <= |t|
    ensures ByteLen(t[..k]) <= ByteLen(t[..n])
  {
    assert t[..n] == t[..k] + t[k..n];
    ByteLenAppend(t[..k], t[k..n]);
  }

  /** There is only one place to cut. */
  lemma CutIsUnique(t: string, k: nat, n: nat)
    requires CutPoint(t, k) && CutPoint(t, n)
    ensures k == n
  {
    if k < n {
      LongerPrefix(t, k + 1, n);
    } else if n < k {
      LongerPrefix(t, n + 1, k);
    }
  }

  /** Nothing needs to be cut, or the cut leaves no space at the end and nothing sensitive. */
  predicate CutsCleanly(title: string, sensitive: string -> bool) {
    var t := TrimSpace(StripControl(title));
    t == "" || sensitive(t) || ByteLen(t) <= MAX_TITLE_BYTES
    || exists k | 0 < k < |t| :: CutPoint(t, k) && !IsSpace(t[k - 1]) && !sensitive(t[..k])
  }

  /** A published title fits, and publishing it again changes nothing exactly when it is cut cleanly. */
  lemma SafeTitleStable(title: string, sensitive: string -> bool)
    ensures var r := SafeTitleOf(title, sensitive);
            && ByteLen(r) <= MAX_TITLE_BYTES
            && (SafeTitleOf(r, sensitive) == r <==> CutsCleanly(title, sensitive))
  {
    var t := TrimSpace(StripControl(title));
    var _, _ := TrimParts(StripControl(title), IsSpace);
    CleanTrim(StripControl(title));
    if t == "" || sensitive(t) {
      FallbackTitleStable(sensitive);
    } else if ByteLen(t) <= MAX_TITLE_BYTES {
      TightTitle(t, sensitive);
    } else {
      CutTitle(t, sensitive);
      CleanCut(t, sensitive);
    }
  }

  /** The condition on the cut speaks of what is published. */
  lemma CleanCut(t: string, sensitive: string -> bool)
    requires ByteLen(t) > MAX_TITLE_BYTES
    ensures var r := Fit(t, MAX_TITLE_BYTES);
            && r != ""
            && (!IsSpace(r[|r| - 1]) && !sensitive(r)
                <==> exists k | 0 < k < |t| :: CutPoint(t, k) && !IsSpace(t[k - 1]) && !sensitive(t[..k]))
  {
    var r := Fit(t, MAX_TITLE_BYTES);
    FitIsCut(t);
    assert r == t[..|r|] && r != "";
    forall k | 0 < k < |t| && CutPoint(t, k)
      ensures k == |r|
    {
      CutIsUnique(t, k, |r|);
    }
  }

  /** One line of printable ASCII that fits. */
  ghost predicate PlainTitle(t: string) {
    && 0 < |t| <= MAX_TITLE_BYTES && t[0] != ' ' && t[|t| - 1] != ' '
    && forall i | 0 <= i < |t| :: ' ' <= t[i] <= '~'
  }

  lemma FallbackTitleText(t: string)
    requires t == FALLBACK_TITLE
    ensures |t| == 20 && PlainTitle(t)
  {
    assert t[0] == 'C' && t[19] == 'e';
  }

  lemma PlainTitleFixed(t: string, sensitive: string -> bool)
    requires PlainTitle(t)
    ensures ByteLen(t) == |t|
    ensures SafeTitleOf(t, sensitive) == if sensitive(t) then FALLBACK_TITLE else t
  {
    ByteLenAscii(t);
    TightTitle(t, sensitive);
  }

  lemma FallbackTitleStable(sensitive: string -> bool)
    ensures SafeTitleOf(FALLBACK_TITLE, sensitive) == FALLBACK_TITLE
    ensures |FALLBACK_TITLE| == 20 == ByteLen(FALLBACK_TITLE)
  {
    FallbackTitleText(FALLBACK_TITLE);
    PlainTitleFixed(FALLBACK_TITLE, sensitive);
  }

  lemma TightTitle(t: string, sensitive: string -> bool)
    requires t != "" && Clean(t) && Tight(t, IsSpace)
    ensures SafeTitleOf(t, sensitive) == if sensitive(t) then FALLBACK_TITLE else Fit(t, MAX_TITLE_BYTES)
  {
    StripClean(t);
    TrimTight(t, IsSpace);
  }

  lemma LongTitle(t: string, sensitive: string -> bool)
    requires ByteLen(t) > 20
    ensures t != FALLBACK_TITLE
  {
    FallbackTitleStable(sensitive);
  }

  lemma CutTitle(t: string, sensitive: string -> bool)
    requires Clean(t) && Tight(t, IsSpace) && ByteLen(t) > MAX_TITLE_BYTES
    ensures var r := Fit(t, MAX_TITLE_BYTES);
            r != "" && (SafeTitleOf(r, sensitive) == r <==> !IsSpace(r[|r| - 1]) && !sensitive(r))
  {
    var r := Fit(t, MAX_TITLE_BYTES);
    FitIsLongest(t, MAX_TITLE_BYTES);
    FitNear(t, MAX_TITLE_BYTES);
    LongTitle(r, sensitive);
    assert r[0] == t[0] && Clean(r);
    if IsSpace(r[|r| - 1]) {
      SpaceEnd(r, sensitive);
    } else {
      TightTitle(r, sensitive);
    }
  }

  lemma SpaceEnd(r: string, sensitive: string -> bool)
    requires r != "" && IsSpace(r[|r| - 1]) && Clean(r)
    ensures SafeTitleOf(r, sensitive) != r
  {
    StripClean(r);
    TrimShortens(r);
    assert FALLBACK_TITLE[19] == 'e';
  }

  lemma TrimShortens(r: string)
    requires r != "" && IsSpace(r[|r| - 1])
    ensures |TrimSpace(r)| < |r|
  {
    var left := TrimLeft(r, IsSpace);
    if |left| == |r| {
      assert TrimRight(r, IsSpace) != r;
    }
  }

  /** A cut text is within one character of the limit. */
  lemma FitNear(t: string, maxBytes: int)
    requires maxBytes > 0 && ByteLen(t) > maxBytes
    ensures maxBytes - 4 < ByteLen(Fit(t, maxBytes))
  {
    var r := Fit(t, maxBytes);
    var n := |r| + 1;
    FitIsLongest(t, maxBytes);
    assert r != t && t[..n] == r + [t[|r|]];
    ByteLenAppend(r, [t[|r|]]);
    ByteLenBounds([t[|r|]]);
  }

  predicate NothingSensitive(s: string) {
    false
  }

  lemma CutAtLimit(title: string)
    requires |title| == 121 && ByteLen(title) == 121 && ByteLen(title[..120]) == 120
    ensures Fit(title, MAX_TITLE_BYTES) == title[..120]
  {
    FitIsLongest(title, MAX_TITLE_BYTES);
    assert title[..121] == title;
  }

  lemma LettersAndSpace(title: string)
    requires |title| == 121 && title[119] == ' ' && title[120] == 'b'
    requires forall i | 0 <= i < 119 :: title[i] == 'a'
    ensures Clean(title) && Tight(title, IsSpace) && ByteLen(title) == 121
    ensures Clean(title[..120]) && ByteLen(title[..120]) == 120
  {
    ByteLenAscii(title);
    ByteLenAscii(title[..120]);
  }

  /** 119 letters, a space and one more letter: the cut falls just after the space. */
  lemma SafeTitleNotIdempotent(title: string)
    requires |title| == 121 && title[119] == ' ' && title[120] == 'b'
    requires forall i | 0 <= i < 119 :: title[i] == 'a'
    ensures SafeTitleOf(SafeTitleOf(title, NothingSensitive), NothingSensitive) != SafeTitleOf(title, NothingSensitive)
  {
    LettersAndSpace(title);
    TightTitle(title, NothingSensitive);
    CutAtLimit(title);
    SpaceEnd(title[..120], NothingSensitive);
  }
}
