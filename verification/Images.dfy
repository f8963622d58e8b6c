/** mergeImageFiles of internal/worker/worker.go: the image inputs of a Codex call. */
module Images {
  import opened Text

  /** The paths that are not blank, each where it first occurs. */
  function Merged(files: seq<string>): seq<string> {
    if files == [] then []
    else
      var front, last := Merged(files[..|files| - 1]), files[|files| - 1];
      if Blank(last) || last in front then front else front + [last]
  }

  function Merge(primary: seq<string>, additional: seq<string>): seq<string> {
    Merged(primary + additional)
  }

  method MergeImageFiles(primary: seq<string>, additional: seq<string>) returns (merged: seq<string>)
    ensures merged == Merge(primary, additional)
  {
    var files := primary + additional;
    var seen: set<string> := {};
    merged := [];
    for i := 0 to |files|
      invariant merged == Merged(files[..i])
      invariant forall file :: file in seen <==> file in merged
    {
      assert files[..i + 1][..i] == files[..i];
      if TrimSpace(files[i]) == "" || files[i] in seen {
        continue;
      }
      seen := seen + {files[i]};
      merged := merged + [files[i]];
    }
    assert files[..|files|] == files;
  }

  ghost predicate Distinct(files: seq<string>) {
    forall i, j | 0 <= i < j < |files| :: files[i] != files[j]
  }

  /** Exactly the paths that are not blank, each once. */
  lemma {:induction false} MergedOnce(files: seq<string>)
    ensures Distinct(Merged(files))
    ensures forall file :: file in Merged(files) <==> file in files && !Blank(file)
  {
    if files != [] {
      var front, last := files[..|files| - 1], files[|files| - 1];
      MergedOnce(front);
      assert forall file :: file in files <==> file in front || file == last;
    }
  }

  /** The merge never reorders: what it makes of a prefix stays in front. */
  lemma {:induction false} MergedPrefix(a: seq<string>, b: seq<string>)
    ensures Merged(a) <= Merged(a + b)
  {
    if b == [] {
      assert a + b == a;
    } else {
      assert (a + b)[..|a + b| - 1] == a + b[..|b| - 1];
      MergedPrefix(a, b[..|b| - 1]);
    }
  }

  lemma MergedOne(files: seq<string>, file: string)
    ensures Merged(files + [file])
         == if Blank(file) || file in Merged(files) then Merged(files) else Merged(files) + [file]
  {
    assert (files + [file])[..|files|] == files;
  }

  /** Images that are all new. */
  ghost predicate Fresh(primary: seq<string>, images: seq<string>) {
    Distinct(images) && forall file | file in images :: !Blank(file) && file !in primary
  }

  lemma FreshFront(primary: seq<string>, images: seq<string>)
    requires Fresh(primary, images) && images != []
    ensures Fresh(primary, images[..|images| - 1])
    ensures !Blank(images[|images| - 1]) && images[|images| - 1] !in Merged(primary) + images[..|images| - 1]
  {
    var front, last := images[..|images| - 1], images[|images| - 1];
    assert last in images && forall file | file in front :: file in images;
    MergedOnce(primary);
  }

  lemma MergeStep(primary: seq<string>, front: seq<string>, last: string)
    requires Merge(primary, front) == Merged(primary) + front
    requires !Blank(last) && last !in Merged(primary) + front
    ensures Merge(primary, front + [last]) == Merged(primary) + (front + [last])
  {
    MergedOne(primary + front, last);
    assert primary + (front + [last]) == (primary + front) + [last];
    assert (Merged(primary) + front) + [last] == Merged(primary) + (front + [last]);
  }

  /** Fresh images follow the others unchanged. */
  lemma {:induction false} MergeFresh(primary: seq<string>, images: seq<string>)
    requires Fresh(primary, images)
    ensures Merge(primary, images) == Merged(primary) + images
  {
    if images == [] {
      assert primary + images == primary;
    } else {
      FreshFront(primary, images);
      MergeFresh(primary, images[..|images| - 1]);
      MergeStep(primary, images[..|images| - 1], images[|images| - 1]);
      assert images == images[..|images| - 1] + [images[|images| - 1]];
    }
  }
}
