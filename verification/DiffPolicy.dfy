/** internal/diffpolicy: which changed files stop a pull request. */
module DiffPolicy {
  import opened Text

  /** filepath.Match, whose patterns are not modelled. */
  type Glob = (string, string) -> bool

  datatype Verdict = Verdict(
    allowed: bool, deniedFiles: seq<string>, reviewFiles: seq<string>, requiresSecurityReview: bool, reason: string)

  /** The pattern matches by itself, or names a directory tree that holds the file. */
  predicate MatchesPattern(file: string, pattern: string, glob: Glob) {
    || glob(pattern, file)
    || (HasSuffix(pattern, "/**") && InTree(file, TrimSuffix(pattern, "/**")))
  }

  predicate InTree(file: string, root: string) {
    file == root || HasPrefix(file, root + "/")
  }

  ghost predicate MatchesSome(file: string, patterns: seq<string>, glob: Glob) {
    exists pattern | pattern in patterns :: MatchesPattern(file, pattern, glob)
  }

  method MatchesAny(file: string, patterns: seq<string>, glob: Glob) returns (r: bool)
    ensures r <==> MatchesSome(file, patterns, glob)
  {
    for i := 0 to |patterns|
      invariant forall j | 0 <= j < i :: !MatchesPattern(file, patterns[j], glob)
    {
      assert patterns[i] in patterns;
      if glob(patterns[i], file) {
        assert MatchesPattern(file, patterns[i], glob);
        return true;
      }
      if HasSuffix(patterns[i], "/**") {
        var prefix := TrimSuffix(patterns[i], "/**");
        if file == prefix || HasPrefix(file, prefix + "/") {
          assert MatchesPattern(file, patterns[i], glob);
          return true;
        }
      }
    }
    return false;
  }

  /** The files that match, in order. */
  ghost function Matching(files: seq<string>, patterns: seq<string>, glob: Glob): seq<string> {
    if files == [] then []
    else
      var last := files[|files| - 1];
      Matching(files[..|files| - 1], patterns, glob) + if MatchesSome(last, patterns, glob) then [last] else []
  }

  ghost predicate Permits(files: seq<string>, patterns: seq<string>, glob: Glob) {
    forall file | file in files :: !MatchesSome(file, patterns, glob)
  }

  lemma {:induction false} PermitsExactly(files: seq<string>, patterns: seq<string>, glob: Glob)
    ensures Matching(files, patterns, glob) == [] <==> Permits(files, patterns, glob)
  {
    if files != [] {
      var front, last := files[..|files| - 1], files[|files| - 1];
      PermitsExactly(front, patterns, glob);
      assert forall file :: file in files <==> file in front || file == last;
    }
  }

  method Evaluate(files: seq<string>, deny: seq<string>, review: seq<string>, glob: Glob) returns (v: Verdict)
    ensures v.deniedFiles == Matching(files, deny, glob)
    ensures v.reviewFiles == Matching(files, review, glob)
    ensures v.allowed <==> Permits(files, deny, glob)
    ensures v.requiresSecurityReview <==> !Permits(files, review, glob)
    ensures v.reason == if v.allowed then "" else "diff_policy_failed"
  {
    var denied, reviewed: seq<string> := [], [];
    for i := 0 to |files|
      invariant denied == Matching(files[..i], deny, glob)
      invariant reviewed == Matching(files[..i], review, glob)
    {
      assert files[..i + 1][..i] == files[..i];
      var hit := MatchesAny(files[i], deny, glob);
      if hit {
        denied := denied + [files[i]];
      }
      hit := MatchesAny(files[i], review, glob);
      if hit {
        reviewed := reviewed + [files[i]];
      }
    }
    assert files[..|files|] == files;
    PermitsExactly(files, deny, glob);
    PermitsExactly(files, review, glob);
    v := Verdict(true, denied, reviewed, false, "");
    if denied != [] {
      v := v.(allowed := false, reason := "diff_policy_failed");
    }
    if reviewed != [] {
      v := v.(requiresSecurityReview := true);
    }
  }

  // ---------------------------------------------------------- patterns for directories

  lemma SuffixOfTree(root: string)
    ensures HasSuffix(root + "/**", "/**") && TrimSuffix(root + "/**", "/**") == root
  {
    assert (root + "/**")[|root|..] == "/**" && (root + "/**")[..|root|] == root;
  }

  /** Beyond what it matches by itself, a pattern for a directory matches the directory and whatever lies below
      it, and nothing else. */
  lemma TreeExactly(root: string, file: string, glob: Glob)
    ensures MatchesPattern(file, root + "/**", glob)
       <==> glob(root + "/**", file) || file == root || exists rest :: file == root + "/" + rest
  {
    SuffixOfTree(root);
    PrefixParts(file, root + "/");
    if rest :| file == root + "/" + rest {
      assert file[..|root| + 1] == root + "/" && file[|root| + 1..] == rest;
    }
    if HasPrefix(file, root + "/") {
      assert file == root + "/" + file[|root| + 1..];
    }
  }

  /** So a denied directory stops every change below it. */
  lemma TreeIsDenied(root: string, rest: string, files: seq<string>, deny: seq<string>, glob: Glob)
    requires root + "/**" in deny && (root + "/" + rest in files || root in files)
    ensures !Permits(files, deny, glob)
  {
    TreeExactly(root, root, glob);
    TreeExactly(root, root + "/" + rest, glob);
    var file := if root in files then root else root + "/" + rest;
    assert MatchesPattern(file, root + "/**", glob);
    assert MatchesSome(file, deny, glob);
  }

  /** A neighbour whose name only begins like the directory is not meant. */
  lemma NeighbourIsFree(root: string, rest: string, glob: Glob)
    requires rest != "" && rest[0] != '/' && !glob(root + "/**", root + rest)
    ensures !MatchesPattern(root + rest, root + "/**", glob)
  {
    TreeExactly(root, root + rest, glob);
    forall below: string
      ensures root + rest != root + "/" + below
    {
      assert (root + rest)[|root|] == rest[0] && (root + "/" + below)[|root|] == '/';
    }
  }

  /** Any other pattern matches just what it matches by itself. */
  lemma OtherPattern(file: string, pattern: string, glob: Glob)
    requires |pattern| < 3 || pattern[|pattern| - 3..] != "/**"
    ensures MatchesPattern(file, pattern, glob) <==> glob(pattern, file)
  {
  }
}
