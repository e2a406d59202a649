/** The helper tools: a summary of a working copy's files, a canned web
    search, and deployment instructions chosen by platform name. */
module Tools {
  import opened Text
  import opened Paths

  // ---------------------------------------------------------------------
  // analyze_repo_structure

  /** One directory `os.walk` visits: its path and the names of the files
      directly in it. */
  datatype WalkEntry = WalkEntry(root: string, filenames: seq<string>)

  /** The configuration files looked for, in the order they are reported. */
  const KeyFiles: seq<string> :=
    ["Dockerfile", "package.json", "requirements.txt", "go.mod", "pom.xml", "build.gradle", "Makefile", "README.md"]

  /** How many listed files the report shows. */
  const ShownFiles: nat := 20

  /** Each name joined to the directory's path, in order. */
  function Joined(root: string, names: seq<string>): (ps: seq<string>)
    ensures |ps| == |names|
    ensures forall j :: 0 <= j < |names| ==> ps[j] == PathJoin(root, names[j])
    decreases |names|
  {
    if names == [] then []
    else Joined(root, names[..|names| - 1]) + [PathJoin(root, names[|names| - 1])]
  }

  /** A path is among the joined names exactly when some name joins to it. */
  lemma {:induction false} JoinedMember(root: string, names: seq<string>, p: string)
    ensures p in Joined(root, names) <==> exists j :: 0 <= j < |names| && p == PathJoin(root, names[j])
    decreases |names|
  {
    if names != [] {
      var n := |names| - 1;
      var front := names[..n];
      JoinedMember(root, front, p);
      assert Joined(root, names) == Joined(root, front) + [PathJoin(root, names[n])];
      if p in Joined(root, front) {
        var j :| 0 <= j < |front| && p == PathJoin(root, front[j]);
        assert front[j] == names[j];
      }
      if exists j :: 0 <= j < |names| && p == PathJoin(root, names[j]) {
        var j :| 0 <= j < |names| && p == PathJoin(root, names[j]);
        if j < n {
          assert front[j] == names[j];
        }
      }
    }
  }

  /** The files of one directory that are listed: none when the directory's
      path contains ".git" anywhere, otherwise each name joined to it. */
  function Kept(e: WalkEntry): (ps: seq<string>)
    ensures Contains(e.root, ".git") ==> ps == []
    ensures !Contains(e.root, ".git") ==>
      |ps| == |e.filenames| && forall j :: 0 <= j < |ps| ==> ps[j] == PathJoin(e.root, e.filenames[j])
  {
    if Contains(e.root, ".git") then [] else Joined(e.root, e.filenames)
  }

  /** Every listed file, directory by directory in walk order. */
  function Listing(walk: seq<WalkEntry>): (ps: seq<string>)
    ensures ps == [] <==>
      forall i :: 0 <= i < |walk| ==> Contains(walk[i].root, ".git") || walk[i].filenames == []
    decreases |walk|
  {
    if walk == [] then []
    else
      var rest := Listing(walk[1..]);
      assert forall i :: 0 < i < |walk| ==> walk[i] == walk[1..][i - 1];
      Kept(walk[0]) + rest
  }

  /** A path is listed exactly when it is a file name joined to a visited
      directory whose path does not contain ".git". */
  lemma {:induction false} ListingMember(walk: seq<WalkEntry>, p: string)
    ensures p in Listing(walk) <==>
      exists i, j :: 0 <= i < |walk| && 0 <= j < |walk[i].filenames| &&
        !Contains(walk[i].root, ".git") && p == PathJoin(walk[i].root, walk[i].filenames[j])
    decreases |walk|
  {
    if walk != [] {
      ListingMember(walk[1..], p);
      var e := walk[0];
      JoinedMember(e.root, e.filenames, p);
      if (exists i, j :: 0 <= i < |walk| && 0 <= j < |walk[i].filenames| &&
            !Contains(walk[i].root, ".git") && p == PathJoin(walk[i].root, walk[i].filenames[j])) {
        var i, j :| 0 <= i < |walk| && 0 <= j < |walk[i].filenames| &&
          !Contains(walk[i].root, ".git") && p == PathJoin(walk[i].root, walk[i].filenames[j]);
        if i > 0 {
          assert walk[1..][i - 1] == walk[i];
        }
      }
      if p in Listing(walk[1..]) {
        var i, j :| 0 <= i < |walk[1..]| && 0 <= j < |walk[1..][i].filenames| &&
          !Contains(walk[1..][i].root, ".git") && p == PathJoin(walk[1..][i].root, walk[1..][i].filenames[j]);
        assert walk[1..][i] == walk[i + 1];
      }
    }
  }

  /** When the working copy's own path contains ".git", every directory the
      walk visits does too, and nothing is listed. */
  lemma {:induction false} GitInRepoPathListsNothing(repoPath: string, walk: seq<WalkEntry>)
    requires Contains(repoPath, ".git")
    requires forall i :: 0 <= i < |walk| ==> StartsWith(walk[i].root, repoPath)
    ensures Listing(walk) == []
    decreases |walk|
  {
    if walk != [] {
      var root := walk[0].root;
      assert root == repoPath + root[|repoPath|..];
      ContainsExtend(repoPath, ".git", root[|repoPath|..]);
      assert forall i :: 0 <= i < |walk[1..]| ==> walk[1..][i] == walk[i + 1];
      GitInRepoPathListsNothing(repoPath, walk[1..]);
    }
  }

  /** The names among `names` whose path under the working copy exists, in
      the order of `names`. */
  function Detected(names: seq<string>, repoPath: string, existing: set<string>): (found: seq<string>)
    ensures |found| <= |names|
    ensures forall k :: 0 <= k < |found| ==> PathJoin(repoPath, found[k]) in existing
    decreases |names|
  {
    if names == [] then []
    else
      var head := if PathJoin(repoPath, names[0]) in existing then [names[0]] else [];
      head + Detected(names[1..], repoPath, existing)
  }

  /** A name is detected exactly when it is among those looked up and its
      path under the working copy exists. */
  lemma {:induction false} DetectedMember(names: seq<string>, repoPath: string, existing: set<string>, f: string)
    ensures f in Detected(names, repoPath, existing) <==> f in names && PathJoin(repoPath, f) in existing
    decreases |names|
  {
    if names != [] {
      DetectedMember(names[1..], repoPath, existing, f);
      assert names == [names[0]] + names[1..];
    }
  }

  /** `a` is `b` with some items left out. */
  predicate Subsequence(a: seq<string>, b: seq<string>)
    decreases |b|
  {
    if a == [] then true
    else if b == [] then false
    else if a[0] == b[0] then Subsequence(a[1..], b[1..])
    else Subsequence(a, b[1..])
  }

  /** The detected names keep the order of the list they were looked up in. */
  lemma {:induction false} DetectedInOrder(names: seq<string>, repoPath: string, existing: set<string>)
    ensures Subsequence(Detected(names, repoPath, existing), names)
    decreases |names|
  {
    if names != [] {
      var rest := Detected(names[1..], repoPath, existing);
      DetectedInOrder(names[1..], repoPath, existing);
      if PathJoin(repoPath, names[0]) in existing {
        assert ([names[0]] + rest)[1..] == rest;
      } else {
        assert Detected(names, repoPath, existing) == rest;
        SubsequenceOfTail(rest, names);
      }
    }
  }

  /** A subsequence of the tail is a subsequence of the whole. */
  lemma {:induction false} SubsequenceOfTail(a: seq<string>, b: seq<string>)
    requires b != [] && Subsequence(a, b[1..])
    ensures Subsequence(a, b)
    decreases |b|, 0
  {
    if a != [] && a[0] == b[0] {
      SubsequenceDropHead(a, b[1..]);
    }
  }

  /** Leaving out the first item of a subsequence keeps it a subsequence. */
  lemma {:induction false} SubsequenceDropHead(a: seq<string>, b: seq<string>)
    requires a != [] && Subsequence(a, b)
    ensures Subsequence(a[1..], b)
    decreases |b|, 1
  {
    if a[0] == b[0] {
      SubsequenceOfTail(a[1..], b);
    } else {
      SubsequenceDropHead(a, b[1..]);
      SubsequenceOfTail(a[1..], b);
    }
  }

  /** Each item in single quotes. */
  function Quoted(xs: seq<string>): (qs: seq<string>)
    ensures |qs| == |xs|
    ensures forall i :: 0 <= i < |xs| ==> qs[i] == "'" + xs[i] + "'"
  {
    seq(|xs|, i requires 0 <= i < |xs| => "'" + xs[i] + "'")
  }

  /** `repr` of a list of strings, each quoted with `'`: `[]` exactly for
      the empty list, and every item appears in quotes. */
  function ListRepr(xs: seq<string>): (s: string)
    ensures StartsWith(s, "[") && EndsWith(s, "]")
    ensures xs == [] <==> s == "[]"
    ensures forall i :: 0 <= i < |xs| ==> Contains(s, "'" + xs[i] + "'")
  {
    QuotedListShows(xs);
    "[" + Join(Quoted(xs), ", ") + "]"
  }

  /** Text found in the middle stays found whatever surrounds it. */
  lemma ContainsWithin(a: string, m: string, b: string, t: string)
    requires Contains(m, t)
    ensures Contains(a + m + b, t)
  {
    ContainsPrepend(a, m, t);
    ContainsExtend(a + m, t, b);
  }

  /** The bracketed, comma-joined quoted items show every item. */
  lemma QuotedListShows(xs: seq<string>)
    ensures var s := "[" + Join(Quoted(xs), ", ") + "]";
      && (xs == [] <==> s == "[]")
      && forall i :: 0 <= i < |xs| ==> Contains(s, "'" + xs[i] + "'")
  {
    var qs := Quoted(xs);
    var inner := Join(qs, ", ");
    if xs != [] {
      JoinStartsWithFirst(qs, ", ");
      assert |inner| >= |qs[0]| > 0;
    }
    forall i | 0 <= i < |xs|
      ensures Contains("[" + inner + "]", "'" + xs[i] + "'")
    {
      JoinContainsPart(qs, ", ", i);
      ContainsWithin("[", inner, "]", qs[i]);
    }
  }

  /** The fixed texts of the report. */
  const FilesHeading: string := "Files found (truncated): "
  const KeysHeading: string := "\n\nKey configuration files detected: "

  /** The text the tool returns: it opens with the shown files, and every
      shown file and every detected key file appears in it. */
  function Report(shown: seq<string>, found: seq<string>): (r: string)
    ensures StartsWith(r, FilesHeading + "[")
    ensures forall i :: 0 <= i < |shown| ==> Contains(r, "'" + shown[i] + "'")
    ensures forall k :: 0 <= k < |found| ==> Contains(r, found[k])
  {
    ReportShows(FilesHeading, ListRepr(shown), KeysHeading, shown, found);
    FilesHeading + ListRepr(shown) + KeysHeading + Join(found, ", ")
  }

  /** A report built from a file listing that shows every shown file and a
      heading, followed by the joined key files. */
  lemma ReportShows(head: string, files: string, mid: string, shown: seq<string>, found: seq<string>)
    requires StartsWith(files, "[")
    requires forall i :: 0 <= i < |shown| ==> Contains(files, "'" + shown[i] + "'")
    ensures var r := head + files + mid + Join(found, ", ");
      && StartsWith(r, head + "[")
      && (forall i :: 0 <= i < |shown| ==> Contains(r, "'" + shown[i] + "'"))
      && (forall k :: 0 <= k < |found| ==> Contains(r, found[k]))
  {
    var keys := Join(found, ", ");
    var r := head + files + mid + keys;
    assert r[..|head| + 1] == head + files[..1];
    forall i | 0 <= i < |shown|
      ensures Contains(r, "'" + shown[i] + "'")
    {
      FileShown(head, files, mid, keys, "'" + shown[i] + "'");
    }
    forall k | 0 <= k < |found|
      ensures Contains(r, found[k])
    {
      KeyShown(head + files + mid, found, k);
    }
  }

  /** What the file listing shows, the whole report shows. */
  lemma FileShown(head: string, files: string, mid: string, keys: string, t: string)
    requires Contains(files, t)
    ensures Contains(head + files + mid + keys, t)
  {
    ContainsWithin(head, files, mid, t);
    ContainsExtend(head + files + mid, t, keys);
  }

  /** Each key file occurs after whatever precedes the joined list. */
  lemma KeyShown(front: string, found: seq<string>, k: nat)
    requires k < |found|
    ensures Contains(front + Join(found, ", "), found[k])
  {
    JoinContainsPart(found, ", ", k);
    ContainsPrepend(front, Join(found, ", "), found[k]);
  }

  /** At most the first twenty listed files are shown, in listing order, and
      all of them when there are no more than twenty. */
  lemma ShownPrefix(walk: seq<WalkEntry>)
    ensures var files := Listing(walk); var shown := FirstN(files, ShownFiles);
      && |shown| <= ShownFiles
      && shown == files[..|shown|]
      && (|files| <= ShownFiles ==> shown == files)
  {
  }

  /** The walk loop of `analyze_repo_structure`: the files of every visited
      directory, in walk order. */
  method CollectFiles(walk: seq<WalkEntry>) returns (files: seq<string>)
    ensures files == Listing(walk)
  {
    files := [];
    var i := 0;
    while i < |walk|
      invariant 0 <= i <= |walk|
      invariant files + Listing(walk[i..]) == Listing(walk)
    {
      var more := CollectDirectory(walk[i]);
      files := files + more;
      assert walk[i..][0] == walk[i] && walk[i..][1..] == walk[i + 1..];
      i := i + 1;
    }
    assert walk[i..] == [];
  }

  /** The inner loop: each file name of one directory joined to its path,
      unless that path contains ".git". */
  method CollectDirectory(e: WalkEntry) returns (files: seq<string>)
    ensures files == Kept(e)
  {
    var names := e.filenames;
    files := [];
    var j := 0;
    while j < |names|
      invariant 0 <= j <= |names|
      invariant files == if Contains(e.root, ".git") then [] else Joined(e.root, names[..j])
    {
      if !Contains(e.root, ".git") {
        files := files + [PathJoin(e.root, names[j])];
      }
      assert names[..j + 1][..j] == names[..j];
      j := j + 1;
    }
    assert names[..j] == names;
  }

  /** The key-file loop of `analyze_repo_structure`: the names whose path
      under the working copy exists, in the order given. */
  method DetectFiles(names: seq<string>, repoPath: string, existing: set<string>) returns (found: seq<string>)
    ensures found == Detected(names, repoPath, existing)
  {
    found := [];
    var k := 0;
    while k < |names|
      invariant 0 <= k <= |names|
      invariant found + Detected(names[k..], repoPath, existing) == Detected(names, repoPath, existing)
    {
      var f := names[k];
      assert names[k..][0] == f && names[k..][1..] == names[k + 1..];
      ghost var later := Detected(names[k + 1..], repoPath, existing);
      if PathJoin(repoPath, f) in existing {
        assert Detected(names[k..], repoPath, existing) == [f] + later;
        found := found + [f];
      } else {
        assert Detected(names[k..], repoPath, existing) == later;
      }
      k := k + 1;
    }
    assert names[k..] == [];
  }

  /** `analyze_repo_structure(repo_path)`: walk the working copy, collect the
      files outside ".git" directories, look up each key file, and report the
      first twenty files and the key files found. `walk` is what `os.walk`
      yields, in its order, and `existing` the paths `os.path.exists` accepts. */
  method AnalyzeRepoStructure(repoPath: string, walk: seq<WalkEntry>, existing: set<string>)
    returns (report: string)
    ensures report == Report(FirstN(Listing(walk), ShownFiles), Detected(KeyFiles, repoPath, existing))
  {
    var files := CollectFiles(walk);
    var found := DetectFiles(KeyFiles, repoPath, existing);
    report := Report(FirstN(files, ShownFiles), found);
  }

  // ---------------------------------------------------------------------
  // search_web

  const SearchHeader := "Simulated search results for: "
  const SearchDocs := "\n1. Official Documentation: https://example.com/docs\n2. StackOverflow: How to fix "
  const SearchEnd := "..."

  /** `search_web(query)`: a canned answer that names the query twice. */
  function SearchWeb(query: string): (r: string)
    ensures StartsWith(r, SearchHeader + query)
    ensures EndsWith(r, query + SearchEnd)
    ensures |r| == |SearchHeader| + |SearchDocs| + |SearchEnd| + 2 * |query|
  {
    SearchHeader + query + SearchDocs + query + SearchEnd
  }

  /** Different queries give different answers: the query can be read back. */
  lemma SearchWebRecoversQuery(a: string, b: string)
    requires SearchWeb(a) == SearchWeb(b)
    ensures a == b
  {
    var r := SearchWeb(a);
    assert |a| == |b|;
    assert a == r[|SearchHeader|..|SearchHeader| + |a|];
    assert b == SearchWeb(b)[|SearchHeader|..|SearchHeader| + |b|];
  }

  // ---------------------------------------------------------------------
  // generate_deployment_config

  const CloudRunHead := "\n# Cloud Run Deployment\ngcloud run deploy "
  const CloudRunTail := " --source . --region us-central1 --allow-unauthenticated\n"
  const GitHubPagesConfig := "\n# GitHub Pages\n1. Go to Settings > Pages\n2. Select Source: GitHub Actions or Deploy from branch\n"
  const DefangConfig := "\n# Defang\ndefang compose up\n"
  const UnknownPlatform := "Unknown platform. Supported: Cloud Run, GitHub Pages, Defang."

  /** `generate_deployment_config(platform, app_name)`: the template of the
      platform named, in any letter case; for Cloud Run the app name is the
      argument of `gcloud run deploy`. */
  function GenerateDeploymentConfig(platform: string, appName: string): (config: string)
    ensures config == UnknownPlatform <==>
      Lower(platform) != "cloud run" && Lower(platform) != "github pages" && Lower(platform) != "defang"
    ensures Lower(platform) == "cloud run" ==> config == CloudRunHead + appName + CloudRunTail
    ensures Lower(platform) == "github pages" ==> config == GitHubPagesConfig
    ensures Lower(platform) == "defang" ==> config == DefangConfig
  {
    var p := Lower(platform);
    if p == "cloud run" then CloudRunHead + appName + CloudRunTail
    else if p == "github pages" then GitHubPagesConfig
    else if p == "defang" then DefangConfig
    else UnknownPlatform
  }

  /** Platform names that differ only in ASCII letter case give the same
      output. */
  lemma PlatformCaseInsensitive(p: string, q: string, appName: string)
    requires |p| == |q| && forall i :: 0 <= i < |p| ==> LowerChar(p[i]) == LowerChar(q[i])
    ensures GenerateDeploymentConfig(p, appName) == GenerateDeploymentConfig(q, appName)
  {
    assert Lower(p) == Lower(q);
  }

  /** "Cloud Run" selects the Cloud Run template. The platform name is a
      parameter fixed by the precondition so that the verifier reasons
      about it as a string rather than unfolding the literal. */
  lemma CloudRunCapitalised(platform: string, appName: string)
    requires platform == "Cloud Run"
    ensures GenerateDeploymentConfig(platform, appName) == CloudRunHead + appName + CloudRunTail
  {
    assert Lower(platform) == "cloud run";
  }

  /** Only the Cloud Run template mentions the app name. */
  lemma ConfigIgnoresAppName(platform: string, a: string, b: string)
    requires Lower(platform) != "cloud run"
    ensures GenerateDeploymentConfig(platform, a) == GenerateDeploymentConfig(platform, b)
  {
  }

  /** The Cloud Run output determines the app name it deploys. */
  lemma CloudRunRecoversAppName(platform: string, a: string, b: string)
    requires Lower(platform) == "cloud run"
    requires GenerateDeploymentConfig(platform, a) == GenerateDeploymentConfig(platform, b)
    ensures a == b
  {
    var r := GenerateDeploymentConfig(platform, a);
    assert |a| == |b|;
    assert a == r[|CloudRunHead|..|CloudRunHead| + |a|];
    assert b == GenerateDeploymentConfig(platform, b)[|CloudRunHead|..|CloudRunHead| + |b|];
  }
}
