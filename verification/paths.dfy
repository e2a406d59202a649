/** The POSIX path arithmetic of Python's `os.path` that the tools use:
    `join` of two components, `dirname`, and the chain of directories
    `os.makedirs` walks through. Paths are plain strings; nothing here
    resolves `.`, `..` or repeated separators. */
module Paths {
  import opened Text

  /** `os.path.join(a, b)`: an absolute `b` replaces `a`; otherwise one `/`
      separates them unless `a` is empty or already ends with `/`. */
  function PathJoin(a: string, b: string): string {
    if StartsWith(b, "/") then b
    else if a == [] || EndsWith(a, "/") then a + b
    else a + "/" + b
  }

  /** The joined path ends with `b`; it starts with `a` unless `b` is
      absolute, in which case it is `b` alone. */
  lemma PathJoinShape(a: string, b: string)
    ensures var p := PathJoin(a, b);
      && EndsWith(p, b)
      && (StartsWith(b, "/") ==> p == b)
      && (!StartsWith(b, "/") ==> StartsWith(p, a) && |p| <= |a| + 1 + |b|)
  {
    if StartsWith(b, "/") {
      assert PathJoin(a, b) == b && b[|b| - |b|..] == b;
    } else if a == [] || EndsWith(a, "/") {
      var p := a + b;
      assert PathJoin(a, b) == p;
      assert p[..|a|] == a && p[|p| - |b|..] == b;
    } else {
      var p := a + "/" + b;
      assert PathJoin(a, b) == p;
      assert p[..|a|] == a && p[|p| - |b|..] == b;
    }
  }

  /** Length of the head in `os.path.split`: everything up to and including
      the last `/`, or nothing when there is none. */
  function HeadLength(p: string): (n: nat)
    ensures n <= |p|
    ensures '/' !in p[n..]
    ensures n > 0 ==> p[n - 1] == '/'
    decreases |p|
  {
    if p == [] then 0
    else if p[|p| - 1] == '/' then |p|
    else HeadLength(p[..|p| - 1])
  }

  predicate AllSlashes(s: string) {
    forall i :: 0 <= i < |s| ==> s[i] == '/'
  }

  /** `os.path.dirname(p)`: the head, with its trailing slashes removed unless
      it consists of slashes only. */
  function Dirname(p: string): (d: string)
    ensures StartsWith(p, d)
    ensures '/' !in p ==> d == []
  {
    var head := p[..HeadLength(p)];
    if head != [] && !AllSlashes(head) then RStrip(head, {'/'}) else head
  }

  /** The head of `a + "/" + b` is `a + "/"` when `b` has no separator. */
  lemma {:induction false} HeadLengthAfterLastSlash(a: string, b: string)
    requires '/' !in b
    ensures HeadLength(a + "/" + b) == |a| + 1
    decreases |b|
  {
    var p := a + "/" + b;
    if b != [] {
      assert p[..|p| - 1] == a + "/" + b[..|b| - 1];
      assert p[|p| - 1] == b[|b| - 1];
      HeadLengthAfterLastSlash(a, b[..|b| - 1]);
    }
  }

  /** Joining a directory (not ending in `/`) and a bare name, then taking the
      dirname, gives the directory back. */
  lemma DirnameOfJoin(dir: string, name: string)
    requires dir != [] && dir[|dir| - 1] != '/'
    requires '/' !in name
    ensures PathJoin(dir, name) == dir + "/" + name
    ensures Dirname(PathJoin(dir, name)) == dir
  {
    var p := dir + "/" + name;
    assert !StartsWith(name, "/") by {
      if name != [] { assert name[0] != '/'; }
    }
    HeadLengthAfterLastSlash(dir, name);
    var head := p[..|dir| + 1];
    assert head == dir + "/";
    assert head[|dir| - 1] != '/';
    RStripExact(dir, "/", {'/'});
  }

  /** `p[..j]` is a directory on the way to `p`: position `j` starts a run of
      separators that is not at the very front. */
  predicate SeparatorAt(p: string, j: int) {
    0 < j < |p| && p[j] == '/' && p[j - 1] != '/'
  }

  /** The proper prefixes of `d` that end just before a separator run, from
      position `i` on, shallowest first: exactly the `d[..j]` with a
      separator run starting at `j >= i`. */
  function PrefixesFrom(d: string, i: nat): (ps: seq<string>)
    requires 1 <= i <= |d|
    ensures forall k :: 0 <= k < |ps| ==>
      i <= |ps[k]| < |d| && ps[k] == d[..|ps[k]|] && SeparatorAt(d, |ps[k]|)
    ensures forall j :: i <= j && SeparatorAt(d, j) ==> d[..j] in ps
    ensures forall a, b :: 0 <= a < b < |ps| ==> |ps[a]| < |ps[b]|
    decreases |d| - i
  {
    if i == |d| then []
    else (if SeparatorAt(d, i) then [d[..i]] else []) + PrefixesFrom(d, i + 1)
  }

  /** The directories `os.makedirs(d)` makes sure of, shallowest first and `d`
      itself last: every directory on the way to `d`, and nothing else; none
      for the empty path. */
  function DirChain(d: string): (chain: seq<string>)
    ensures d == [] <==> chain == []
    ensures d != [] ==> chain[|chain| - 1] == d
    ensures forall k :: 0 <= k < |chain| ==> StartsWith(d, chain[k])
    ensures forall k :: 0 <= k < |chain| - 1 ==> SeparatorAt(d, |chain[k]|)
    ensures forall j :: SeparatorAt(d, j) ==> d[..j] in chain
    ensures forall a, b :: 0 <= a < b < |chain| ==> |chain[a]| < |chain[b]|
  {
    if d == [] then [] else PrefixesFrom(d, 1) + [d]
  }

  /** The directories on the way to a path are the chain of its dirname. */
  lemma DirChainOfDirname(p: string)
    ensures forall j :: SeparatorAt(p, j) ==> p[..j] in DirChain(Dirname(p))
  {
    var h := HeadLength(p);
    var head := p[..h];
    forall j | SeparatorAt(p, j)
      ensures p[..j] in DirChain(Dirname(p))
    {
      assert j < h;
      assert head[j - 1] == p[j - 1];
      var d := RStrip(head, {'/'});
      assert d == Dirname(p);
      var m := |d|;
      assert j <= m;
      if j == m {
        assert p[..j] == d;
      } else {
        assert d[j] == p[j] && d[j - 1] == p[j - 1];
        assert SeparatorAt(d, j);
        assert d[..j] == p[..j];
      }
    }
  }
}
