/** The path tests of internal/service/purge.go, which work on strings, and what they decide about
    path components. */
module Paths {

  import opened Wrappers

  type Comps = seq<string>

  /** The pieces between slashes. */
  function Split(s: string): (r: Comps)
    ensures r != []
  {
    if s == [] then [""]
    else if s[0] == '/' then [""] + Split(s[1..])
    else var rest := Split(s[1..]); [[s[0]] + rest[0]] + rest[1..]
  }

  /** The components of an absolute path. */
  function Components(p: string): Comps
    requires IsAbs(p)
  {
    Split(p[1..])
  }

  predicate IsAbs(p: string) {
    p != [] && p[0] == '/'
  }

  predicate IsName(c: string) {
    c != "" && c != "." && c != ".."
  }

  /** Clean absolute paths other than "/": filepath.Clean leaves exactly these alone. */
  predicate IsCleanAbs(p: string) {
    IsAbs(p) && forall c :: c in Components(p) ==> IsName(c)
  }

  predicate NoSlash(c: string) {
    '/' !in c
  }

  /** Components written back, each behind a slash. */
  function Render(cs: Comps): string {
    if cs == [] then "" else "/" + cs[0] + Render(cs[1..])
  }

  lemma {:induction false} SplitRender(s: string)
    ensures "/" + s == Render(Split(s))
    ensures forall c :: c in Split(s) ==> NoSlash(c)
  {
    SplitUnfold(s);
    if s != [] {
      SplitRender(s[1..]);
      hide Render, Split, NoSlash;
      var rest := Split(s[1..]);
      assert s == [s[0]] + s[1..];
      if s[0] == '/' {
        RenderCons("", rest);
        assert "" + Render(rest) == Render(rest);
        assert NoSlash("") by { EmptyNoSlash(); }
      } else {
        var text := Render(rest[1..]);
        RenderCons(rest[0], rest[1..]);
        RenderCons([s[0]] + rest[0], rest[1..]);
        assert rest == [rest[0]] + rest[1..];
        SameTail(s[1..], rest[0] + text);
        assert [s[0]] + (rest[0] + text) == ([s[0]] + rest[0]) + text;
        LongerHead(s[0], rest);
      }
    } else {
      RenderCons("", []);
    }
  }

  lemma SplitUnfold(s: string)
    ensures Split(s) == if s == [] then [""] + []
                        else if s[0] == '/' then [""] + Split(s[1..])
                        else [[s[0]] + Split(s[1..])[0]] + Split(s[1..])[1..]
  {}

  lemma EmptyNoSlash()
    ensures NoSlash("")
  {}

  lemma SameTail(s: string, t: string)
    requires "/" + s == "/" + t
    ensures s == t
  {
    assert ("/" + s)[1..] == s && ("/" + t)[1..] == t;
  }

  lemma RenderCons(c: string, cs: Comps)
    ensures Render([c] + cs) == "/" + (c + Render(cs))
  {
    assert ([c] + cs)[1..] == cs;
  }

  lemma LongerHead(x: char, cs: Comps)
    requires x != '/' && cs != [] && forall c :: c in cs ==> NoSlash(c)
    ensures forall c :: c in [[x] + cs[0]] + cs[1..] ==> NoSlash(c)
  {
    assert NoSlash(cs[0]) && forall c :: c in cs[1..] ==> c in cs;
  }

  /** A name up to its slash is determined by the text. */
  lemma {:induction false} HeadSegment(x: string, u: string, y: string, v: string)
    requires NoSlash(x) && NoSlash(y) && IsAbs(u) && IsAbs(v)
    ensures x + u <= y + v <==> x == y && u <= v
    decreases |x|
  {
    if x == [] {
      assert x + u == u;
      if y != [] {
        assert (y + v)[0] == y[0] != '/';
      } else {
        assert y + v == v;
      }
    } else if y == [] {
      assert (x + u)[0] == x[0] != '/' && y + v == v;
    } else {
      assert x + u == [x[0]] + (x[1..] + u) && y + v == [y[0]] + (y[1..] + v);
      HeadSegment(x[1..], u, y[1..], v);
      assert x[1..] + u <= y[1..] + v && x[0] == y[0] ==> x + u <= y + v;
      if x + u <= y + v {
        assert (x + u)[0] == (y + v)[0];
        assert (x + u)[1..] == x[1..] + u && (y + v)[1..] == y[1..] + v;
        assert (x + u)[1..] <= (y + v)[1..];
        assert x == [x[0]] + x[1..] && y == [y[0]] + y[1..];
      }
    }
  }

  /** Rendered with a final slash, string prefix is component prefix. */
  lemma {:induction false} RenderedPrefix(a: Comps, b: Comps)
    requires forall c :: c in a ==> NoSlash(c)
    requires forall c :: c in b ==> NoSlash(c)
    ensures Render(a) + "/" <= Render(b) + "/" <==> a <= b
    decreases |a|
  {
    if a == [] {
      if b != [] { assert (Render(b) + "/")[0] == '/'; }
    } else if b == [] {
      assert |Render(a) + "/"| >= 2;
    } else {
      hide Render;
      var u, v := Render(a[1..]) + "/", Render(b[1..]) + "/";
      RenderedHead(a);
      RenderedHead(b);
      HeadSegment(a[0], u, b[0], v);
      RenderedPrefix(a[1..], b[1..]);
      SlashFirst(a[0] + u, b[0] + v);
      PrefixCons(a, b);
    }
  }

  lemma RenderedHead(a: Comps)
    requires a != []
    ensures var u := Render(a[1..]) + "/";
            IsAbs(u) && Render(a) + "/" == "/" + (a[0] + u)
  {
    assert a == [a[0]] + a[1..];
    RenderCons(a[0], a[1..]);
    if a[1..] != [] {
      assert Render(a[1..])[0] == '/';
    }
  }

  lemma PrefixCons(a: Comps, b: Comps)
    requires a != [] && b != []
    ensures a <= b <==> a[0] == b[0] && a[1..] <= b[1..]
  {
    assert a == [a[0]] + a[1..] && b == [b[0]] + b[1..];
  }

  lemma SlashFirst(s: string, t: string)
    ensures "/" + s <= "/" + t <==> s <= t
  {
    if "/" + s <= "/" + t {
      assert ("/" + s)[1..] == s && ("/" + t)[1..] == t;
      assert forall i :: 0 <= i < |s| ==> s[i] == ("/" + s)[i + 1] == ("/" + t)[i + 1] == t[i];
    }
  }

  /** strings.HasPrefix(p+"/", root+"/"). */
  predicate Inside(p: string, root: string) {
    root + "/" <= p + "/"
  }

  function IsEqualOrAncestor(candidate: string, base: string): bool {
    candidate == base || candidate + "/" <= base
  }

  /** The string test of validatePurgePath decides containment of path components: no "/a/b2"
      inside "/a/b". */
  lemma InsideIsComponentPrefix(p: string, root: string)
    requires IsAbs(p) && IsAbs(root)
    ensures Inside(p, root) <==> Components(root) <= Components(p)
  {
    SplitRender(p[1..]);
    SplitRender(root[1..]);
    assert p == "/" + p[1..] && root == "/" + root[1..];
    RenderedPrefix(Components(root), Components(p));
  }

  /** isEqualOrAncestor decides the same relation, the other way round. */
  lemma AncestorIsComponentPrefix(candidate: string, base: string)
    requires IsAbs(candidate) && IsAbs(base)
    ensures IsEqualOrAncestor(candidate, base) <==> Components(candidate) <= Components(base)
  {
    InsideIsComponentPrefix(base, candidate);
    if Inside(base, candidate) && candidate != base {
      var c, b := candidate + "/", base + "/";
      assert c == b[..|c|];
      assert candidate == c[..|candidate|] == b[..|candidate|];
      assert base == b[..|base|];
      assert |c| <= |base|;
      assert c == b[..|c|] == base[..|c|];
    }
  }

  /** The extra equality test after the prefix test never decides anything. */
  lemma EqualityTestRedundant(resolved: string, root: string)
    ensures resolved == root ==> Inside(resolved, root)
  {}

  // ----- filepath.Clean on absolute paths -----

  /** What is left of the components cs on top of the stack: empty and "." pieces are dropped, ".."
      takes one back and stops at the root. */
  function Fold(stack: Comps, cs: Comps): (r: Comps)
    ensures (forall c :: c in stack ==> IsName(c)) ==> forall c :: c in r ==> IsName(c)
    ensures forall c :: c in r ==> c in stack || c in cs
    decreases |cs|
  {
    if cs == [] then stack
    else if cs[0] == "" || cs[0] == "." then Fold(stack, cs[1..])
    else if cs[0] == ".." then Fold(if stack == [] then [] else stack[..|stack| - 1], cs[1..])
    else Fold(stack + [cs[0]], cs[1..])
  }

  function Clean(p: string): string
    requires IsAbs(p)
  {
    var stack := Fold([], Components(p));
    if stack == [] then "/" else Render(stack)
  }

  lemma {:induction false} FoldNames(stack: Comps, cs: Comps)
    requires forall c :: c in cs ==> IsName(c)
    ensures Fold(stack, cs) == stack + cs
    decreases |cs|
  {
    if cs == [] {
      assert stack + cs == stack;
    } else {
      assert cs[0] in cs;
      FoldNames(stack + [cs[0]], cs[1..]);
      assert stack + [cs[0]] + cs[1..] == stack + cs;
    }
  }

  lemma RenderInjective(a: Comps, b: Comps)
    requires forall c :: c in a ==> NoSlash(c)
    requires forall c :: c in b ==> NoSlash(c)
    requires Render(a) == Render(b)
    ensures a == b
  {
    RenderedPrefix(a, b);
    RenderedPrefix(b, a);
  }

  /** Splitting and writing back are inverse, both ways. */
  lemma ComponentsRender(cs: Comps)
    requires cs != [] && forall c :: c in cs ==> NoSlash(c)
    ensures IsAbs(Render(cs)) && Components(Render(cs)) == cs
  {
    var p := Render(cs);
    SplitRender(p[1..]);
    assert p == "/" + p[1..];
    RenderInjective(Components(p), cs);
  }

  /** Clean leaves exactly the root and the paths made of proper names alone, and what it returns is
      one of those. */
  lemma CleanExact(p: string)
    requires IsAbs(p)
    ensures Clean(p) == p <==> p == "/" || IsCleanAbs(p)
    ensures Clean(p) == "/" || IsCleanAbs(Clean(p))
  {
    SplitRender(p[1..]);
    assert p == "/" + p[1..];
    var stack := Fold([], Components(p));
    if IsCleanAbs(p) {
      FoldNames([], Components(p));
      assert [] + Components(p) == Components(p);
    }
    if stack != [] {
      ComponentsRender(stack);
    }
    if p == "/" {
      assert Components(p) == [""];
      assert Fold([], [""]) == Fold([], []);
    }
  }

  // ----- validatePurgePath -----

  const BLOCKED: set<string> := {"/etc", "/var", "/usr", "/usr/local", "/tmp", "/bin", "/sbin", "/lib",
                                 "/lib64", "/boot", "/dev", "/proc", "/sys", "/run"}

  type AbsPath = p: string | IsAbs(p) witness "/"

  /** What filepath.EvalSymlinks makes of an absolute path. */
  datatype Resolution = Missing | Broken | To(path: AbsPath)

  predicate Holds(home: string, path: string)
    requires IsAbs(path)
  {
    IsAbs(home) && Components(path) <= Components(home)
  }

  /** An empty root would cover everything; any other root covers what lies below it. */
  predicate Covers(root: string, resolved: AbsPath) {
    root == "" || (IsAbs(root) && Components(root) <= Components(resolved))
  }

  /** The paths that may be removed: proper, outside the home line and the blocked list, and absent
      or really below an allowed root. */
  predicate Removable(path: string, home: Option<string>, resolution: Resolution, roots: seq<string>) {
    && IsCleanAbs(path)
    && !(home.Some? && Holds(home.value, path))
    && path !in BLOCKED
    && (resolution.Missing? || (resolution.To? && exists root :: root in roots && Covers(root, resolution.path)))
  }

  /** The same in terms of the strings: absolute, no empty, "." or ".." piece, not $HOME and not above
      it, not one of the blocked system roots, and missing or at or below a root once resolved. */
  ghost predicate SafeToRemove(path: string, home: Option<string>, resolution: Resolution, roots: seq<string>) {
    && path != "" && path[0] == '/'
    && (forall c :: c in Split(path[1..]) ==> c != "" && c != "." && c != "..")
    && (home.Some? ==> path != home.value && !(path + "/" <= home.value))
    && path !in {"/etc", "/var", "/usr", "/usr/local", "/tmp", "/bin", "/sbin", "/lib", "/lib64", "/boot", "/dev",
                 "/proc", "/sys", "/run"}
    && (resolution.Missing? || (resolution.To? && exists root :: root in roots && root + "/" <= resolution.path + "/"))
  }

  lemma RemovableExact(path: string, home: Option<string>, resolution: Resolution, roots: seq<string>)
    ensures Removable(path, home, resolution, roots) <==> SafeToRemove(path, home, resolution, roots)
  {
    hide Components, BLOCKED, Split;
    assert IsCleanAbs(path) <==>
             path != "" && path[0] == '/' && forall c :: c in Split(path[1..]) ==> c != "" && c != "." && c != ".."
      by { CleanIsNames(path); }
    if IsAbs(path) && home.Some? { HomeIsComponents(path, home.value); }
    assert path in BLOCKED <==> path in {"/etc", "/var", "/usr", "/usr/local", "/tmp", "/bin", "/sbin", "/lib", "/lib64",
                                         "/boot", "/dev", "/proc", "/sys", "/run"} by { BlockedIs(path); }
    if resolution.To? {
      forall root ensures Covers(root, resolution.path) <==> root + "/" <= resolution.path + "/" {
        RootIsComponents(root, resolution.path);
      }
    }
  }

  lemma CleanIsNames(path: string)
    ensures IsCleanAbs(path) <==>
              path != "" && path[0] == '/' && forall c :: c in Split(path[1..]) ==> c != "" && c != "." && c != ".."
  {
    if IsAbs(path) {
      assert Components(path) == Split(path[1..]);
      assert forall c :: c in Components(path) ==> (IsName(c) <==> c != "" && c != "." && c != "..");
    }
  }

  lemma BlockedIs(path: string)
    ensures path in BLOCKED <==> path in {"/etc", "/var", "/usr", "/usr/local", "/tmp", "/bin", "/sbin", "/lib", "/lib64",
                                          "/boot", "/dev", "/proc", "/sys", "/run"}
  {}

  /** validatePurgePath; every refusal is the same error, ErrSuspiciousPath. Relative paths are
      refused whether or not they are clean. */
  method ValidatePurgePath(path: string, home: Option<string>, resolution: Resolution, roots: seq<string>)
    returns (ok: bool)
    ensures ok <==> Removable(path, home, resolution, roots)
    ensures ok <==> SafeToRemove(path, home, resolution, roots)
  {
    RemovableExact(path, home, resolution, roots);
    hide Clean, Components, IsEqualOrAncestor, Holds, Covers, BLOCKED, SafeToRemove;
    if path == "" { return false; }
    if !IsAbs(path) { return false; }
    CleanExact(path);
    if Clean(path) != path { return false; }
    if path == "/" {
      RootNotClean();
      return false;
    }
    if home.Some? && IsEqualOrAncestor(path, home.value) {
      HomeIsComponents(path, home.value);
      return false;
    }
    if home.Some? { HomeIsComponents(path, home.value); }
    if path in BLOCKED { return false; }
    if resolution.Missing? { return true; }
    if resolution.Broken? { return false; }
    for i := 0 to |roots|
      invariant forall j :: 0 <= j < i ==> !Covers(roots[j], resolution.path)
    {
      RootIsComponents(roots[i], resolution.path);
      if Inside(resolution.path, roots[i]) { return true; }
      if resolution.path == roots[i] { return true; }
    }
    return false;
  }

  lemma RootNotClean()
    ensures !IsCleanAbs("/")
  {
    assert Components("/") == [""] && "" in Components("/");
  }

  lemma RootIsComponents(root: string, resolved: AbsPath)
    ensures Inside(resolved, root) <==> Covers(root, resolved)
  {
    if IsAbs(root) {
      InsideIsComponentPrefix(resolved, root);
    } else if root != "" {
      assert (root + "/")[0] == root[0] && (resolved + "/")[0] == '/';
    } else {
      assert root + "/" == "/";
    }
  }

  lemma HomeIsComponents(path: string, home: string)
    requires IsAbs(path)
    ensures IsEqualOrAncestor(path, home) <==> Holds(home, path)
  {
    if IsAbs(home) {
      AncestorIsComponentPrefix(path, home);
    } else {
      assert (path + "/")[0] == '/';
    }
  }
}
