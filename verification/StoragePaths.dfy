// Path generation and the containment test of the receiver's storage service.
//
// A resolved absolute path is the sequence of its components; `PathStr` is how
// pathlib prints it. The upload root is absolute and free of symbolic links.
module StoragePaths {
  import opened Prelude
  import opened PathSanitizer

  type Path = seq<string>

  /** A component that `Path.resolve` keeps: non-empty, no separator, not "." or "..". */
  predicate Component(c: string) {
    c != "" && '/' !in c && c != "." && c != ".."
  }

  predicate Normal(p: Path) {
    forall i :: 0 <= i < |p| ==> Component(p[i])
  }

  /** `Path.resolve` without symbolic links. */
  function Resolve(p: Path): Path {
    if p == [] then []
    else
      var init := Resolve(p[..|p| - 1]);
      var last := p[|p| - 1];
      if last == "" || last == "." then init
      else if last == ".." then (if init == [] then [] else init[..|init| - 1])
      else init + [last]
  }

  function Join(p: Path): string {
    if p == [] then "" else "/" + p[0] + Join(p[1..])
  }

  /** `str(path)` of an absolute path. */
  function PathStr(p: Path): string {
    if p == [] then "/" else Join(p)
  }

  /** `target` lies strictly below `dir`, component by component. */
  predicate StrictlyInside(dir: Path, target: Path) {
    |dir| < |target| && target[..|dir|] == dir
  }

  /** `_validate_path_under_root`: the test on printed paths. */
  predicate ValidatePathUnderRoot(root: Path, target: Path) {
    var r := Resolve(root);
    var t := Resolve(target);
    t == r || StartsWith(PathStr(t), PathStr(r) + "/")
  }

  function ResolveSessionPath(root: Path, sessionId: string): Path {
    root + [Sanitize(sessionId)]
  }

  predicate Whitespace(c: char) {
    c == ' ' || c == '\t' || c == '\n' || c == '\r'
  }

  function TrimLeft(s: string): string {
    if s != [] && Whitespace(s[0]) then TrimLeft(s[1..]) else s
  }

  function TrimRight(s: string): string {
    if s != [] && Whitespace(s[|s| - 1]) then TrimRight(s[..|s| - 1]) else s
  }

  /** `_generate_storage_name`; the empty string stands for "no extension". */
  function StorageName(fileId: string, extension: string): string {
    if extension == "" then fileId
    else
      var ext := TrimRight(TrimLeft(Lower(extension)));
      fileId + "." + (if StartsWith(ext, ".") then ext[1..] else ext)
  }

  function StoragePath(root: Path, sessionId: string, fileId: string, extension: string): Path {
    ResolveSessionPath(root, sessionId) + [StorageName(fileId, extension)]
  }

  // ---- The prefix test against component-wise containment -----------------

  lemma {:induction false} ResolveNormal(p: Path)
    requires Normal(p)
    ensures Resolve(p) == p
  {
    if p != [] {
      ResolveNormal(p[..|p| - 1]);
      assert Component(p[|p| - 1]);
      assert p == p[..|p| - 1] + [p[|p| - 1]];
    }
  }

  /** A printed path is cut into components at its separators, and nowhere else. */
  lemma HeadComponent(a: string, b: string, x: string, y: string)
    requires '/' !in a && '/' !in b
    requires x != "" && x[0] == '/'
    requires y == "" || y[0] == '/'
    requires StartsWith(b + y, a + x)
    ensures a == b && StartsWith(y, x)
  {
    var u, v := a + x, b + y;
    assert v[..|u|] == u;
    assert u[|a|] == '/' && v[|a|] == u[|a|];
    assert forall k :: 0 <= k < |b| ==> v[k] == b[k] && v[k] != '/';
    assert forall k :: 0 <= k < |a| ==> v[k] == u[k] == a[k] && v[k] != '/';
    assert |b| < |v| ==> v[|b|] == y[0];
    assert |a| == |b|;
    assert a == u[..|a|] == v[..|a|] == b;
    assert y[..|x|] == v[|a|..|u|] == u[|a|..] == x;
  }

  /** Printing splits off the first component. */
  lemma JoinHead(p: Path)
    requires p != []
    ensures Join(p) == "/" + (p[0] + Join(p[1..]))
  {
  }

  lemma InsideTail(root: Path, target: Path)
    requires root != [] && target != []
    ensures StrictlyInside(root, target) <==> root[0] == target[0] && StrictlyInside(root[1..], target[1..])
  {
    if |root| < |target| {
      assert root == [root[0]] + root[1..];
      assert target[..|root|] == [target[0]] + target[1..][..|root| - 1];
      if target[..|root|] == root {
        assert target[..|root|][0] == target[0];
        assert target[..|root|][1..] == target[1..][..|root| - 1];
      }
    }
  }

  lemma StartsWithSlash(x: string, y: string)
    ensures StartsWith("/" + y, "/" + x) <==> StartsWith(y, x)
  {
    var lhs, rhs := "/" + x, "/" + y;
    if |x| <= |y| {
      assert rhs[..|lhs|] == "/" + y[..|x|];
      if rhs[..|lhs|] == lhs {
        assert y[..|x|] == rhs[..|lhs|][1..] == lhs[1..] == x;
      }
    }
  }

  lemma StartsWithSame(a: string, x: string, y: string)
    ensures StartsWith(y, x) ==> StartsWith(a + y, a + x)
  {
    if |x| <= |y| {
      assert (a + y)[..|a + x|] == a + y[..|x|];
    }
  }

  lemma {:induction false} JoinPrefix(root: Path, target: Path)
    requires Normal(root) && Normal(target)
    ensures StartsWith(Join(target), Join(root) + "/") <==> StrictlyInside(root, target)
  {
    if root == [] {
      assert Join(root) + "/" == "/";
      if target != [] { JoinHead(target); }
    } else if target != [] {
      var x, y := Join(root[1..]) + "/", Join(target[1..]);
      JoinPrefix(root[1..], target[1..]);
      InsideTail(root, target);
      assert Component(root[0]) && Component(target[0]);
      JoinHead(root);
      JoinHead(target);
      assert Join(root) + "/" == "/" + (root[0] + x);
      StartsWithSlash(root[0] + x, target[0] + y);
      if StartsWith(target[0] + y, root[0] + x) {
        if root[1..] != [] { JoinHead(root[1..]); }
        if target[1..] != [] { JoinHead(target[1..]); }
        HeadComponent(root[0], target[0], x, y);
      }
      StartsWithSame(root[0], x, y);
    }
  }

  /** The string test agrees with component-wise containment, except below the root "/" itself,
      where `str(root) + os.sep` is "//" and nothing but the root passes. */
  lemma PrefixTestExact(root: Path, target: Path)
    requires Normal(root) && Normal(target)
    ensures ValidatePathUnderRoot(root, target)
       <==> target == root || (root != [] && StrictlyInside(root, target))
  {
    ResolveNormal(root);
    ResolveNormal(target);
    if root == [] {
      if target != [] {
        assert Component(target[0]);
        var s := Join(target);
        assert s == "/" + (target[0] + Join(target[1..]));
        assert s[1] == target[0][0] != '/';
        assert (PathStr(root) + "/")[1] == '/';
      }
    } else {
      JoinPrefix(root, target);
    }
  }

  // ---- Generated paths -----------------------------------------------------

  /** Extensions as they reach the storage layer: table entries without the dot, or none. */
  predicate PlainExtension(ext: string) {
    forall i :: 0 <= i < |ext| ==> 'a' <= ext[i] <= 'z' || '0' <= ext[i] <= '9'
  }

  lemma StorageNamePlain(fileId: string, ext: string)
    requires PlainExtension(ext)
    ensures StorageName(fileId, ext) == if ext == "" then fileId else fileId + "." + ext
  {
    assert Lower(ext) == ext;
    if ext != "" {
      assert !Whitespace(ext[0]) && !Whitespace(ext[|ext| - 1]) && ext[0] != '.';
      assert ext[..1][0] == ext[0];
    }
  }

  lemma SanitizedComponent(sessionId: string)
    ensures Component(Sanitize(sessionId))
  {
    SanitizeIsClean(sessionId);
    var s := Sanitize(sessionId);
    assert forall i :: 0 <= i < |s| ==> AllowedChar(s[i]) && s[i] != '/';
  }

  lemma StorageNameComponent(fileId: string, ext: string)
    requires HexId(fileId) && PlainExtension(ext)
    ensures Component(StorageName(fileId, ext))
  {
    StorageNamePlain(fileId, ext);
    var n := StorageName(fileId, ext);
    forall i | 0 <= i < |n| ensures n[i] != '/' {
      if i < 32 { assert n[i] == fileId[i] && HexDigit(fileId[i]); }
      else if i > 32 { assert n[i] == ext[i - 33]; }
    }
  }

  /** Whatever the session id, the generated path lies strictly inside its session directory, which
      lies strictly inside the root; and the test that guards every write passes. */
  lemma GeneratedPathContained(root: Path, sessionId: string, fileId: string, ext: string)
    requires Normal(root) && HexId(fileId) && PlainExtension(ext)
    ensures var p := StoragePath(root, sessionId, fileId, ext);
            && Resolve(p) == p
            && StrictlyInside(ResolveSessionPath(root, sessionId), p)
            && StrictlyInside(root, ResolveSessionPath(root, sessionId))
            && (ValidatePathUnderRoot(root, p) <==> root != [])
  {
    SanitizedComponent(sessionId);
    StorageNameComponent(fileId, ext);
    var p := StoragePath(root, sessionId, fileId, ext);
    assert Normal(p);
    ResolveNormal(p);
    assert p[..|root| + 1] == ResolveSessionPath(root, sessionId);
    assert p[..|root|] == root;
    PrefixTestExact(root, p);
  }

  lemma StorageNameInjective(f: string, e: string, f': string, e': string)
    requires HexId(f) && HexId(f') && PlainExtension(e) && PlainExtension(e')
    ensures StorageName(f, e) == StorageName(f', e') <==> f == f' && e == e'
  {
    StorageNamePlain(f, e);
    StorageNamePlain(f', e');
    var n, n' := StorageName(f, e), StorageName(f', e');
    if n == n' {
      assert n[..32] == f && n'[..32] == f';
      assert |e| == |e'|;
      if e != "" { assert n[33..] == e && n'[33..] == e'; }
    }
  }

  /** Different hex sessions and files never share a path. */
  lemma GeneratedPathsDistinct(root: Path, s: string, f: string, e: string, s': string, f': string, e': string)
    requires HexId(s) && HexId(s') && HexId(f) && HexId(f') && PlainExtension(e) && PlainExtension(e')
    ensures StoragePath(root, s, f, e) == StoragePath(root, s', f', e') <==> s == s' && f == f' && e == e'
  {
    SanitizeHexIdentity(s);
    SanitizeHexIdentity(s');
    StorageNameInjective(f, e, f', e');
    var p, p' := StoragePath(root, s, f, e), StoragePath(root, s', f', e');
    assert p[|root|] == s && p'[|root|] == s';
    assert p[|root| + 1] == StorageName(f, e) && p'[|root| + 1] == StorageName(f', e');
  }
}
