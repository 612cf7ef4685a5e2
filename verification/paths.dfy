/** The parts of Python's `posixpath` the scripts rely on. */
module Paths {
  import opened Text

  predicate NoSlash(s: string) { forall i :: 0 <= i < |s| ==> s[i] != '/' }

  /** `posixpath.join(a, b)`: an absolute `b` replaces `a`; otherwise one `/` is put between. */
  function Join(a: string, b: string): string
  {
    if StartsWith(b, "/") then b
    else if a == [] || EndsWith(a, "/") then a + b
    else a + "/" + b
  }

  /** The joined path is `b` itself when `b` is absolute and otherwise ends with `b`, after
      exactly one `/` when `a` is nonempty. */
  lemma JoinShape(a: string, b: string)
    ensures StartsWith(b, "/") ==> Join(a, b) == b
    ensures !StartsWith(b, "/") ==> EndsWith(Join(a, b), b)
    ensures !StartsWith(b, "/") && a != [] ==>
      var p := Join(a, b); |p| > |b| && p[|p| - |b| - 1] == '/' && p[..|p| - |b|] in {a, a + "/"}
  {
    var p := Join(a, b);
    if !StartsWith(b, "/") {
      if a == [] || EndsWith(a, "/") {
        assert p[|p| - |b|..] == b && p[..|p| - |b|] == a;
      } else {
        assert p[|p| - |b|..] == b && p[..|p| - |b|] == a + "/";
      }
    }
  }

  /** `posixpath.basename(p)` (and `posixpath.split(p)[1]`): everything after the last `/`. */
  function Basename(p: string): (b: string)
    ensures NoSlash(b)
    ensures |b| <= |p| && p[|p| - |b|..] == b
  {
    p[RFind(p, '/') + 1..]
  }

  /** A slash-free path is its own basename. */
  lemma BasenameOfName(p: string)
    requires NoSlash(p)
    ensures Basename(p) == p
  {
    RFindUnique(p, '/', -1);
  }

  /** Whatever the directory, the basename of `dir/name` is the slash-free `name`. */
  lemma BasenameInDir(dir: string, name: string)
    requires NoSlash(name)
    ensures Basename(dir + "/" + name) == name
  {
    var p := dir + "/" + name;
    assert p[|dir|] == '/';
    assert forall j :: |dir| < j < |p| ==> p[j] == name[j - |dir| - 1];
    RFindUnique(p, '/', |dir|);
    assert p[|dir| + 1..] == name;
  }

  /** Joining a directory with a slash-free entry name and taking the basename gives the name back. */
  lemma JoinBasename(folder: string, name: string)
    requires NoSlash(name)
    ensures Basename(Join(folder, name)) == name
  {
    var p := Join(folder, name);
    assert !StartsWith(name, "/") by {
      if |name| > 0 { assert name[0] != '/'; }
    }
    assert p == (if folder == [] || EndsWith(folder, "/") then folder else folder + "/") + name;
    if p == name {
      RFindUnique(p, '/', -1);
    } else {
      var k := |p| - |name| - 1;
      assert p[k] == '/';
      assert forall j :: k < j < |p| ==> p[j] == name[j - k - 1];
      RFindUnique(p, '/', k);
      assert p[k + 1..] == name;
    }
  }

  /** True when `p[from..upto]` holds some character other than `.`. */
  predicate HasNonDotIn(p: string, from: int, upto: int)
    requires 0 <= from && upto <= |p|
  {
    exists j :: from <= j < upto && p[j] != '.'
  }

  /** `posixpath.splitext(p)`: the extension starts at the last `.` of the last path
      component, unless every character before that dot in the component is a dot. */
  function SplitExt(p: string): (r: (string, string))
    ensures r.0 + r.1 == p
    ensures r.1 == [] || r.1[0] == '.'
  {
    var sepIndex := RFind(p, '/');
    var dotIndex := RFind(p, '.');
    if dotIndex > sepIndex && HasNonDotIn(p, sepIndex + 1, dotIndex) then
      assert p[..dotIndex] + p[dotIndex..] == p;
      (p[..dotIndex], p[dotIndex..])
    else (p, [])
  }
}
