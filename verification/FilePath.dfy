/** Absolute paths: what is left of a file name once "." and ".." are resolved. */
module FilePath {

  /** The directories of an absolute path, and what follows the last slash. */
  datatype Path = Path(dirs: seq<string>, last: string)

  function Dirs(dirs: seq<string>): string {
    if dirs == [] then "" else Dirs(dirs[..|dirs| - 1]) + dirs[|dirs| - 1] + "/"
  }

  function Render(p: Path): string { "/" + Dirs(p.dirs) + p.last }

  function Parent(dirs: seq<string>): seq<string> {
    if dirs == [] then [] else dirs[..|dirs| - 1]
  }

  /** A path without the slash at its end; the root keeps it. */
  function Closed(dirs: seq<string>): Path {
    if dirs == [] then Path([], "") else Path(dirs[..|dirs| - 1], dirs[|dirs| - 1])
  }

  /** Length of the component at the start of a name. */
  function Head(t: string): (k: nat)
    ensures k <= |t| && '/' !in t[..k] && (k < |t| ==> t[k] == '/')
  {
    if t == "" || t[0] == '/' then 0 else 1 + Head(t[1..])
  }

  /** The directories after one more component. */
  function Enter(dirs: seq<string>, name: string): seq<string> {
    if name == "." then dirs else if name == ".." then Parent(dirs) else dirs + [name]
  }

  function Leaf(dirs: seq<string>, name: string): Path {
    if name == "." then Closed(dirs) else if name == ".." then Closed(Parent(dirs)) else Path(dirs, name)
  }

  /** Resolve the rest of a name, component by component, from a directory. */
  function Resolve(dirs: seq<string>, t: string): Path
    decreases |t|
  {
    var k := Head(t);
    if k == |t| then Leaf(dirs, t) else Resolve(Enter(dirs, t[..k]), t[k + 1..])
  }

  /** An absolute name is resolved from the root, any other from the working directory. */
  function Absolute(cwd: seq<string>, name: string): Path {
    if name != "" && name[0] == '/' then Resolve([], name[1..]) else Resolve(cwd, name)
  }

  predicate Plain(name: string) {
    '/' !in name && name != "." && name != ".."
  }

  predicate PlainDirs(dirs: seq<string>) {
    forall i :: 0 <= i < |dirs| ==> Plain(dirs[i])
  }

  predicate Normal(p: Path) {
    PlainDirs(p.dirs) && Plain(p.last)
  }

  lemma {:induction false} ResolveNormal(dirs: seq<string>, t: string)
    requires PlainDirs(dirs)
    ensures Normal(Resolve(dirs, t))
    decreases |t|
  {
    var k := Head(t);
    if k == |t| {
      assert t[..k] == t;
    } else {
      ResolveNormal(Enter(dirs, t[..k]), t[k + 1..]);
    }
  }

  lemma {:induction false} HeadIs(a: string, t: string)
    requires '/' !in a
    ensures Head(a) == |a| && Head(a + "/" + t) == |a|
    ensures (a + "/" + t)[..|a|] == a && (a + "/" + t)[|a| + 1..] == t
  {
    if a != "" {
      assert (a + "/" + t)[1..] == a[1..] + "/" + t;
      assert '/' !in a[1..];
      HeadIs(a[1..], t);
    } else {
      assert a + "/" + t == "/" + t;
    }
  }

  lemma {:induction false} DirsFront(dirs: seq<string>)
    requires dirs != []
    ensures Dirs(dirs) == dirs[0] + "/" + Dirs(dirs[1..])
  {
    hide Dirs;
    var before, last := dirs[..|dirs| - 1], dirs[|dirs| - 1];
    DirsBack(dirs);
    if before != [] {
      DirsFront(before);
      assert dirs[1..][..|dirs| - 2] == before[1..] && dirs[1..][|dirs| - 2] == last;
      DirsBack(dirs[1..]);
      assert dirs[0] + "/" + Dirs(before[1..]) + last + "/" == dirs[0] + "/" + (Dirs(before[1..]) + last + "/");
    } else {
      NoDirs();
      assert dirs[1..] == [] && before == [];
      assert "" + dirs[0] + "/" == dirs[0] + "/" + "";
    }
  }

  lemma DirsBack(dirs: seq<string>)
    ensures dirs == [] ==> Dirs(dirs) == ""
    ensures dirs != [] ==> Dirs(dirs) == Dirs(dirs[..|dirs| - 1]) + dirs[|dirs| - 1] + "/"
  {
  }

  /** A normal path stays what it is. */
  lemma {:induction false} ResolveAgain(base: seq<string>, dirs: seq<string>, last: string)
    requires PlainDirs(dirs) && Plain(last)
    ensures Resolve(base, Dirs(dirs) + last) == Path(base + dirs, last)
    decreases |dirs|
  {
    hide Resolve, Dirs;
    NoDirs();
    if dirs == [] {
      ResolveLeaf(base, last);
      assert Dirs(dirs) + last == last && base + dirs == base;
    } else {
      DirsFront(dirs);
      var rest := Dirs(dirs[1..]) + last;
      assert Dirs(dirs) + last == dirs[0] + "/" + rest;
      ResolveEnter(base, dirs[0], rest);
      ResolveAgain(base + [dirs[0]], dirs[1..], last);
      assert base + [dirs[0]] + dirs[1..] == base + dirs;
    }
  }

  lemma NoDirs()
    ensures Dirs([]) == ""
  {
  }

  lemma ResolveLeaf(base: seq<string>, name: string)
    requires Plain(name)
    ensures Resolve(base, name) == Path(base, name)
  {
    HeadIs(name, "");
  }

  lemma ResolveEnter(base: seq<string>, name: string, rest: string)
    requires Plain(name)
    ensures Resolve(base, name + "/" + rest) == Resolve(base + [name], rest)
  {
    HeadIs(name, rest);
  }

  /** The result does not depend on the working directory any more, and a second time changes
      nothing. */
  lemma Idempotent(cwd: seq<string>, other: seq<string>, name: string)
    requires PlainDirs(cwd)
    ensures Normal(Absolute(cwd, name))
    ensures Absolute(other, Render(Absolute(cwd, name))) == Absolute(cwd, name)
  {
    hide Resolve;
    if name != "" && name[0] == '/' {
      ResolveNormal([], name[1..]);
    } else {
      ResolveNormal(cwd, name);
    }
    var p := Absolute(cwd, name);
    assert Render(p)[1..] == Dirs(p.dirs) + p.last;
    ResolveAgain([], p.dirs, p.last);
    assert [] + p.dirs == p.dirs;
  }

  /** What is between a slash and the next one, or the end, is a component. */
  predicate Component(r: string, i: nat, j: nat) {
    i < j <= |r| && r[i] == '/' && (j == |r| || r[j] == '/') && '/' !in r[i + 1..j]
  }

  /** The component after the last slash. */
  lemma LastComponent(r: string, before: string, tail: string, i: nat, j: nat)
    requires r == before + "/" + tail && '/' !in tail && |before| <= i && Component(r, i, j)
    ensures r[i + 1..j] == tail
  {
    forall k | |before| < k < |r| ensures r[k] != '/' {
      assert r[k] == tail[k - |before| - 1];
    }
    assert r[|before| + 1..] == tail;
  }

  lemma {:induction false} ComponentsOfDirs(dirs: seq<string>, tail: string, i: nat, j: nat)
    requires PlainDirs(dirs) && Plain(tail) && Component("/" + Dirs(dirs) + tail, i, j)
    ensures Plain(("/" + Dirs(dirs) + tail)[i + 1..j])
    decreases |dirs|
  {
    var r := "/" + Dirs(dirs) + tail;
    if dirs == [] {
      assert r == "" + "/" + tail;
      LastComponent(r, "", tail, i, j);
    } else {
      var before, last := dirs[..|dirs| - 1], dirs[|dirs| - 1];
      var short := "/" + Dirs(before) + last;
      assert r == short + "/" + tail;
      if i >= |short| {
        LastComponent(r, short, tail, i, j);
      } else {
        EarlierComponent(r, short, tail, i, j);
        ComponentsOfDirs(before, last, i, j);
      }
    }
  }

  lemma EarlierComponent(r: string, short: string, tail: string, i: nat, j: nat)
    requires r == short + "/" + tail && i < |short| && Component(r, i, j)
    ensures Component(short, i, j) && short[i + 1..j] == r[i + 1..j]
  {
    forall k | i < k < j ensures r[k] != '/' {
      assert r[i + 1..j][k - i - 1] == r[k];
    }
    assert r[|short|] == '/';
    assert r[..|short|] == short;
    assert short[i + 1..j] == r[i + 1..j];
  }

  /** The resolved path starts at the root and has no component "." or "..". */
  lemma NoDots(cwd: seq<string>, name: string, i: nat, j: nat)
    requires PlainDirs(cwd) && Component(Render(Absolute(cwd, name)), i, j)
    ensures Render(Absolute(cwd, name))[0] == '/'
    ensures Render(Absolute(cwd, name))[i + 1..j] != "." && Render(Absolute(cwd, name))[i + 1..j] != ".."
  {
    Idempotent(cwd, cwd, name);
    var p := Absolute(cwd, name);
    ComponentsOfDirs(p.dirs, p.last, i, j);
  }
}
