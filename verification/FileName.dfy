/** Making a file name absolute, in its own buffer. */
module FileName {
  import opened FilePath
  import opened Text

  const FILENAME_MAX := 4096

  /** The directory part of a path under construction, up to and with its last slash. */
  function Stem(dirs: seq<string>): (s: string)
    ensures s != ""
  {
    "/" + Dirs(dirs)
  }

  lemma RenderStem(dirs: seq<string>)
    ensures Render(Path(dirs, "")) == Stem(dirs)
    ensures Render(Closed(dirs)) == if |Stem(dirs)| > 1 then Stem(dirs)[..|Stem(dirs)| - 1] else Stem(dirs)
    ensures Stem(dirs)[|Stem(dirs)| - 1] == '/' && (|Stem(dirs)| == 1 <==> dirs == [])
  {
    if dirs != [] {
      var before, last := dirs[..|dirs| - 1], dirs[|dirs| - 1];
      assert Stem(dirs) == "/" + Dirs(before) + last + "/";
      assert Stem(dirs)[..|Stem(dirs)| - 1] == "/" + Dirs(before) + last;
    }
  }

  /** Cutting a stem after the slash before its last one gives the stem of the parent. */
  lemma ParentStem(dirs: seq<string>, slash: int)
    requires PlainDirs(dirs) && IsLastSlash(Stem(dirs)[..|Stem(dirs)| - 1], slash)
    ensures Stem(Parent(dirs)) == if slash >= 0 then Stem(dirs)[..slash + 1] else "/"
  {
    hide Stem;
    RenderStem(dirs);
    if dirs == [] {
      assert Stem(dirs)[..0] == "";
      StemRoot();
    } else {
      var before, last := dirs[..|dirs| - 1], dirs[|dirs| - 1];
      StemSnoc(before, last);
      assert dirs == before + [last];
      RenderStem(before);
      assert Stem(dirs)[..|Stem(dirs)| - 1] == Stem(before) + last;
      SlashBefore(Stem(before), last, slash);
    }
  }

  lemma StemRoot()
    ensures Stem([]) == "/"
  {
  }

  /** The last slash of a stem with a name behind it. */
  lemma SlashBefore(stem: string, last: string, slash: int)
    requires stem != "" && stem[|stem| - 1] == '/' && Plain(last) && IsLastSlash(stem + last, slash)
    ensures slash == |stem| - 1 && (stem + last)[..slash + 1] == stem
  {
    var s := stem + last;
    forall k | |stem| <= k < |s| ensures s[k] != '/' { assert s[k] == last[k - |stem|]; }
    assert s[|stem| - 1] == '/';
  }

  /** The place of the last slash, or -1. */
  predicate IsLastSlash(s: string, slash: int) {
    -1 <= slash < |s| && (slash >= 0 ==> s[slash] == '/') && forall k :: slash < k < |s| ==> s[k] != '/'
  }

  method LastSlash(text: array<char>, n: nat) returns (slash: int)
    requires n <= text.Length
    ensures IsLastSlash(text[..n], slash)
  {
    slash := n - 1;
    while slash >= 0 && text[slash] != '/'
      invariant -1 <= slash < n
      invariant forall k :: slash < k < n ==> text[k] != '/'
    {
      slash := slash - 1;
    }
  }

  /** The stem is built and t is still to be resolved. */
  ghost predicate Resolving(out: string, dirs: seq<string>, t: string, goal: Path) {
    out == Stem(dirs) && PlainDirs(dirs) && Resolve(dirs, t) == goal
  }

  /** A dot component with a slash is skipped; at the end the slash before it goes, too. */
  lemma StepDot(out: string, dirs: seq<string>, t: string, goal: Path)
    requires Resolving(out, dirs, t, goal) && t != "" && t[0] == '.'
    ensures |t| > 1 && t[1] == '/' ==> Resolving(out, dirs, t[2..], goal)
    ensures |t| == 1 ==> Render(goal) == if |out| > 1 then out[..|out| - 1] else out
  {
    RenderStem(dirs);
    if |t| > 1 && t[1] == '/' {
      assert t == "." + "/" + t[2..];
      HeadIs(".", t[2..]);
    } else if |t| == 1 {
      assert t == ".";
      HeadIs(".", "");
    }
  }

  lemma StepDotDot(out: string, dirs: seq<string>, t: string, goal: Path, slash: int)
    requires Resolving(out, dirs, t, goal) && |t| > 1 && t[0] == t[1] == '.'
    requires IsLastSlash(out[..|out| - 1], slash)
    ensures var up := if slash >= 0 then out[..slash + 1] else "/";
      && (|t| > 2 && t[2] == '/' ==> Resolving(up, Parent(dirs), t[3..], goal))
      && (|t| == 2 ==> Render(goal) == if |up| > 1 then up[..|up| - 1] else up)
  {
    hide Resolve, Dirs, IsLastSlash;
    ParentStem(dirs, slash);
    RenderStem(Parent(dirs));
    ParentPlain(dirs);
    if |t| > 2 && t[2] == '/' {
      assert t == ".." + "/" + t[3..];
      ResolveUp(dirs, t[3..]);
    } else if |t| == 2 {
      assert t == "..";
      ResolveUpEnd(dirs);
    }
  }

  lemma ParentPlain(dirs: seq<string>)
    requires PlainDirs(dirs)
    ensures PlainDirs(Parent(dirs))
  {
  }

  lemma ResolveUp(dirs: seq<string>, rest: string)
    ensures Resolve(dirs, ".." + "/" + rest) == Resolve(Parent(dirs), rest)
  {
    HeadIs("..", rest);
  }

  lemma ResolveUpEnd(dirs: seq<string>)
    ensures Resolve(dirs, "..") == Closed(Parent(dirs))
  {
    HeadIs("..", "");
  }

  /** The component is neither of the two. */
  predicate Ordinary(t: string) {
    && !(t != "" && t[0] == '.' && (|t| == 1 || t[1] == '/'))
    && !(|t| > 1 && t[0] == t[1] == '.' && (|t| == 2 || t[2] == '/'))
  }

  lemma StepName(out: string, dirs: seq<string>, t: string, goal: Path)
    requires Resolving(out, dirs, t, goal) && Ordinary(t)
    ensures var k := Head(t);
      if k == |t| then Render(goal) == out + t
      else Resolving(out + t[..k + 1], dirs + [t[..k]], t[k + 1..], goal)
  {
    hide Resolve, Stem, PlainDirs, Plain, Ordinary, Head;
    var k := Head(t);
    var name := t[..k];
    OrdinaryName(t);
    if k < |t| {
      assert t == name + "/" + t[k + 1..];
      ResolveEnter(dirs, name, t[k + 1..]);
      assert t[..k + 1] == name + "/";
      StemSnoc(dirs, name);
      PlainSnoc(dirs, name);
    } else {
      assert name == t;
      ResolveLeaf(dirs, t);
      StemRender(dirs, t);
    }
  }

  lemma PlainSnoc(dirs: seq<string>, name: string)
    requires PlainDirs(dirs) && Plain(name)
    ensures PlainDirs(dirs + [name])
  {
  }

  lemma StemRender(dirs: seq<string>, last: string)
    ensures Render(Path(dirs, last)) == Stem(dirs) + last
  {
  }

  lemma OrdinaryName(t: string)
    requires Ordinary(t)
    ensures Plain(t[..Head(t)])
  {
    var k := Head(t);
    if k > 0 { assert t[..k][0] == t[0]; }
    if k > 1 { assert t[..k][1] == t[1]; }
  }

  lemma StemSnoc(dirs: seq<string>, name: string)
    ensures Stem(dirs + [name]) == Stem(dirs) + (name + "/")
  {
    assert (dirs + [name])[..|dirs|] == dirs;
  }

  /** A NUL-terminated text of a buffer. */
  predicate TextAt(buffer: seq<char>, s: string) {
    |s| < |buffer| && buffer[..|s|] == s && buffer[|s|] == NUL
  }

  /** Copy up to and with the next slash, or to the end. */
  method CopyComponent(name: array<char>, temp: array<char>, inpos: nat, outpos: nat, ghost f: string)
    returns (n: nat)
    requires name != temp && Holds(name[..], f) && inpos < |f| && outpos + |f| - inpos < temp.Length <= FILENAME_MAX
    modifies temp
    ensures var t := f[inpos..]; n == if Head(t) < |t| then Head(t) + 1 else |t|
    ensures n > 0 && inpos + n <= |f| && temp[..outpos + n] == old(temp[..outpos]) + f[inpos..inpos + n]
  {
    hide Holds, Head;
    HeldAll(name[..], f);
    HeadSplit(f[inpos..]);
    ghost var k := Head(f[inpos..]);
    n := 0;
    while name[inpos + n] != NUL && outpos + n < FILENAME_MAX
      invariant inpos + n <= |f| && n <= k
      invariant forall i :: 0 <= i < outpos ==> temp[i] == old(temp[i])
      invariant forall i :: outpos <= i < outpos + n ==> temp[i] == f[i - outpos + inpos]
      decreases |f| - n
    {
      temp[outpos + n] := name[inpos + n];
      n := n + 1;
      if name[inpos + n - 1] == '/' {
        assert f[inpos..][n - 1] == '/';
        break;
      }
      assert f[inpos..][n - 1] != '/';
    }
  }

  lemma HeldAll(buffer: seq<char>, f: string)
    requires Holds(buffer, f)
    ensures |f| < |buffer| && buffer[|f|] == NUL
    ensures forall k :: 0 <= k < |f| ==> buffer[k] == f[k] && f[k] != NUL
  {
    assert forall k :: 0 <= k < |f| ==> buffer[k] == buffer[..|f|][k] == f[k] && f[k] in f;
  }

  lemma HeadSplit(t: string)
    ensures forall k :: 0 <= k < Head(t) ==> t[k] != '/'
    ensures Head(t) < |t| ==> t[Head(t)] == '/'
  {
    forall k | 0 <= k < Head(t) ensures t[k] != '/' { assert t[..Head(t)][k] == t[k]; }
  }

  /** strcpy: everything up to and with the first NUL. */
  method CopyText(to: array<char>, from: array<char>, ghost s: string)
    requires to != from && TextAt(from[..], s) && NUL !in s && |s| < to.Length
    modifies to
    ensures TextAt(to[..], s)
  {
    var i := 0;
    while from[i] != NUL
      invariant i <= |s| && to[..i] == s[..i]
      decreases |s| - i
    {
      assert from[i] == s[i];
      to[i] := from[i];
      i := i + 1;
    }
    to[i] := NUL;
  }

  /** What a buffer holds from a place of its text on. */
  lemma HeldAt(buffer: seq<char>, f: string, i: nat)
    requires Holds(buffer, f) && i <= |f|
    ensures |f| < |buffer| && (buffer[i] == NUL <==> i == |f|) && (i < |f| ==> buffer[i] == f[i])
    ensures i + 1 <= |f| ==> (buffer[i + 1] == NUL <==> i + 1 == |f|) && (i + 1 < |f| ==> buffer[i + 1] == f[i + 1])
    ensures i + 2 <= |f| ==> (buffer[i + 2] == NUL <==> i + 2 == |f|) && (i + 2 < |f| ==> buffer[i + 2] == f[i + 2])
  {
    assert forall k :: 0 <= k < |f| ==> buffer[k] == buffer[..|f|][k] == f[k] && f[k] in f;
  }

  /** The text is in the buffer, its NUL perhaps still to be written. */
  ghost predicate Complete(temp: seq<char>, outpos: nat, text: string) {
    && |text| <= outpos < |temp| && temp[..|text|] == text && NUL !in text
    && (|text| < outpos ==> temp[|text|] == NUL)
  }

  /** Place `inpos` of the name: at the slash it starts with, or a stem built and the rest still
      to be resolved, or the text complete. */
  ghost predicate Progress(temp: seq<char>, outpos: nat, f: string, inpos: nat,
                           dirs: seq<string>, text: string, goal: Path)
  {
    && inpos <= |f| && outpos < |temp|
    && if outpos == 0 then inpos == 0 && f != "" && f[0] == '/' && goal == Resolve([], f[1..])
       else if inpos < |f| then Resolving(temp[..outpos], dirs, f[inpos..], goal) && NUL !in temp[..outpos]
       else text == Render(goal) && Complete(temp, outpos, text)
  }

  lemma ProgressStart(temp: seq<char>, cwd: string, cwdDirs: seq<string>, f: string)
    requires |cwd| + 1 < |temp| && PlainDirs(cwdDirs) && NUL !in cwd && cwd == Render(Closed(cwdDirs))
    requires cwdDirs != [] ==> cwd[|cwd| - 1] != '/'
    requires f == "" || f[0] != '/'
    requires var out := if cwd[|cwd| - 1] == '/' then cwd else cwd + "/"; out == temp[..|out|]
    ensures var out := if cwd[|cwd| - 1] == '/' then cwd else cwd + "/";
      Progress(temp, |out|, f, 0, cwdDirs, if f == "" then out else "", Absolute(cwdDirs, f))
  {
    hide Resolve, Dirs;
    RenderStem(cwdDirs);
    assert f[0..] == f;
    if f == "" { ResolveLeaf(cwdDirs, ""); }
  }

  /** What is left after a slash: more of the name, or the path of the directory reached. */
  lemma ProgressStem(temp: seq<char>, outpos: nat, f: string, inpos: nat, dirs: seq<string>, text: string, goal: Path)
    requires 0 < outpos < |temp| && NUL !in temp[..outpos] && inpos <= |f|
    requires Resolving(temp[..outpos], dirs, f[inpos..], goal)
    ensures Progress(temp, outpos, f, inpos, dirs, if inpos == |f| then temp[..outpos] else text, goal)
  {
    hide Resolve, Dirs;
    RenderStem(dirs);
    if inpos == |f| {
      assert f[inpos..] == "";
      ResolveLeaf(dirs, "");
    }
  }

  lemma ProgressDot(temp: seq<char>, outpos: nat, f: string, inpos: nat, dirs: seq<string>, text: string, goal: Path)
    requires Progress(temp, outpos, f, inpos, dirs, text, goal) && inpos + 1 < |f| && f[inpos] == '.' && f[inpos + 1] == '/'
    ensures Progress(temp, outpos, f, inpos + 2, dirs, if inpos + 2 == |f| then temp[..outpos] else text, goal)
  {
    hide Resolve, Dirs, Resolving;
    assert f[inpos..][2..] == f[inpos + 2..];
    StepDot(temp[..outpos], dirs, f[inpos..], goal);
    ProgressStem(temp, outpos, f, inpos + 2, dirs, text, goal);
  }

  lemma ProgressDotEnd(temp: seq<char>, outpos: nat, f: string, inpos: nat, dirs: seq<string>, text: string, goal: Path)
    requires Progress(temp, outpos, f, inpos, dirs, text, goal) && inpos + 1 == |f| && f[inpos] == '.'
    ensures outpos > 0
    ensures if outpos > 1
      then Progress(temp[outpos - 1 := NUL], outpos, f, inpos + 1, dirs, temp[..outpos - 1], goal)
      else Progress(temp, outpos, f, inpos + 1, dirs, temp[..outpos], goal)
  {
    hide Resolve, Dirs, Resolving;
    StepDot(temp[..outpos], dirs, f[inpos..], goal);
    if outpos > 1 { CutSlash(temp, outpos, f, goal); }
  }

  /** The slash at the end of the path is overwritten. */
  lemma CutSlash(temp: seq<char>, outpos: nat, f: string, goal: Path)
    requires 1 < outpos < |temp| && NUL !in temp[..outpos] && Render(goal) == temp[..outpos][..outpos - 1]
    ensures Complete(temp[outpos - 1 := NUL], outpos, temp[..outpos - 1])
    ensures Render(goal) == temp[..outpos - 1]
  {
    forall c | c in temp[..outpos - 1] ensures c in temp[..outpos] {
      var k :| 0 <= k < outpos - 1 && temp[..outpos - 1][k] == c;
      assert temp[..outpos][k] == c;
    }
  }

  /** Up to the parent directory: `up` is what is left of the path. */
  lemma ProgressUp(temp: seq<char>, outpos: nat, f: string, inpos: nat, dirs: seq<string>, text: string, goal: Path,
                   slash: int, temp': seq<char>, up: string)
    requires Progress(temp, outpos, f, inpos, dirs, text, goal)
    requires inpos + 1 < |f| && f[inpos] == f[inpos + 1] == '.' && (inpos + 2 < |f| ==> f[inpos + 2] == '/')
    requires outpos > 0 && IsLastSlash(temp[..outpos - 1], slash)
    requires up == if slash >= 0 then temp[..slash + 1] else "/"
    requires |up| < |temp'| && up <= temp'
    ensures |up| > 0
    ensures inpos + 2 < |f| ==> Progress(temp', |up|, f, inpos + 3, Parent(dirs), if inpos + 3 == |f| then up else text, goal)
    ensures inpos + 2 == |f| ==>
      if |up| > 1 then Progress(temp'[|up| - 1 := NUL], |up|, f, inpos + 2, Parent(dirs), up[..|up| - 1], goal)
      else Progress(temp', |up|, f, inpos + 2, Parent(dirs), up, goal)
  {
    hide Resolve, Dirs, Resolving;
    assert temp[..outpos][..outpos - 1] == temp[..outpos - 1];
    assert slash >= 0 ==> temp[..outpos][..slash + 1] == temp[..slash + 1];
    StepDotDot(temp[..outpos], dirs, f[inpos..], goal, slash);
    assert temp'[..|up|] == up;
    NoNul(temp[..outpos], up);
    if inpos + 2 < |f| {
      assert f[inpos..][3..] == f[inpos + 3..];
      ProgressStem(temp', |up|, f, inpos + 3, Parent(dirs), text, goal);
    } else if |up| > 1 {
      CutSlash(temp', |up|, f, goal);
    }
  }

  lemma NoNul(s: string, up: string)
    requires NUL !in s && (up <= s || up == "/")
    ensures NUL !in up
  {
    if up <= s {
      forall k | 0 <= k < |up| ensures up[k] != NUL { assert up[k] == s[k] && s[k] in s; }
    }
  }

  /** A component was copied, or the slash the name starts with. */
  lemma ProgressName(temp: seq<char>, outpos: nat, f: string, inpos: nat, dirs: seq<string>, text: string, goal: Path,
                     temp': seq<char>, n: nat)
    requires Progress(temp, outpos, f, inpos, dirs, text, goal) && inpos < |f| && NUL !in f && Ordinary(f[inpos..])
    requires n == if Head(f[inpos..]) < |f| - inpos then Head(f[inpos..]) + 1 else |f| - inpos
    requires inpos + n <= |f| && outpos + n < |temp'| && temp'[..outpos + n] == temp[..outpos] + f[inpos..inpos + n]
    ensures var dirs' := if outpos == 0 then [] else if Head(f[inpos..]) < |f| - inpos
                         then dirs + [f[inpos..][..Head(f[inpos..])]] else dirs;
      Progress(temp', outpos + n, f, inpos + n, dirs', if inpos + n == |f| then temp'[..outpos + n] else text, goal)
  {
    hide Resolve, Dirs, Resolving, Head;
    var t := f[inpos..];
    NoNulCopied(temp[..outpos], f, inpos, n);
    if outpos == 0 {
      assert t == f;
      SlashFirst(f);
      RootStem(f[1..], goal);
      assert temp'[..1] == "/";
      ProgressStem(temp', 1, f, 1, [], text, goal);
    } else {
      StepName(temp[..outpos], dirs, t, goal);
      if Head(t) < |t| {
        assert t[Head(t) + 1..] == f[inpos + n..] && t[..n] == f[inpos..inpos + n];
        ProgressStem(temp', outpos + n, f, inpos + n, dirs + [t[..Head(t)]], text, goal);
      } else {
        assert f[inpos..inpos + n] == t;
      }
    }
  }

  lemma SlashFirst(f: string)
    requires f != "" && f[0] == '/'
    ensures Head(f) == 0
  {
  }

  lemma RootStem(t: string, goal: Path)
    requires goal == Resolve([], t)
    ensures Resolving("/", [], t, goal)
  {
    assert Dirs([]) == "";
  }

  lemma NoNulCopied(out: string, f: string, i: nat, n: nat)
    requires i + n <= |f| && NUL !in f
    ensures NUL !in f[i..i + n] && (NUL !in out ==> NUL !in out + f[i..i + n])
  {
    forall c | c in f[i..i + n] ensures c in f {
      var k :| 0 <= k < n && f[i..i + n][k] == c;
      assert f[i + k] == c;
    }
  }

  lemma ProgressRoot(temp: seq<char>, cwdDirs: seq<string>, f: string)
    requires f != "" && f[0] == '/' && |temp| > 0
    ensures Progress(temp, 0, f, 0, cwdDirs, "", Absolute(cwdDirs, f))
  {
  }

  /** A dot is never met before the path has its first slash. */
  lemma ProgressBegun(temp: seq<char>, outpos: nat, f: string, inpos: nat, dirs: seq<string>, text: string, goal: Path)
    requires Progress(temp, outpos, f, inpos, dirs, text, goal) && inpos < |f| && f[inpos] == '.'
    ensures 0 < outpos < |temp|
  {
  }

  lemma ProgressEnd(temp: seq<char>, outpos: nat, f: string, dirs: seq<string>, text: string, goal: Path)
    requires Progress(temp, outpos, f, |f|, dirs, text, goal)
    ensures text == Render(goal) && Complete(temp, outpos, text)
  {
  }

  /** Cut the path after the slash before its last one. */
  method CutDirectory(temp: array<char>, outpos: nat) returns (n: nat, ghost slash: int)
    requires 0 < outpos < temp.Length
    modifies temp
    ensures IsLastSlash(old(temp[..outpos - 1]), slash) && -1 <= slash < outpos - 1
    ensures 0 < n <= outpos && temp[..n] == if slash >= 0 then old(temp[..slash + 1]) else "/"
  {
    temp[outpos - 1] := NUL;
    var last := LastSlash(temp, outpos - 1);
    slash := last;
    assert temp[..outpos - 1] == old(temp[..outpos - 1]);
    if last >= 0 {
      temp[last + 1] := NUL;
      n := last + 1;
    } else {
      temp[0] := '/';
      n := 1;
    }
  }

  /** getcwd, and a slash at the end if there is none. */
  method CopyDirectory(temp: array<char>, cwd: string) returns (outpos: nat)
    requires cwd != "" && |cwd| + 1 < temp.Length
    modifies temp
    ensures var out := if cwd[|cwd| - 1] == '/' then cwd else cwd + "/"; outpos == |out| && out == temp[..outpos]
  {
    for i := 0 to |cwd|
      invariant temp[..i] == cwd[..i]
    {
      temp[i] := cwd[i];
    }
    outpos := |cwd|;
    if temp[outpos - 1] != '/' {
      temp[outpos] := '/';
      outpos := outpos + 1;
    }
  }

  /** "..", with a slash or at the end of the name. */
  method GoUp(name: array<char>, temp: array<char>, inpos: nat, outpos: nat,
              ghost f: string, ghost dirs: seq<string>, ghost text: string, ghost goal: Path)
    returns (inpos': nat, outpos': nat, ghost text': string)
    requires name != temp && Holds(name[..], f) && Progress(temp[..], outpos, f, inpos, dirs, text, goal)
    requires inpos + 1 < |f| && f[inpos] == f[inpos + 1] == '.' && (inpos + 2 < |f| ==> f[inpos + 2] == '/')
    modifies temp
    ensures inpos + 2 <= inpos' <= |f| && 0 < outpos' <= outpos
    ensures Progress(temp[..], outpos', f, inpos', Parent(dirs), text', goal)
  {
    hide Resolve, Dirs, Head, Progress, IsLastSlash, Holds;
    ghost var was, slash := temp[..], 0;
    HeldAt(name[..], f, inpos);
    ProgressBegun(was, outpos, f, inpos, dirs, text, goal);
    assert was[..outpos - 1] == temp[..outpos - 1];
    outpos', slash := CutDirectory(temp, outpos);
    ghost var up := temp[..outpos'];
    assert slash >= 0 ==> up == was[..slash + 1];
    ProgressUp(was, outpos, f, inpos, dirs, text, goal, slash, temp[..], up);
    inpos' := inpos + 2;
    if name[inpos'] == '/' {
      inpos' := inpos' + 1;
      text' := if inpos' == |f| then up else text;
    } else if outpos' > 1 {
      text' := up[..outpos' - 1];
      ghost var now := temp[..];
      temp[outpos' - 1] := NUL;
      assert temp[..] == now[outpos' - 1 := NUL];
    } else {
      text' := up;
    }
  }

  /** One component, or what there is of it. */
  method ResolveOne(name: array<char>, temp: array<char>, inpos: nat, outpos: nat,
                    ghost f: string, ghost dirs: seq<string>, ghost text: string, ghost goal: Path)
    returns (inpos': nat, outpos': nat, ghost dirs': seq<string>, ghost text': string)
    requires name != temp && Holds(name[..], f) && temp.Length <= FILENAME_MAX && inpos < |f|
    requires outpos + (|f| - inpos) < temp.Length && Progress(temp[..], outpos, f, inpos, dirs, text, goal)
    modifies temp
    ensures inpos < inpos' <= |f| && outpos' + (|f| - inpos') <= outpos + (|f| - inpos)
    ensures Progress(temp[..], outpos', f, inpos', dirs', text', goal)
  {
    hide Resolve, Dirs, Head, Progress;
    inpos', outpos', dirs', text' := inpos, outpos, dirs, text;
    ghost var was := temp[..];
    HeldAt(name[..], f, inpos);
    if name[inpos] == '.' && name[inpos + 1] == '/' {
      ProgressDot(was, outpos, f, inpos, dirs, text, goal);
      inpos' := inpos + 2;
      text' := if inpos' == |f| then temp[..outpos] else text;
    } else if name[inpos] == '.' && name[inpos + 1] == NUL {
      ProgressDotEnd(was, outpos, f, inpos, dirs, text, goal);
      ProgressBegun(was, outpos, f, inpos, dirs, text, goal);
      inpos' := inpos + 1;
      text' := if outpos > 1 then temp[..outpos - 1] else temp[..outpos];
      if outpos > 1 {
        temp[outpos - 1] := NUL;
        assert temp[..] == was[outpos - 1 := NUL];
      }
    } else if name[inpos] == '.' && name[inpos + 1] == '.' && (name[inpos + 2] == '/' || name[inpos + 2] == NUL) {
      inpos', outpos', text' := GoUp(name, temp, inpos, outpos, f, dirs, text, goal);
      dirs' := Parent(dirs);
    } else {
      var n := CopyComponent(name, temp, inpos, outpos, f);
      ProgressName(was, outpos, f, inpos, dirs, text, goal, temp[..], n);
      ghost var k := Head(f[inpos..]);
      dirs' := if outpos == 0 then [] else if k < |f| - inpos then dirs + [f[inpos..][..k]] else dirs;
      inpos', outpos' := inpos + n, outpos + n;
      text' := if inpos' == |f| then temp[..outpos'] else text;
    }
  }

  /** Resolve "." and ".." of the name, relative to the working directory if it does not start
      with a slash. Both together must fit the buffer. */
  method MakeAbsoluteName(name: array<char>, cwd: string, ghost cwdDirs: seq<string>, ghost f: string)
    requires name.Length == FILENAME_MAX && Holds(name[..], f) && |cwd| + 1 + |f| < FILENAME_MAX
    requires PlainDirs(cwdDirs) && NUL !in cwd && cwd == Render(Closed(cwdDirs))
    requires cwdDirs != [] ==> cwd[|cwd| - 1] != '/'
    modifies name
    ensures TextAt(name[..], Render(Absolute(cwdDirs, f)))
  {
    hide Resolve, Dirs, Progress, Absolute, Holds;
    var temp := new char[FILENAME_MAX];
    var inpos: nat, outpos: nat := 0, 0;
    ghost var goal, dirs, text := Absolute(cwdDirs, f), cwdDirs, "";
    HeldAt(name[..], f, 0);
    if !(name[0] != NUL && name[0] == '/') {
      outpos := CopyDirectory(temp, cwd);
      ProgressStart(temp[..], cwd, cwdDirs, f);
      text := if f == "" then temp[..outpos] else "";
    } else {
      ProgressRoot(temp[..], cwdDirs, f);
    }
    while name[inpos] != NUL && outpos < FILENAME_MAX
      invariant inpos <= |f| && outpos + (|f| - inpos) < FILENAME_MAX && (name[inpos] == NUL <==> inpos == |f|)
      invariant Holds(name[..], f) && Progress(temp[..], outpos, f, inpos, dirs, text, goal)
      modifies temp
      decreases |f| - inpos
    {
      inpos, outpos, dirs, text := ResolveOne(name, temp, inpos, outpos, f, dirs, text, goal);
      HeldAt(name[..], f, inpos);
    }
    ProgressEnd(temp[..], outpos, f, dirs, text, goal);
    temp[outpos] := NUL;
    CopyText(name, temp, text);
  }
}
