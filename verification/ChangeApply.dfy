/** Cutting a command line into arguments, in the buffer that holds it. */
module ChangeApply {
  import opened ChangeCmd
  import opened Text

  /** A NUL-terminated string that starts at an offset of the buffer. */
  predicate StringAt(buffer: seq<char>, at: int, s: string) {
    0 <= at && at + |s| < |buffer| && buffer[at..at + |s|] == s && buffer[at + |s|] == NUL
  }

  /** The arguments still to come when `word` has been read and s follows. */
  function Finish(word: string, s: string): seq<string>
    requires word != ""
  {
    if EndsOpen(word) && s != "" && IsSpace(s[0]) then
      [word[..|word| - 1] + [s[0]] + Rest(s[1..]).word] + Rest(s[1..]).more
    else [word + Rest(s).word] + Rest(s).more
  }

  lemma FinishChar(word: string, s: string)
    requires word != "" && s != "" && !IsSpace(s[0])
    ensures Finish(word, s) == Finish(word + [s[0]], s[1..])
  {
    var w := word + [s[0]];
    assert w[..|w| - 1] == word;
    if Quoted(s) {
      assert s[1..][1..] == s[2..];
      assert word + Rest(s).word == word + [s[1]] + Rest(s[2..]).word;
    } else {
      assert word + Rest(s).word == w + Rest(s[1..]).word;
    }
  }

  lemma FinishQuoted(word: string, s: string)
    requires EndsOpen(word) && s != "" && IsSpace(s[0])
    ensures Finish(word, s) == Finish(word[..|word| - 1] + [s[0]], s[1..])
  {
  }

  lemma FinishSpace(word: string, s: string)
    requires word != "" && !EndsOpen(word) && s != "" && IsSpace(s[0])
    ensures Finish(word, s) == [word] + Args(s[1..])
  {
    assert word + "" == word;
  }

  lemma FinishEnd(word: string)
    requires word != ""
    ensures Finish(word, "") == [word]
  {
    assert word + "" == word;
  }

  lemma ArgsChar(s: string)
    requires s != "" && !IsSpace(s[0])
    ensures Args(s) == Finish([s[0]], s[1..])
  {
    if Quoted(s) {
      assert s[1..][1..] == s[2..];
      assert [s[1]] + Rest(s[2..]).word == [s[0]][..0] + [s[1]] + Rest(s[2..]).word;
    }
  }

  /** The first pass: count the arguments. */
  method CountArgs(cmdline: array<char>, ghost s: string) returns (argc: nat)
    requires Holds(cmdline[..], s) && (s != "" ==> !IsSpace(s[0]))
    ensures argc == |Args(s)|
  {
    hide Rest, Args, Finish, IsSpace;
    var inarg := false;
    argc := 0;
    var i := 0;
    ghost var word := "";
    RestNothing();
    assert s[0..] == s;
    while cmdline[i] != NUL
      invariant i <= |s| && inarg == (word != "")
      invariant inarg ==> i > 0 && word[|word| - 1] == s[i - 1]
      invariant !inarg && i > 0 ==> IsSpace(s[i - 1])
      invariant !inarg ==> argc + |Args(s[i..])| == |Args(s)|
      invariant inarg ==> argc - 1 + |Finish(word, s[i..])| == |Args(s)|
      decreases |s| - i
    {
      ghost var t := s[i..];
      assert cmdline[i] == s[i] == t[0] && t[1..] == s[i + 1..];
      SpaceIsSpace();
      if IsSpace(cmdline[i]) && cmdline[i - 1] != '\\' {
        if inarg { FinishSpace(word, t); } else { SeparatorSkips(t); }
        inarg := false;
        word := "";
      } else {
        if !inarg {
          ArgsChar(t);
          word := [s[i]];
          inarg := true;
          argc := argc + 1;
        } else if IsSpace(s[i]) {
          FinishQuoted(word, t);
          word := word[..|word| - 1] + [s[i]];
        } else {
          FinishChar(word, t);
          word := word + [s[i]];
        }
      }
      i := i + 1;
    }
    assert s[i..] == "";
    if inarg { FinishEnd(word); }
  }

  lemma SeparatorSkips(t: string)
    requires t != "" && IsSpace(t[0])
    ensures Args(t) == Args(t[1..])
  {
  }

  /** Move a string with its NUL one place down. */
  method ShiftDown(cmdline: array<char>, i: nat, ghost left: string)
    requires 0 < i && i + |left| < cmdline.Length && NUL !in left
    requires cmdline[i..i + |left|] == left && cmdline[i + |left|] == NUL
    modifies cmdline
    ensures cmdline[i - 1..i - 1 + |left|] == left && cmdline[i - 1 + |left|] == NUL
    ensures cmdline[..i - 1] == old(cmdline[..i - 1])
  {
    var j := i;
    assert forall k :: i <= k < i + |left| ==> cmdline[k] == cmdline[i..i + |left|][k - i];
    while cmdline[j] != NUL
      invariant i <= j <= i + |left|
      invariant forall k :: 0 <= k < i - 1 ==> cmdline[k] == old(cmdline[k])
      invariant forall k :: j <= k < i + |left| ==> cmdline[k] == left[k - i]
      invariant cmdline[i + |left|] == NUL
      invariant forall k {:trigger left[k]} :: 0 <= k < j - i ==> cmdline[i - 1 + k] == left[k]
      decreases i + |left| - j
    {
      cmdline[j - 1] := cmdline[j];
      j := j + 1;
    }
    cmdline[j - 1] := NUL;
  }

  /** Where the finished arguments are: each ends before place i. */
  ghost predicate Stored(buffer: seq<char>, argv: seq<int>, done: seq<string>, i: nat) {
    && |done| < |argv|
    && forall k :: 1 <= k <= |done| ==> StringAt(buffer, argv[k], done[k - 1]) && argv[k] + |done[k - 1]| < i
  }

  lemma StoredKept(buffer: seq<char>, buffer': seq<char>, argv: seq<int>, argv': seq<int>, done: seq<string>, i: nat)
    requires Stored(buffer, argv, done, i) && i <= |buffer| && i <= |buffer'| && buffer[..i] == buffer'[..i]
    requires |argv| == |argv'| && argv[..|done| + 1] == argv'[..|done| + 1]
    ensures Stored(buffer', argv', done, i)
  {
    forall k | 1 <= k <= |done|
      ensures StringAt(buffer', argv'[k], done[k - 1]) && argv'[k] + |done[k - 1]| < i
    {
      var at, word := argv[k], done[k - 1];
      assert argv'[..|done| + 1][k] == argv[..|done| + 1][k];
      assert buffer'[at..at + |word|] == buffer'[..i][at..at + |word|];
      assert buffer[at..at + |word|] == buffer[..i][at..at + |word|];
      assert buffer'[..i][at + |word|] == buffer[..i][at + |word|];
    }
  }

  lemma StoredMore(buffer: seq<char>, argv: seq<int>, done: seq<string>, word: string, i: nat)
    requires Stored(buffer, argv, done, i) && |word| <= i < |buffer| && |done| + 1 < |argv|
    requires argv[|done| + 1] == i - |word| && buffer[i - |word|..i] == word && buffer[i] == NUL
    ensures Stored(buffer, argv, done + [word], i + 1)
  {
  }

  /** Place i of the second pass: what is done, the argument being read, and what is left. */
  ghost predicate Parsing(b: seq<char>, argv: seq<int>, argc: nat, i: nat,
                          done: seq<string>, word: string, left: string, s: string)
  {
    && i + |left| < |b| && b[i..i + |left|] == left && b[i + |left|] == NUL && NUL !in left
    && |word| <= i && b[i - |word|..i] == word && (word == "" && i > 0 ==> b[i - 1] == NUL)
    && (i == 0 && left != "" ==> !IsSpace(left[0]))
    && argc == 1 + |done| + (if word != "" then 1 else 0) <= |argv| && |argv| == |Args(s)| + 2
    && (word != "" ==> argv[argc - 1] == i - |word|)
    && Stored(b, argv, done, i - |word|)
    && Args(s) == done + (if word != "" then Finish(word, left) else Args(left))
  }

  lemma ParsingStart(b: seq<char>, argv: seq<int>, s: string)
    requires Holds(b, s) && (s != "" ==> !IsSpace(s[0])) && |argv| == |Args(s)| + 2
    ensures Parsing(b, argv, 1, 0, [], "", s, s)
  {
    hide Rest, Args, Finish, IsSpace;
  }

  lemma ParsingHere(b: seq<char>, argv: seq<int>, argc: nat, i: nat,
                    done: seq<string>, word: string, left: string, s: string)
    requires Parsing(b, argv, argc, i, done, word, left, s)
    ensures i + |left| < |b| && b[i..i + |left|] == left && b[i + |left|] == NUL && NUL !in left
    ensures b[i] == NUL <==> left == ""
    ensures left != "" ==> b[i] == left[0] && argc < |argv|
    ensures left != "" && IsSpace(left[0]) ==> i > 0 && (word == "" ==> b[i - 1] == NUL)
  {
    hide Rest, Finish, IsSpace;
    if left != "" { assert b[i..i + |left|][0] == left[0]; }
    if left != "" && word == "" { assert |argv| >= argc + 1; }
    if word != "" { assert |Finish(word, left)| >= 1 by { FinishSome(word, left); } }
  }

  lemma FinishSome(word: string, s: string)
    requires word != ""
    ensures |Finish(word, s)| >= 1
  {
  }

  /** White space between arguments is skipped. */
  lemma StepSkip(b: seq<char>, argv: seq<int>, argc: nat, i: nat, done: seq<string>, left: string, s: string)
    requires Parsing(b, argv, argc, i, done, "", left, s)
    requires left != "" && IsSpace(left[0]) && i > 0
    ensures Parsing(b[i := NUL], argv, argc, i + 1, done, "", left[1..], s)
  {
    hide Rest, Args, Finish, IsSpace, Stored, StringAt;
    var b' := b[i := NUL];
    StoredKept(b, b', argv, argv, done, i);
    StoredLater(b', argv, done, i, i + 1);
    assert b'[i + 1..i + |left|] == left[1..];
    SeparatorSkips(left);
  }

  /** White space ends an argument. */
  lemma StepEnd(b: seq<char>, argv: seq<int>, argc: nat, i: nat,
                done: seq<string>, word: string, left: string, s: string)
    requires Parsing(b, argv, argc, i, done, word, left, s) && word != ""
    requires left != "" && IsSpace(left[0]) && i > 0 && b[i - 1] != '\\'
    ensures Parsing(b[i := NUL], argv, argc, i + 1, done + [word], "", left[1..], s)
  {
    hide Rest, Args, Finish, IsSpace, Stored, StringAt;
    var b' := b[i := NUL];
    StoredKept(b, b', argv, argv, done, i - |word|);
    assert b'[i + 1..i + |left|] == left[1..];
    assert b[i - 1] == word[|word| - 1];
    FinishSpace(word, left);
    StoredMore(b', argv, done, word, i);
    Concat(done, word, Args(left[1..]));
    ParsingBetween(b', argv, argc, i + 1, done + [word], left[1..], s);
  }

  lemma Concat(done: seq<string>, word: string, more: seq<string>)
    ensures done + ([word] + more) == (done + [word]) + more
  {
  }

  /** A place between two arguments. */
  lemma ParsingBetween(b: seq<char>, argv: seq<int>, argc: nat, i: nat, done: seq<string>, left: string, s: string)
    requires i + |left| < |b| && b[i..i + |left|] == left && b[i + |left|] == NUL && NUL !in left
    requires i > 0 && b[i - 1] == NUL && argc == 1 + |done| <= |argv| && |argv| == |Args(s)| + 2
    requires Stored(b, argv, done, i) && Args(s) == done + Args(left)
    ensures Parsing(b, argv, argc, i, done, "", left, s)
  {
    hide Args, Stored;
  }

  /** A backslash before white space goes, and the white space becomes part of the argument. */
  lemma StepUnquote(b: seq<char>, b': seq<char>, argv: seq<int>, argc: nat, i: nat,
                    done: seq<string>, word: string, left: string, s: string)
    requires Parsing(b, argv, argc, i, done, word, left, s)
    requires left != "" && IsSpace(left[0]) && i > 0 && b[i - 1] == '\\'
    requires |b'| == |b| && b'[..i - 1] == b[..i - 1]
    requires b'[i - 1..i - 1 + |left|] == left && b'[i - 1 + |left|] == NUL
    ensures word != ""
    ensures Parsing(b', argv, argc, i, done, word[..|word| - 1] + [left[0]], left[1..], s)
  {
    hide Rest, Args, Finish, IsSpace, Stored, StringAt;
    assert b[i - 1] == word[|word| - 1];
    FinishQuoted(word, left);
    var p := i - |word|;
    assert b'[..p] == b'[..i - 1][..p] == b[..p];
    StoredKept(b, b', argv, argv, done, p);
    assert b'[p..i - 1] == b'[..i - 1][p..] == b[p..i - 1] == word[..|word| - 1];
    assert b'[i - 1] == b'[i - 1..i - 1 + |left|][0] == left[0];
    assert b'[i..i + (|left| - 1)] == b'[i - 1..i - 1 + |left|][1..] == left[1..];
  }

  /** The argument goes on. */
  lemma StepChar(b: seq<char>, argv: seq<int>, argc: nat, i: nat,
                 done: seq<string>, word: string, left: string, s: string)
    requires Parsing(b, argv, argc, i, done, word, left, s)
    requires left != "" && !IsSpace(left[0]) && word != ""
    ensures Parsing(b, argv, argc, i + 1, done, word + [left[0]], left[1..], s)
  {
    hide Rest, Args, Finish, IsSpace, Stored, StringAt;
    FinishChar(word, left);
    assert b[i] == b[i..i + |left|][0] == left[0];
    assert b[i + 1..i + |left|] == b[i..i + |left|][1..];
  }

  /** An argument starts. */
  lemma StepStart(b: seq<char>, argv: seq<int>, argc: nat, i: nat, done: seq<string>, left: string, s: string)
    requires Parsing(b, argv, argc, i, done, "", left, s)
    requires left != "" && !IsSpace(left[0]) && argc < |argv|
    ensures Parsing(b, argv[argc := i], argc + 1, i + 1, done, [left[0]], left[1..], s)
  {
    hide Rest, Args, Finish, IsSpace, Stored, StringAt;
    ArgsChar(left);
    StoredKept(b, b, argv, argv[argc := i], done, i);
    assert b[i] == b[i..i + |left|][0] == left[0];
    assert b[i + 1..i + |left|] == b[i..i + |left|][1..];
  }

  /** The end of the line: all arguments are where argv says. */
  lemma ParsingEnd(b: seq<char>, argv: seq<int>, argc: nat, i: nat, done: seq<string>, word: string, s: string)
    requires Parsing(b, argv, argc, i, done, word, "", s)
    ensures argc == |Args(s)| + 1
    ensures forall k :: 1 <= k <= |Args(s)| ==> StringAt(b, argv[k], Args(s)[k - 1])
  {
    hide Rest, Args, Finish, IsSpace, StringAt;
    RestNothing();
    if word != "" {
      FinishEnd(word);
      StoredLater(b, argv, done, i - |word|, i);
      StoredMore(b, argv, done, word, i);
    }
  }

  lemma StoredLater(buffer: seq<char>, argv: seq<int>, done: seq<string>, i: nat, j: nat)
    requires Stored(buffer, argv, done, i) && i <= j
    ensures Stored(buffer, argv, done, j)
  {
  }

  /** The second pass: end every argument with a NUL and note where it starts. The list of
      arguments, with the program name in front and a null behind, fits the room counted. */
  method ParseArgs(cmdline: array<char>, argv: array<int>, ghost s: string) returns (argc: nat)
    requires Holds(cmdline[..], s) && (s != "" ==> !IsSpace(s[0])) && argv.Length == |Args(s)| + 2
    modifies cmdline, argv
    ensures argc == |Args(s)| + 1 < argv.Length && argv[0] == HATARI && argv[argc] == NULL
    ensures forall k :: 1 <= k < argc ==> StringAt(cmdline[..], argv[k], Args(s)[k - 1])
  {
    hide Rest, Args, IsSpace, Parsing, StringAt;
    argc := 0;
    argv[argc] := HATARI;
    argc := argc + 1;
    var inarg, i := false, 0;
    ghost var done: seq<string>, word, left := [], "", s;
    ParsingStart(cmdline[..], argv[..], s);
    ParsingHere(cmdline[..], argv[..], argc, i, done, word, left, s);
    while cmdline[i] != NUL
      invariant inarg == (word != "") && i < cmdline.Length && argc > 0 && argv[0] == HATARI
      invariant cmdline[i] == NUL <==> left == ""
      invariant Parsing(cmdline[..], argv[..], argc, i, done, word, left, s)
      decreases |left|
    {
      ghost var b, v := cmdline[..], argv[..];
      ParsingHere(b, v, argc, i, done, word, left, s);
      SpaceIsSpace();
      if IsSpace(cmdline[i]) && cmdline[i - 1] != '\\' {
        if word == "" { StepSkip(b, v, argc, i, done, left, s); } else { StepEnd(b, v, argc, i, done, word, left, s); }
        cmdline[i] := NUL;
        assert cmdline[..] == b[i := NUL];
        done := if inarg then done + [word] else done;
        inarg, word := false, "";
      } else {
        if IsSpace(cmdline[i]) {
          ShiftDown(cmdline, i, left);
          assert cmdline[..i - 1] == cmdline[..][..i - 1];
          assert cmdline[i - 1..i - 1 + |left|] == cmdline[..][i - 1..i - 1 + |left|];
          StepUnquote(b, cmdline[..], v, argc, i, done, word, left, s);
          i := i - 1;
          word := word[..|word| - 1] + [left[0]];
        } else if inarg {
          StepChar(b, v, argc, i, done, word, left, s);
          word := word + [left[0]];
        }
        if !inarg {
          StepStart(b, v, argc, i, done, left, s);
          argv[argc] := i;
          assert argv[..] == v[argc := i];
          argc := argc + 1;
          inarg, word := true, [left[0]];
        }
      }
      i := i + 1;
      left := left[1..];
      ParsingHere(cmdline[..], argv[..], argc, i, done, word, left, s);
    }
    ParsingEnd(cmdline[..], argv[..], argc, i, done, word, s);
    argv[argc] := NULL;
  }

  const HATARI := -1
  const NULL := -2

  /** Both passes. Nothing is done for a line without arguments. */
  method ApplyCommandline(cmdline: array<char>, ghost s: string) returns (ok: bool, argc: nat, argv: array<int>)
    requires Holds(cmdline[..], s) && (s != "" ==> !IsSpace(s[0]))
    modifies cmdline
    ensures ok == (Args(s) != []) && (!ok ==> cmdline[..] == old(cmdline[..]))
    ensures ok ==> argc == |Args(s)| + 1 < argv.Length && argv[0] == HATARI && argv[argc] == NULL
    ensures ok ==> forall k :: 1 <= k < argc ==> StringAt(cmdline[..], argv[k], Args(s)[k - 1])
  {
    hide Rest, Args, IsSpace, Holds, StringAt;
    argc := CountArgs(cmdline, s);
    if argc == 0 {
      argv := new int[0];
      return false, argc, argv;
    }
    argv := new int[argc + 2];
    argc := ParseArgs(cmdline, argv, s);
    ok := true;
  }
}
