/** Command lines for the running emulator: how the user interface quotes paths, and how the
    emulator cuts the line into arguments, in place. */
module ChangeCmd {
  import opened Text

  /** A backslash before white space makes it part of the argument. */
  predicate Quoted(s: string) {
    |s| > 1 && s[0] == '\\' && IsSpace(s[1])
  }

  /** What is left of the argument that s continues, and the arguments after it. */
  datatype Parsed = Parsed(word: string, more: seq<string>)

  function Rest(s: string): Parsed
    decreases |s|, 0
  {
    if s == "" then Parsed("", [])
    else if IsSpace(s[0]) then Parsed("", Args(s[1..]))
    else
      var n := if Quoted(s) then 2 else 1;
      var rest := Rest(s[n..]);
      Parsed([s[n - 1]] + rest.word, rest.more)
  }

  /** The arguments of a line. */
  function Args(s: string): seq<string>
    decreases |s|, 1
  {
    if s == "" then []
    else if IsSpace(s[0]) then Args(s[1..])
    else [Rest(s).word] + Rest(s).more
  }

  // ----- quoting -----

  function PathQuote(path: string): string {
    if path == "" then ""
    else (if path[0] == ' ' then "\\ " else [path[0]]) + PathQuote(path[1..])
  }

  /** Quoted paths, with a space between them. */
  function Line(paths: seq<string>): string {
    if |paths| == 0 then ""
    else if |paths| == 1 then PathQuote(paths[0])
    else PathQuote(paths[0]) + " " + Line(paths[1..])
  }

  predicate OnlySpaces(path: string) {
    forall i :: 0 <= i < |path| ==> IsSpace(path[i]) ==> path[i] == ' '
  }

  predicate EndsOpen(path: string) {
    path != "" && path[|path| - 1] == '\\'
  }

  /** One step of reading an argument. */
  lemma RestChar(c: char, t: string)
    requires !IsSpace(c) && (c == '\\' ==> t == "" || !IsSpace(t[0]))
    ensures Rest([c] + t) == Parsed([c] + Rest(t).word, Rest(t).more)
  {
    assert ([c] + t)[1..] == t;
  }

  lemma RestEscape(c: char, t: string)
    requires IsSpace(c)
    ensures Rest("\\" + [c] + t) == Parsed([c] + Rest(t).word, Rest(t).more)
  {
    assert ("\\" + [c] + t)[2..] == t;
  }

  /** Reading past a quoted path gives the path; a final backslash is left to what follows. */
  lemma {:induction false} RestOfQuoted(path: string, tail: string)
    requires OnlySpaces(path) && (EndsOpen(path) ==> tail == "" || !IsSpace(tail[0]))
    ensures Rest(PathQuote(path) + tail) == Parsed(path + Rest(tail).word, Rest(tail).more)
  {
    hide Rest, IsSpace;
    if path == "" {
      assert PathQuote(path) + tail == tail;
    } else {
      var c, t := path[0], PathQuote(path[1..]) + tail;
      RestOfQuoted(path[1..], tail);
      assert path == [c] + path[1..];
      if c == ' ' {
        assert PathQuote(path) + tail == "\\" + [c] + t;
        SpaceIsSpace();
        RestEscape(c, t);
      } else {
        assert PathQuote(path) + tail == [c] + t;
        if path[1..] != "" { QuotedStart(path[1..], tail); }
        RestChar(c, t);
      }
      assert path + Rest(tail).word == [c] + (path[1..] + Rest(tail).word);
    }
  }

  lemma QuotedStart(path: string, tail: string)
    requires path != "" && OnlySpaces(path)
    ensures PathQuote(path) + tail != "" && !IsSpace((PathQuote(path) + tail)[0])
  {
  }

  /** Where the first white space other than a space is. */
  function Break(path: string): (i: nat)
    ensures i <= |path| && OnlySpaces(path[..i]) && (i < |path| ==> IsSpace(path[i]) && path[i] != ' ')
    ensures i == |path| <==> OnlySpaces(path)
  {
    if path == "" || (IsSpace(path[0]) && path[0] != ' ') then 0 else 1 + Break(path[1..])
  }

  function Size(paths: seq<string>): nat {
    if paths == [] then 0 else 1 + |paths[0]| + Size(paths[1..])
  }

  /** What comes first in the list: text that is not cut, the white space behind it, and what
      follows, or the last text of all. */
  datatype Piece = Last(text: string) | Before(text: string, sep: char, rest: seq<string>)

  function FirstPiece(paths: seq<string>): (p: Piece)
    requires |paths| > 0
    ensures OnlySpaces(p.text)
    ensures p.Before? ==> IsSpace(p.sep) && Size(p.rest) < Size(paths)
  {
    var path := paths[0];
    var i := Break(path);
    if i < |path| then Before(path[..i], path[i], [path[i + 1..]] + paths[1..])
    else if |paths| == 1 then Last(path)
    else Before(path, ' ', paths[1..])
  }

  /** What the arguments come to: the pieces that are not empty, where a piece that ends in a
      backslash, which makes the white space after it part of the argument, is joined to the next. */
  function Joined(paths: seq<string>): seq<string>
    decreases Size(paths), 1
  {
    if |paths| == 0 then []
    else
      var p := FirstPiece(paths);
      if p.text != "" then [Rejoined(paths).word] + Rejoined(paths).more
      else if p.Last? then [] else Joined(p.rest)
  }

  /** The same while an argument is being read. */
  function Rejoined(paths: seq<string>): Parsed
    requires |paths| > 0
    decreases Size(paths), 0
  {
    var p := FirstPiece(paths);
    if p.Last? then Parsed(p.text, [])
    else if EndsOpen(p.text) && |p.rest| > 0 then
      var next := Rejoined(p.rest);
      Parsed(p.text[..|p.text| - 1] + [p.sep] + next.word, next.more)
    else Parsed(p.text, Joined(p.rest))
  }

  lemma {:induction false} QuoteAppend(path: string, c: char)
    requires c != ' '
    ensures PathQuote(path + [c]) == PathQuote(path) + [c]
  {
    if path != "" {
      assert (path + [c])[1..] == path[1..] + [c];
      QuoteAppend(path[1..], c);
    }
  }

  lemma SeparatorEnds(c: char, t: string)
    requires IsSpace(c)
    ensures Rest([c] + t) == Parsed("", Args(t)) && Args([c] + t) == Args(t)
  {
    assert ([c] + t)[1..] == t;
  }

  lemma {:induction false} QuoteSplit(path: string, i: nat)
    requires i <= |path|
    ensures PathQuote(path) == PathQuote(path[..i]) + PathQuote(path[i..])
  {
    if i > 0 {
      QuoteSplit(path[1..], i - 1);
      assert path[..i][1..] == path[1..][..i - 1] && path[1..][i - 1..] == path[i..];
    }
  }

  /** The line, piece by piece. */
  lemma LinePiece(paths: seq<string>)
    requires |paths| > 0
    ensures var p := FirstPiece(paths);
      && Line(paths) == PathQuote(p.text) + (if p.Last? then "" else [p.sep] + Line(p.rest))
      && (p.Before? ==> |p.rest| > 0)
  {
    var path := paths[0];
    var i := Break(path);
    if i < |path| { LineBreak(paths, i); }
  }

  lemma LineBreak(paths: seq<string>, i: nat)
    requires |paths| > 0 && i < |paths[0]| && paths[0][i] != ' '
    ensures Line(paths) == PathQuote(paths[0][..i]) + ([paths[0][i]] + Line([paths[0][i + 1..]] + paths[1..]))
  {
    hide PathQuote;
    var path := paths[0];
    var after := path[i + 1..];
    var rest := [after] + paths[1..];
    QuoteSplit(path, i);
    assert path[i..] == [path[i]] + after;
    QuoteFirst(path[i], after);
    assert rest[1..] == paths[1..];
    var more := if |paths| == 1 then "" else " " + Line(paths[1..]);
    assert Line(rest) == PathQuote(after) + more;
    assert Line(paths) == PathQuote(path[..i]) + ([path[i]] + PathQuote(after)) + more;
  }

  lemma QuoteFirst(c: char, s: string)
    requires c != ' '
    ensures PathQuote([c] + s) == [c] + PathQuote(s)
  {
    assert ([c] + s)[1..] == s;
  }

  lemma {:induction false} RestOfLine(paths: seq<string>)
    requires |paths| > 0
    ensures Rest(Line(paths)) == Rejoined(paths)
    decreases Size(paths), 0
  {
    hide Rest, Args, PathQuote, OnlySpaces, IsSpace, Line, FirstPiece;
    var p := FirstPiece(paths);
    LinePiece(paths);
    RestNothing();
    if p.Last? {
      RestOfQuoted(p.text, "");
      assert PathQuote(p.text) + "" == Line(paths) && p.text + "" == p.text;
    } else if EndsOpen(p.text) {
      var q := p.text[..|p.text| - 1];
      assert p.text == q + ['\\'];
      QuoteAppend(q, '\\');
      var tail := "\\" + [p.sep] + Line(p.rest);
      assert Line(paths) == PathQuote(q) + tail;
      PrefixOnlySpaces(p.text, q);
      SpaceIsSpace();
      RestOfQuoted(q, tail);
      RestEscape(p.sep, Line(p.rest));
      RestOfLine(p.rest);
    } else {
      RestOfQuoted(p.text, [p.sep] + Line(p.rest));
      SeparatorEnds(p.sep, Line(p.rest));
      ArgsOfLine(p.rest);
      assert p.text + "" == p.text;
    }
  }

  lemma RestNothing()
    ensures Rest("") == Parsed("", []) && Args("") == []
  {
  }

  lemma QuoteNothing()
    ensures PathQuote("") == ""
  {
  }

  lemma PrefixOnlySpaces(path: string, q: string)
    requires OnlySpaces(path) && q <= path
    ensures OnlySpaces(q)
  {
  }

  /** What the quoted line is cut into, for every list of paths. */
  lemma {:induction false} ArgsOfLine(paths: seq<string>)
    ensures Args(Line(paths)) == Joined(paths)
    decreases Size(paths), 1
  {
    hide Rest, Rejoined, OnlySpaces, IsSpace, PathQuote, FirstPiece;
    RestNothing();
    if |paths| > 0 {
      var p := FirstPiece(paths);
      LinePiece(paths);
      if p.text != "" {
        RestOfLine(paths);
        QuotedStart(p.text, if p.Last? then "" else [p.sep] + Line(p.rest));
      } else {
        assert PathQuote("") == "" by { QuoteNothing(); }
        if p.Before? {
          assert Line(paths) == [p.sep] + Line(p.rest);
          SeparatorEnds(p.sep, Line(p.rest));
          ArgsOfLine(p.rest);
        }
      }
    }
  }

  // ----- when the paths come back -----

  predicate AllOnlySpaces(paths: seq<string>) {
    forall i :: 0 <= i < |paths| ==> OnlySpaces(paths[i])
  }

  /** No path is empty, and none but the last ends in a backslash. */
  predicate Separable(paths: seq<string>) {
    forall i :: 0 <= i < |paths| ==> paths[i] != "" && (i + 1 < |paths| ==> !EndsOpen(paths[i]))
  }

  lemma SeparableCons(paths: seq<string>)
    requires |paths| > 0
    ensures Separable(paths) <==>
      paths[0] != "" && (|paths| > 1 ==> !EndsOpen(paths[0])) && Separable(paths[1..])
  {
    var others := paths[1..];
    if Separable(others) && paths[0] != "" && (|paths| > 1 ==> !EndsOpen(paths[0])) {
      forall i | 0 < i < |paths| ensures paths[i] == others[i - 1] {}
    }
    if Separable(paths) {
      forall i | 0 <= i < |others| ensures others[i] == paths[i + 1] {}
    }
  }

  /** With no other white space than spaces there are as many pieces as paths. */
  lemma {:induction false} JoinedCount(paths: seq<string>)
    requires AllOnlySpaces(paths)
    ensures |Joined(paths)| <= |paths| && (|Joined(paths)| == |paths| <==> Separable(paths))
    ensures |paths| > 0 ==> 1 + |Rejoined(paths).more| <= |paths|
    ensures |paths| > 0 ==>
      (1 + |Rejoined(paths).more| == |paths| <==> Separable(paths[1..]) && (|paths| > 1 ==> !EndsOpen(paths[0])))
    ensures Separable(paths) ==> Joined(paths) == paths
    decreases |paths|
  {
    hide Separable, EndsOpen, Break, OnlySpaces;
    if |paths| > 0 {
      JoinedCount(paths[1..]);
      SeparableCons(paths);
      assert OnlySpaces(paths[0]);
    } else {
      NoPaths();
    }
  }

  lemma NoPaths()
    ensures Separable([])
  {
  }

  /** The characters of all arguments. */
  function Weight(args: seq<string>): nat {
    if args == [] then 0 else |args[0]| + Weight(args[1..])
  }

  function Whites(s: string): nat {
    if s == "" then 0 else (if IsSpace(s[0]) then 1 else 0) + Whites(s[1..])
  }

  /** White space other than spaces, which quoting does not protect. */
  function Unquoted(s: string): nat {
    if s == "" then 0 else (if IsSpace(s[0]) && s[0] != ' ' then 1 else 0) + Unquoted(s[1..])
  }

  function AllUnquoted(paths: seq<string>): nat {
    if paths == [] then 0 else Unquoted(paths[0]) + AllUnquoted(paths[1..])
  }

  /** Every white space of a line costs one character: itself, or the backslash before it. */
  lemma {:induction false} ArgsWeigh(s: string)
    ensures Weight(Args(s)) + Whites(s) == |s|
    ensures |Rest(s).word| + Weight(Rest(s).more) + Whites(s) == |s|
    decreases |s|
  {
    if s != "" {
      ArgsWeigh(s[1..]);
      if Quoted(s) {
        ArgsWeigh(s[2..]);
        assert s[1..][1..] == s[2..];
        SpaceIsSpace();
      }
      assert ([Rest(s).word] + Rest(s).more)[1..] == Rest(s).more;
    }
  }

  lemma {:induction false} QuoteWeighs(path: string, tail: string)
    ensures |PathQuote(path)| + Unquoted(path) == |path| + Whites(path)
    ensures Whites(PathQuote(path) + tail) == Whites(path) + Whites(tail)
  {
    if path == "" {
      assert PathQuote(path) + tail == tail;
    } else {
      var t := PathQuote(path[1..]) + tail;
      QuoteWeighs(path[1..], tail);
      SpaceIsSpace();
      if path[0] == ' ' {
        assert PathQuote(path) + tail == "\\ " + t;
        assert ("\\ " + t)[1..] == " " + t && (" " + t)[1..] == t;
      } else {
        assert PathQuote(path) + tail == [path[0]] + t;
      }
    }
  }

  lemma {:induction false} LineWeighs(paths: seq<string>)
    ensures |Line(paths)| + AllUnquoted(paths) == Weight(paths) + Whites(Line(paths))
  {
    hide PathQuote;
    if |paths| > 0 {
      var path, others := paths[0], paths[1..];
      LineWeighs(others);
      QuoteWeighs(path, if |paths| == 1 then "" else " " + Line(others));
      assert PathQuote(path) + "" == PathQuote(path);
      if |paths| > 1 {
        assert (" " + Line(others))[1..] == Line(others);
        assert PathQuote(path) + " " + Line(others) == PathQuote(path) + (" " + Line(others));
        SpaceIsSpace();
      }
    }
  }

  lemma {:induction false} UnquotedNone(s: string)
    ensures Unquoted(s) == 0 <==> OnlySpaces(s)
  {
    if s != "" {
      UnquotedNone(s[1..]);
      if OnlySpaces(s[1..]) && !(IsSpace(s[0]) && s[0] != ' ') {
        forall i | 0 < i < |s| ensures s[i] == s[1..][i - 1] {}
      }
      if OnlySpaces(s) {
        forall i | 0 <= i < |s| - 1 ensures s[1..][i] == s[i + 1] {}
      }
    }
  }

  lemma {:induction false} AllUnquotedNone(paths: seq<string>)
    ensures AllUnquoted(paths) == 0 <==> AllOnlySpaces(paths)
  {
    hide Unquoted, OnlySpaces;
    if paths != [] {
      UnquotedNone(paths[0]);
      AllUnquotedNone(paths[1..]);
      if AllOnlySpaces(paths[1..]) && OnlySpaces(paths[0]) {
        forall i | 0 < i < |paths| ensures paths[i] == paths[1..][i - 1] {}
      }
      if AllOnlySpaces(paths) {
        forall i | 0 <= i < |paths| - 1 ensures paths[1..][i] == paths[i + 1] {}
      }
    }
  }

  /** The arguments have all characters of the paths but one for each white space that is not a space. */
  lemma ArgsLose(paths: seq<string>)
    ensures Weight(Args(Line(paths))) == Weight(paths) - AllUnquoted(paths)
  {
    hide Args, Line;
    ArgsWeigh(Line(paths));
    LineWeighs(paths);
  }

  /** Quoting the paths, putting spaces between them and cutting the line into arguments gives
      the paths back exactly when no path is empty, none but the last ends in a backslash, and
      none holds white space other than spaces. */
  lemma RoundTripIff(paths: seq<string>)
    ensures Args(Line(paths)) == paths <==> Separable(paths) && AllOnlySpaces(paths)
  {
    hide Args, Line;
    ArgsLose(paths);
    AllUnquotedNone(paths);
    if AllOnlySpaces(paths) {
      ArgsOfLine(paths);
      JoinedCount(paths);
    }
  }

  /** One path list for each way to fail, and what comes of it: a tab, an empty path, and a
      backslash at the end of a path that is not the last. */
  lemma RoundTripFails()
    ensures Args(Line(["a\tb"])) == ["a", "b"]
    ensures Args(Line(["", "a"])) == ["a"]
    ensures Args(Line(["a\\", "b"])) == ["a b"]
  {
    ArgsOfLine(["a\tb"]);
    ArgsOfLine(["", "a"]);
    ArgsOfLine(["a\\", "b"]);
    TabCuts();
    EmptyGoes();
    BackslashJoins();
  }

  lemma TabCuts()
    ensures Joined(["a\tb"]) == ["a", "b"]
  {
    assert "a\tb"[..1] == "a" && "a\tb"[2..] == "b";
    assert Break("a\tb") == 1 && Break("b") == 1;
    assert FirstPiece(["a\tb"]) == Before("a", '\t', ["b"]);
    assert Joined(["b"]) == ["b"];
  }

  lemma EmptyGoes()
    ensures Joined(["", "a"]) == ["a"]
  {
    assert Break("") == 0 && Break("a") == 1;
    assert ["", "a"][1..] == ["a"];
    assert FirstPiece(["", "a"]) == Before("", ' ', ["a"]);
    assert FirstPiece(["a"]) == Last("a");
    assert Joined(["a"]) == ["a"];
  }

  lemma BackslashJoins()
    ensures Joined(["a\\", "b"]) == ["a b"]
  {
    assert Break("a\\") == 2 && Break("b") == 1;
    assert FirstPiece(["a\\", "b"]) == Before("a\\", ' ', ["b"]);
    assert FirstPiece(["b"]) == Last("b") && Rejoined(["b"]) == Parsed("b", []);
    assert "a\\"[|"a\\"| - 1] == '\\' && "a\\"[..1] == "a" && "a" + [' '] + "b" == "a b";
    assert EndsOpen("a\\");
    assert Rejoined(["a\\", "b"]) == Parsed("a b", []);
  }
}
