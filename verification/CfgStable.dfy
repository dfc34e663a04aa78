/** A second update changes nothing, and an update leaves the other sections alone. */
module CfgStable {
  import opened Text
  import opened CfgText
  import opened CfgFile
  import opened CfgLaws

  // ----- a second update -----

  /** Lines that an update writes as they are. */
  predicate Settled(lines: seq<string>, keys: seq<string>, v: seq<Value>)
    requires |v| == |keys|
  {
    forall i :: 0 <= i < |lines| ==> Emit(lines[i], keys, v) == [lines[i]]
  }

  lemma {:induction false} BodySettled(lines: seq<string>, keys: seq<string>, v: seq<Value>)
    requires |v| == |keys| && Settled(lines, keys, v)
    ensures Body(lines, keys, v) == lines
  {
    hide Emit;
    if lines != [] {
      BodySettled(lines[..|lines| - 1], keys, v);
    }
  }

  lemma {:induction false} BodyAppend(a: seq<string>, b: seq<string>, keys: seq<string>, v: seq<Value>)
    requires |v| == |keys|
    ensures Body(a + b, keys, v) == Body(a, keys, v) + Body(b, keys, v)
    ensures Count(a + b, keys) == Count(a, keys) + Count(b, keys)
    ensures Saw(a + b, keys) == Saw(a, keys) + Saw(b, keys)
    decreases |b|
  {
    hide Emit, ItemOf;
    if b == [] {
      assert a + b == a;
    } else {
      assert (a + b)[..|a + b| - 1] == a + b[..|b| - 1];
      BodyAppend(a, b[..|b| - 1], keys, v);
    }
  }

  lemma TokenSettled(keys: seq<string>, k: nat, v: seq<Value>)
    requires GoodKeys(keys) && k < |keys| == |v| && AllStorable(v)
    ensures var line := TokenLine(keys[k], v[k]);
      Emit(line, keys, v) == [line] && ItemOf(line, keys).Key? && ItemOf(line, keys).k == k
  {
    hide ItemOf, TokenLine;
    ItemOfToken(keys, k, v[k]);
  }

  lemma CommentSettled(line: string, keys: seq<string>, v: seq<Value>)
    requires |v| == |keys| && ItemOf(line, keys).Comment?
    ensures Emit(line, keys, v) == [Trim(line)] == Emit(Trim(line), keys, v)
    ensures !ItemOf(Trim(line), keys).Key?
  {
    hide ItemOf;
    CommentText(line, keys);
    LoadComment(v, line, keys);
  }

  lemma OneLine(line: string, keys: seq<string>, v: seq<Value>)
    requires |v| == |keys|
    ensures Count([line], keys) == (if ItemOf(line, keys).Key? then 1 else 0)
    ensures Saw([line], keys) == (if ItemOf(line, keys).Key? then {ItemOf(line, keys).k} else {})
  {
    hide ItemOf;
    assert [line][..0] == [];
  }

  /** The rewritten lines are settled and hold the same keys as often. */
  lemma {:induction false} BodyAgain(lines: seq<string>, keys: seq<string>, v: seq<Value>)
    requires GoodKeys(keys) && |v| == |keys| && AllStorable(v)
    ensures var b := Body(lines, keys, v);
      Settled(b, keys, v) && Count(b, keys) == Count(lines, keys) && Saw(b, keys) == Saw(lines, keys)
  {
    hide Emit, ItemOf, TokenLine;
    if lines != [] {
      var before, line := lines[..|lines| - 1], lines[|lines| - 1];
      BodyAgain(before, keys, v);
      BodyAppend(Body(before, keys, v), Emit(line, keys, v), keys, v);
      EmitAgain(line, keys, v);
    }
  }

  lemma EmitAgain(line: string, keys: seq<string>, v: seq<Value>)
    requires GoodKeys(keys) && |v| == |keys| && AllStorable(v)
    ensures var e := Emit(line, keys, v);
      && Settled(e, keys, v) && Count(e, keys) == (if ItemOf(line, keys).Key? then 1 else 0)
      && Saw(e, keys) == (if ItemOf(line, keys).Key? then {ItemOf(line, keys).k} else {})
  {
    hide ItemOf, TokenLine;
    match ItemOf(line, keys)
    case Comment(t) =>
      CommentSettled(line, keys, v);
      OneLine(Trim(line), keys, v);
    case Key(k, _) =>
      KeyRange(line, keys);
      TokenSettled(keys, k, v);
      OneLine(TokenLine(keys[k], v[k]), keys, v);
    case Skip =>
  }

  lemma {:induction false} MissingAgain(saw: set<nat>, keys: seq<string>, v: seq<Value>, n: nat)
    requires GoodKeys(keys) && |v| == |keys| && AllStorable(v) && n <= |keys|
    ensures var m := Missing(saw, keys, v, n);
      Settled(m, keys, v) && Saw(m, keys) == Unseen(saw, n)
  {
    hide Emit, ItemOf, TokenLine, Body, Count, Saw, Missing;
    MissingStep(saw, keys, v, n);
    NothingRead(v, keys, v);
    if n > 0 {
      MissingAgain(saw, keys, v, n - 1);
      var line := TokenLine(keys[n - 1], v[n - 1]);
      BodyAppend(Missing(saw, keys, v, n - 1), [line], keys, v);
      TokenSettled(keys, n - 1, v);
      OneLine(line, keys, v);
      UnseenStep(saw, n);
    }
  }

  lemma {:induction false} NothingMissing(saw: set<nat>, keys: seq<string>, v: seq<Value>, n: nat)
    requires |v| == |keys| && n <= |keys| && forall k: nat :: k < n ==> k in saw
    ensures Missing(saw, keys, v, n) == []
  {
    if n > 0 {
      NothingMissing(saw, keys, v, n - 1);
    }
  }

  lemma BlankIs(keys: seq<string>, v: seq<Value>)
    requires |v| == |keys|
    ensures Body([""], keys, v) == [] && Count([""], keys) == 0 && Saw([""], keys) == {}
  {
    assert [""][..0] == [] && ItemOf("", keys) == Skip;
  }

  lemma BlankDropped(lines: seq<string>, keys: seq<string>, v: seq<Value>)
    requires |v| == |keys|
    ensures NewSection(lines + [""], keys, v) == NewSection(lines, keys, v)
  {
    hide Body, Count, Saw, Missing;
    BodyAppend(lines, [""], keys, v);
    BlankIs(keys, v);
    assert Body(lines, keys, v) + [] == Body(lines, keys, v) && Saw(lines, keys) + {} == Saw(lines, keys);
  }

  /** A section that was rewritten is rewritten to itself. */
  lemma NewAgain(section: seq<string>, keys: seq<string>, v: seq<Value>)
    requires GoodKeys(keys) && |v| == |keys| && AllStorable(v)
    ensures NewSection(NewSection(section, keys, v), keys, v) == NewSection(section, keys, v)
  {
    hide Body, Count, Saw, Missing, Emit;
    var b, saw := Body(section, keys, v), Saw(section, keys);
    BodyAgain(section, keys, v);
    if Count(section, keys) == |keys| {
      assert b + [] == b;
      BodySettled(b, keys, v);
    } else {
      var m := Missing(saw, keys, v, |keys|);
      MissingAgain(saw, keys, v, |keys|);
      BodyAppend(b, m, keys, v);
      BodySettled(b, keys, v);
      BodySettled(m, keys, v);
      NothingMissing(saw + Unseen(saw, |keys|), keys, v, |keys|);
      assert b + m + [] == b + m;
    }
  }

  /** A second update leaves the file as it is. */
  lemma SecondUpdate(lines: seq<string>, header: string, keys: seq<string>, v: seq<Value>)
    requires GoodKeys(keys) && |v| == |keys| && AllStorable(v) && GoodHeader(header)
    requires First(lines, header) < |lines|
    ensures Update(Update(lines, header, keys, v), header, keys, v) == Update(lines, header, keys, v)
  {
    hide First, Section, Remainder, NewSection, Trim, Trimmed, Update, Following;
    var h, u := First(lines, header), Update(lines, header, keys, v);
    UpdatedFound(lines, header, keys, v);
    UpdateIs(lines, header, keys, v);
    UpdateIs(u, header, keys, v);
    var after, now := lines[h + 1..], u[h + 1..];
    var rest := Remainder(after);
    SectionAgain(Section(after), rest, Section(now), keys, v);
    FollowingTrimmed(rest);
    TrimmedTwice(lines[..h + 1]);
  }

  lemma SectionAgain(section: seq<string>, rest: seq<string>, now: seq<string>, keys: seq<string>, v: seq<Value>)
    requires GoodKeys(keys) && |v| == |keys| && AllStorable(v)
    requires now == NewSection(section, keys, v) + (if rest == [] then [] else [""])
    ensures NewSection(now, keys, v) == NewSection(section, keys, v)
  {
    hide NewSection;
    var updated := NewSection(section, keys, v);
    NewAgain(section, keys, v);
    BlankDropped(updated, keys, v);
    assert updated + [] == updated;
  }

  lemma FollowingTrimmed(rest: seq<string>)
    ensures Following(Trimmed(rest)) == Following(rest)
  {
    TrimmedTwice(rest);
  }

  /** Where the first update added the section, the second one drops the empty line it left at
      the end of the file; then nothing changes any more. */
  lemma SecondUpdateAdded(lines: seq<string>, header: string, keys: seq<string>, v: seq<Value>)
    requires GoodKeys(keys) && |v| == |keys| && AllStorable(v) && GoodHeader(header)
    requires First(lines, header) == |lines|
    ensures Update(Update(lines, header, keys, v), header, keys, v) + [""] == Update(lines, header, keys, v)
  {
    hide First, Section, Remainder, NewSection, Trim, Missing, Trimmed, Update, Following;
    var h, u := First(lines, header), Update(lines, header, keys, v);
    UpdatedAdded(lines, header, keys, v);
    UpdateIs(lines, header, keys, v);
    UpdateIs(u, header, keys, v);
    var m := Missing({}, keys, v, |keys|);
    MissingIsNew(keys, v);
    NewAgain([], keys, v);
    BlankDropped(m, keys, v);
    TrimWorks(header);
    TrimmedHeader(lines, header);
    assert u[..h + 1] == Trimmed(lines) + [header];
    NothingFollows();
    assert m + [] == m;
  }

  lemma NothingFollows()
    ensures Following([]) == []
  {
  }

  lemma TrimmedTwice(lines: seq<string>)
    ensures Trimmed(Trimmed(lines)) == Trimmed(lines)
  {
    forall i | 0 <= i < |lines| ensures Trim(Trim(lines[i])) == Trim(lines[i]) { TrimTwice(lines[i]); }
  }

  lemma TrimmedHeader(lines: seq<string>, header: string)
    requires Trim(header) == header
    ensures Trimmed(Trimmed(lines) + [header]) == Trimmed(lines) + [header]
  {
    forall i | 0 <= i < |lines| ensures Trim(Trim(lines[i])) == Trim(lines[i]) { TrimTwice(lines[i]); }
  }

  lemma MissingIsNew(keys: seq<string>, v: seq<Value>)
    requires |v| == |keys|
    ensures NewSection([], keys, v) == Missing({}, keys, v, |keys|)
  {
    if |keys| == 0 { assert Missing({}, keys, v, 0) == []; }
  }

  // ----- the other sections -----

  lemma LoadTrimmedLine(w: seq<Value>, line: string, keys: seq<string>)
    requires |w| == |keys|
    ensures LoadLine(w, Trim(line), keys) == LoadLine(w, line, keys)
  {
    TrimTwice(line);
  }

  lemma {:induction false} LoadTrimmed(w: seq<Value>, lines: seq<string>, keys: seq<string>)
    requires |w| == |keys|
    ensures LoadSection(w, Trimmed(lines), keys) == LoadSection(w, lines, keys)
  {
    hide LoadLine, Trim;
    if lines != [] {
      var before, line := lines[..|lines| - 1], lines[|lines| - 1];
      LoadTrimmed(w, before, keys);
      assert Trimmed(lines)[..|lines| - 1] == Trimmed(before);
      LoadTrimmedLine(LoadSection(w, before, keys), line, keys);
    }
  }

  lemma {:induction false} FirstMeans(lines: seq<string>, head: string, i: nat)
    requires i < |lines| && (i < First(lines, head) || head <= Trim(lines[i]))
    ensures i < First(lines, head) ==> !(head <= Trim(lines[i]))
    ensures head <= Trim(lines[i]) ==> First(lines, head) <= i
  {
    hide Trim;
    if i > 0 && First(lines, head) > 0 {
      assert lines[i] == lines[1..][i - 1];
      FirstMeans(lines[1..], head, i - 1);
    }
  }

  /** The section of another header that starts in `a`, when `a` ends with the start of a section. */
  lemma LoadInStart(a: seq<string>, b: seq<string>, g: string, keys: seq<string>, w: seq<Value>)
    requires |w| == |keys| && First(a, g) < |a| - 1 && "[" <= Trim(a[|a| - 1])
    ensures Load(a + b, g, keys, w) == Load(a, g, keys, w) == Load(Trimmed(a), g, keys, w)
  {
    hide Trim, LoadSection, First, Trimmed, Section, Load;
    var j := First(a, g);
    FirstAppend(a, b, g);
    FirstTrimmed(a, g);
    var t := a[j + 1..];
    LoadFrom(a, g, keys, w);
    LoadFrom(a + b, g, keys, w);
    LoadFrom(Trimmed(a), g, keys, w);
    assert (a + b)[j + 1..] == t + b;
    SectionInside(t, b);
    TrimmedFrom(a, j + 1);
    SectionTrimmed(t);
    LoadTrimmed(w, Section(t), keys);
  }

  lemma LoadFrom(lines: seq<string>, g: string, keys: seq<string>, w: seq<Value>)
    requires |w| == |keys| && First(lines, g) < |lines|
    ensures Load(lines, g, keys, w) == LoadSection(w, Section(lines[First(lines, g) + 1..]), keys)
  {
    hide Section, LoadSection, First;
  }

  lemma SectionInside(t: seq<string>, b: seq<string>)
    requires t != [] && "[" <= Trim(t[|t| - 1])
    ensures Section(t + b) == Section(t)
  {
    hide Trim;
    FirstMeans(t, "[", |t| - 1);
    FirstAppend(t, b, "[");
    assert (t + b)[..First(t, "[")] == t[..First(t, "[")];
  }

  lemma SectionTrimmed(t: seq<string>)
    ensures Section(Trimmed(t)) == Trimmed(Section(t))
  {
    hide Trim;
    FirstTrimmed(t, "[");
  }

  /** A header that is not in `a`: what is loaded comes from behind it. */
  lemma LoadBehind(a: seq<string>, b: seq<string>, g: string, keys: seq<string>, w: seq<Value>)
    requires |w| == |keys| && First(a, g) == |a|
    ensures Load(a + b, g, keys, w) == Load(b, g, keys, w) == Load(Trimmed(b), g, keys, w)
  {
    hide Trim, LoadSection, First, Trimmed, Section;
    FirstAppend(a, b, g);
    FirstTrimmed(b, g);
    var j := First(b, g);
    if j < |b| {
      assert (a + b)[|a| + j + 1..] == b[j + 1..];
      TrimmedFrom(b, j + 1);
      SectionTrimmed(b[j + 1..]);
      LoadTrimmed(w, Section(b[j + 1..]), keys);
    }
  }

  lemma TrimmedFrom(b: seq<string>, j: nat)
    requires j <= |b|
    ensures Trimmed(b)[j..] == Trimmed(b[j..])
  {
  }

  /** A header of another section: it starts like a header, and the one that is updated does not
      start with it. */
  predicate OtherHeader(g: string, line: string) {
    "[" <= g && !(g <= Trim(line))
  }

  /** An update of one section leaves what is loaded from any other as it was. */
  lemma OthersUntouched(lines: seq<string>, header: string, keys: seq<string>, v: seq<Value>,
                        g: string, others: seq<string>, w: seq<Value>)
    requires GoodKeys(keys) && |v| == |keys| && AllStorable(v) && GoodHeader(header) && |w| == |others|
    requires var h := First(lines, header); OtherHeader(g, if h < |lines| then lines[h] else header)
    ensures Load(Update(lines, header, keys, v), g, others, w) == Load(lines, g, others, w)
  {
    hide Trim, First, Update, Load;
    if First(lines, header) < |lines| {
      OthersKept(lines, header, keys, v, g, others, w);
    } else {
      OthersAdded(lines, header, keys, v, g, others, w);
    }
  }

  lemma OthersKept(lines: seq<string>, header: string, keys: seq<string>, v: seq<Value>,
                   g: string, others: seq<string>, w: seq<Value>)
    requires GoodKeys(keys) && |v| == |keys| && AllStorable(v) && GoodHeader(header) && |w| == |others|
    requires First(lines, header) < |lines| && OtherHeader(g, lines[First(lines, header)])
    ensures Load(Update(lines, header, keys, v), g, others, w) == Load(lines, g, others, w)
  {
    hide Trim, First, Section, NewSection, Trimmed, Update, Load, Remainder, Following, NoStart, OtherHeader;
    var h := First(lines, header);
    var start, after := lines[..h + 1], lines[h + 1..];
    var rest, was, now := Remainder(after), Section(after), NewSection(Section(after), keys, v);
    var blank := if rest == [] then [] else [""];
    SplitSection(after);
    NewNoStart(was, keys, v);
    BlankNoStart(now, blank);
    SectionNoStart(after);
    HeaderLine(lines, header);
    SplitLines(lines, h + 1, was, rest);
    UpdateAs(lines, header, keys, v, start, now, blank, rest);
    Replaced(start, was, now + blank, rest, g, others, w);
  }

  lemma SplitLines(lines: seq<string>, n: nat, was: seq<string>, rest: seq<string>)
    requires n <= |lines| && lines[n..] == was + rest
    ensures lines == lines[..n] + (was + rest)
  {
  }

  lemma UpdateAs(lines: seq<string>, header: string, keys: seq<string>, v: seq<Value>,
                 start: seq<string>, now: seq<string>, blank: seq<string>, rest: seq<string>)
    requires |v| == |keys| && First(lines, header) < |lines|
    requires var h := First(lines, header);
      start == lines[..h + 1] && rest == Remainder(lines[h + 1..]) && now == NewSection(Section(lines[h + 1..]), keys, v)
    requires blank == if rest == [] then [] else [""]
    ensures Update(lines, header, keys, v) == Trimmed(start) + (now + blank + Trimmed(rest))
  {
    hide Trim, First, Section, NewSection, Trimmed, Update, Remainder, Following;
    UpdateIs(lines, header, keys, v);
    FollowingIs(rest);
    Associate(Trimmed(start), now, blank, Trimmed(rest));
  }

  lemma BlankNoStart(now: seq<string>, blank: seq<string>)
    requires NoStart(now) && NoStart([""]) && (blank == [] || blank == [""])
    ensures NoStart(now + blank)
  {
    hide Trim;
  }

  lemma HeaderLine(lines: seq<string>, header: string)
    requires GoodHeader(header) && First(lines, header) < |lines|
    ensures "[" <= Trim(lines[First(lines, header)])
  {
    hide Trim;
  }

  lemma SectionNoStart(after: seq<string>)
    ensures NoStart(Section(after))
  {
    hide Trim, First;
    forall i | 0 <= i < |Section(after)| ensures !("[" <= Trim(Section(after)[i])) {
      FirstMeans(after, "[", i);
    }
  }

  lemma BracketFirst(g: string, t: string)
    ensures "[" <= g && g <= t ==> "[" <= t
  {
  }

  lemma NoStartNone(lines: seq<string>, g: string)
    requires NoStart(lines) && "[" <= g
    ensures First(lines, g) == |lines|
  {
    hide Trim, First;
    forall i | 0 <= i < |lines| ensures !(g <= Trim(lines[i])) {
      BracketFirst(g, Trim(lines[i]));
    }
    FirstNone(lines, g);
  }

  /** Replacing the lines between a section header and the next one. */
  lemma Replaced(start: seq<string>, was: seq<string>, now: seq<string>, rest: seq<string>,
                 g: string, keys: seq<string>, w: seq<Value>)
    requires |w| == |keys| && start != [] && OtherHeader(g, start[|start| - 1]) && "[" <= Trim(start[|start| - 1])
    requires NoStart(was) && NoStart(now)
    ensures Load(Trimmed(start) + (now + Trimmed(rest)), g, keys, w) == Load(start + (was + rest), g, keys, w)
  {
    hide Trim, LoadSection, First, Trimmed, Load;
    var last := start[|start| - 1];
    FirstTrimmed(start, g);
    TrimTwice(last);
    if First(start, g) < |start| {
      assert First(start, g) < |start| - 1;
      LoadInStart(start, was + rest, g, keys, w);
      LoadInStart(Trimmed(start), now + Trimmed(rest), g, keys, w);
    } else {
      NoStartNone(was, g);
      NoStartNone(now, g);
      LoadBehind(start, was + rest, g, keys, w);
      LoadBehind(was, rest, g, keys, w);
      LoadBehind(Trimmed(start), now + Trimmed(rest), g, keys, w);
      LoadBehind(now, Trimmed(rest), g, keys, w);
    }
  }

  lemma OthersAdded(lines: seq<string>, header: string, keys: seq<string>, v: seq<Value>,
                    g: string, others: seq<string>, w: seq<Value>)
    requires GoodKeys(keys) && |v| == |keys| && AllStorable(v) && GoodHeader(header) && |w| == |others|
    requires First(lines, header) == |lines| && OtherHeader(g, header)
    ensures Load(Update(lines, header, keys, v), g, others, w) == Load(lines, g, others, w)
  {
    hide Trim, LoadSection, First, Section, Missing, Trimmed, Update, Load;
    UpdateIs(lines, header, keys, v);
    var more := Missing({}, keys, v, |keys|) + [""];
    var start := lines + [header];
    TrimWorks(header);
    TrimmedOne(lines, header);
    assert Update(lines, header, keys, v) == Trimmed(start) + (more + []);
    NewNoStart([], keys, v);
    MissingNoStart({}, keys, v, |keys|);
    TrimmedNone();
    assert start + ([] + []) == start;
    Replaced(start, [], more, [], g, others, w);
    LastHeader(lines, header, g, others, w);
  }

  lemma TrimmedNone()
    ensures Trimmed([]) == []
  {
  }

  lemma TrimmedOne(lines: seq<string>, header: string)
    requires Trim(header) == header
    ensures Trimmed(lines + [header]) == Trimmed(lines) + [header]
  {
  }

  /** A header line behind a section ends it and is no part of it. */
  lemma LastLine(t: seq<string>, header: string)
    requires "[" <= Trim(header)
    ensures Section(t + [header]) == Section(t)
  {
    hide Trim, First;
    FirstAppend(t, [header], "[");
    FirstOne(header, "[");
    assert (t + [header])[..First(t, "[")] == t[..First(t, "[")];
  }

  /** A header in the last line starts no section of another name and only ends one. */
  lemma LastHeader(lines: seq<string>, header: string, g: string, keys: seq<string>, w: seq<Value>)
    requires |w| == |keys| && GoodHeader(header) && OtherHeader(g, header)
    ensures Load(lines + [header], g, keys, w) == Load(lines, g, keys, w)
  {
    hide Trim, LoadSection, First, Section;
    TrimWorks(header);
    assert Trim(header) == header && "[" <= header;
    FirstAppend(lines, [header], g);
    FirstOne(header, g);
    var j := First(lines, g);
    if j < |lines| {
      LastLine(lines[j + 1..], header);
      assert (lines + [header])[j + 1..] == lines[j + 1..] + [header];
    }
  }
}
