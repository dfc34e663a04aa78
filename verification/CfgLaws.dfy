/** Updating a section of a settings file and loading it again. */
module CfgLaws {
  import opened Text
  import opened CfgText
  import opened CfgFile

  lemma {:induction false} FirstAppend(a: seq<string>, b: seq<string>, head: string)
    ensures First(a + b, head) == if First(a, head) < |a| then First(a, head) else |a| + First(b, head)
  {
    hide Trim;
    if a == [] {
      assert a + b == b;
    } else {
      assert (a + b)[1..] == a[1..] + b;
      FirstAppend(a[1..], b, head);
    }
  }

  lemma {:induction false} FirstTrimmed(lines: seq<string>, head: string)
    ensures First(Trimmed(lines), head) == First(lines, head)
  {
    hide Trim;
    if lines != [] {
      TrimTwice(lines[0]);
      assert Trimmed(lines)[1..] == Trimmed(lines[1..]);
      FirstTrimmed(lines[1..], head);
    }
  }

  lemma {:induction false} FirstNone(lines: seq<string>, head: string)
    requires forall i :: 0 <= i < |lines| ==> !(head <= Trim(lines[i]))
    ensures First(lines, head) == |lines|
  {
    hide Trim;
    if lines != [] {
      FirstNone(lines[1..], head);
    }
  }

  lemma FirstOne(line: string, head: string)
    ensures First([line], head) == if head <= Trim(line) then 0 else 1
  {
    hide Trim;
    assert [line][1..] == [];
  }

  /** No written line looks like the start of a section. */
  predicate NoStart(lines: seq<string>) {
    forall i :: 0 <= i < |lines| ==> !("[" <= Trim(lines[i]))
  }

  lemma {:induction false} BodyNoStart(lines: seq<string>, keys: seq<string>, v: seq<Value>)
    requires GoodKeys(keys) && |v| == |keys| && AllStorable(v)
    ensures NoStart(Body(lines, keys, v))
  {
    hide ItemOf, Trim, TokenLine;
    if lines != [] {
      var before, line := lines[..|lines| - 1], lines[|lines| - 1];
      BodyNoStart(before, keys, v);
      match ItemOf(line, keys)
      case Comment(t) => CommentText(line, keys); LoadComment(v, line, keys);
      case Key(k, _) => KeyRange(line, keys); ItemOfToken(keys, k, v[k]);
      case Skip =>
    }
  }

  lemma {:induction false} MissingNoStart(saw: set<nat>, keys: seq<string>, v: seq<Value>, n: nat)
    requires GoodKeys(keys) && |v| == |keys| && AllStorable(v) && n <= |keys|
    ensures NoStart(Missing(saw, keys, v, n))
  {
    hide ItemOf, Trim, TokenLine;
    if n > 0 {
      MissingNoStart(saw, keys, v, n - 1);
      ItemOfToken(keys, n - 1, v[n - 1]);
    }
  }

  lemma NewNoStart(section: seq<string>, keys: seq<string>, v: seq<Value>)
    requires GoodKeys(keys) && |v| == |keys| && AllStorable(v)
    ensures NoStart(NewSection(section, keys, v)) && NoStart([""])
  {
    hide Body, Missing;
    BodyNoStart(section, keys, v);
    MissingNoStart(Saw(section, keys), keys, v, |keys|);
  }

  /** A section followed by the start of the next, or by nothing. */
  lemma SectionEnds(lines: seq<string>, more: seq<string>)
    requires NoStart(lines) && (more == [] || "[" <= Trim(more[0]))
    ensures Section(lines + more) == lines
  {
    hide Trim;
    FirstNone(lines, "[");
    FirstAppend(lines, more, "[");
    assert (lines + more)[..|lines|] == lines;
  }

  lemma SplitSection(after: seq<string>)
    ensures after == Section(after) + Remainder(after)
    ensures Remainder(after) == [] || "[" <= Trim(Remainder(after)[0])
  {
    hide Trim;
  }

  /** The parts of a file with the section: what is before it with its header, the section, and
      the rest, which starts with a header. */
  lemma Parts(lines: seq<string>, header: string)
    requires First(lines, header) < |lines|
    ensures var h := First(lines, header);
      var rest := Remainder(lines[h + 1..]);
      && (rest == [] || "[" <= Trim(rest[0]))
      && lines == lines[..h + 1] + lines[h + 1..]
      && First(lines[..h + 1], header) == h
  {
    hide Trim, Section, Remainder;
    var h := First(lines, header);
    var after := lines[h + 1..];
    assert lines == lines[..h + 1] + after;
    FirstAppend(lines[..h + 1], after, header);
    SplitSection(after);
  }

  /** Where the section is after it was added at the end of the file. */
  lemma UpdatedAdded(lines: seq<string>, header: string, keys: seq<string>, v: seq<Value>)
    requires GoodKeys(keys) && |v| == |keys| && AllStorable(v) && GoodHeader(header)
    requires First(lines, header) == |lines|
    ensures Shaped(Update(lines, header, keys, v), header, Trimmed(lines) + [header],
                   Missing({}, keys, v, |keys|) + [""], [])
  {
    hide Trim, NewSection, Missing, Section, Trimmed, Remainder;
    var u, more := Update(lines, header, keys, v), Missing({}, keys, v, |keys|) + [""];
    FirstTrimmed(lines, header);
    TrimWorks(header);
    assert u == Trimmed(lines) + ([header] + more) == Trimmed(lines) + [header] + more;
    FirstAppend(Trimmed(lines), [header] + more, header);
    FirstAppend([header], more, header);
    FirstOne(header, header);
    MissingNoStart({}, keys, v, |keys|);
    NewNoStart([], keys, v);
    SectionEnds(more, []);
    assert more + [] == more && u[|lines| + 1..] == more;
    RemainderIs(more, more, []);
  }

  /** Where a section that was there is after an update. */
  lemma UpdatedFound(lines: seq<string>, header: string, keys: seq<string>, v: seq<Value>)
    requires GoodKeys(keys) && |v| == |keys| && AllStorable(v) && GoodHeader(header) && First(lines, header) < |lines|
    ensures var h := First(lines, header);
      var after := lines[h + 1..];
      var rest := Remainder(after);
      Shaped(Update(lines, header, keys, v), header, Trimmed(lines[..h + 1]),
             NewSection(Section(after), keys, v) + (if rest == [] then [] else [""]), Trimmed(rest))
  {
    hide Trim, NewSection, Remainder, First, Section, Trimmed, Update, Following, Shaped;
    var h := First(lines, header);
    Parts(lines, header);
    var after := lines[h + 1..];
    var section, rest := Section(after), Remainder(after);
    var start, updated := Trimmed(lines[..h + 1]), NewSection(section, keys, v);
    UpdateIs(lines, header, keys, v);
    FollowingIs(rest);
    var blank := if rest == [] then [] else [""];
    Associate(start, updated, blank, Trimmed(rest));
    FirstTrimmed(lines[..h + 1], header);
    NewNoStart(section, keys, v);
    Shape(start, updated + blank, rest, header, h);
  }

  /** A file that starts with `start`, whose last line is the header, then has this section, and
      then the rest. */
  predicate Shaped(u: seq<string>, header: string, start: seq<string>, section: seq<string>, rest: seq<string>) {
    var h := |start| - 1;
    && 0 <= h < |u| && First(u, header) == h && u[..h + 1] == start
    && Section(u[h + 1..]) == section && u[h + 1..] == section + rest && Remainder(u[h + 1..]) == rest
  }

  lemma Associate(a: seq<string>, b: seq<string>, c: seq<string>, d: seq<string>)
    ensures a + b + (c + d) == a + (b + c + d)
  {
  }

  lemma FollowingIs(rest: seq<string>)
    ensures Following(rest) == (if rest == [] then [] else [""]) + Trimmed(rest)
  {
  }

  lemma RemainderIs(after: seq<string>, section: seq<string>, more: seq<string>)
    requires section == Section(after) && after == section + more
    ensures Remainder(after) == more
  {
    hide First;
    assert |section| == First(after, "[");
  }

  lemma Shape(start: seq<string>, updated: seq<string>, rest: seq<string>, header: string, h: nat)
    requires |start| == h + 1 && First(start, header) == h
    requires NoStart(updated) && (rest == [] || "[" <= Trim(rest[0]))
    ensures Shaped(start + (updated + Trimmed(rest)), header, start, updated, Trimmed(rest))
  {
    hide Trim, First, Section, Remainder;
    FirstAppend(start, updated + Trimmed(rest), header);
    if rest != [] { TrimTwice(rest[0]); }
    SectionEnds(updated, Trimmed(rest));
    var u := start + (updated + Trimmed(rest));
    assert u[h + 1..] == updated + Trimmed(rest);
    RemainderIs(u[h + 1..], updated, Trimmed(rest));
  }

  lemma AppendedIs(lines: seq<string>, header: string, keys: seq<string>, v: seq<Value>)
    requires |v| == |keys|
    ensures lines + Appended(header, keys, v) == lines + [header] + Missing({}, keys, v, |keys|) + [""]
  {
    hide Missing;
  }

  lemma UpdateIs(lines: seq<string>, header: string, keys: seq<string>, v: seq<Value>)
    requires |v| == |keys|
    ensures var h := First(lines, header);
      if h == |lines| then Update(lines, header, keys, v) == Trimmed(lines) + [header] + Missing({}, keys, v, |keys|) + [""]
      else
        var after := lines[h + 1..];
        Update(lines, header, keys, v)
          == Trimmed(lines[..h + 1]) + NewSection(Section(after), keys, v) + Following(Remainder(after))
  {
    hide First, Section, Remainder, NewSection, Trim, Missing, Trimmed, Following, Appended, Update;
    if First(lines, header) == |lines| {
      UpdateAdds(lines, header, keys, v);
      AppendedIs(Trimmed(lines), header, keys, v);
    } else {
      UpdateRewrites(lines, header, keys, v);
    }
  }

  lemma UpdateAdds(lines: seq<string>, header: string, keys: seq<string>, v: seq<Value>)
    requires |v| == |keys| && First(lines, header) == |lines|
    ensures Update(lines, header, keys, v) == Trimmed(lines) + Appended(header, keys, v)
  {
    hide First, Section, Remainder, NewSection, Trim, Missing, Trimmed, Following, Appended;
  }

  lemma UpdateRewrites(lines: seq<string>, header: string, keys: seq<string>, v: seq<Value>)
    requires |v| == |keys| && First(lines, header) < |lines|
    ensures var h := First(lines, header);
      var after := lines[h + 1..];
      Update(lines, header, keys, v)
        == Trimmed(lines[..h + 1]) + NewSection(Section(after), keys, v) + Following(Remainder(after))
  {
    hide First, Section, Remainder, NewSection, Trim, Missing, Trimmed, Following, Appended;
  }

  function AllKeys(n: nat): (s: set<nat>)
    ensures |s| == n && forall k: nat :: k in s <==> k < n
  {
    if n == 0 then {} else AllKeys(n - 1) + {n - 1}
  }

  /** The keys that are in the section after an update: all of them, unless as many lines were
      rewritten as there are keys. */
  function Kept(lines: seq<string>, header: string, keys: seq<string>): set<nat> {
    var h := First(lines, header);
    if h < |lines| && Count(Section(lines[h + 1..]), keys) == |keys| then Saw(Section(lines[h + 1..]), keys)
    else AllKeys(|keys|)
  }

  lemma BlankLine(w: seq<Value>, lines: seq<string>, keys: seq<string>)
    requires |w| == |keys|
    ensures LoadSection(w, lines + [""], keys) == LoadSection(w, lines, keys)
  {
    LoadSnoc(w, lines, "", keys);
  }

  lemma BlankLineOrNone(w: seq<Value>, lines: seq<string>, none: bool, keys: seq<string>)
    requires |w| == |keys|
    ensures LoadSection(w, lines + (if none then [] else [""]), keys) == LoadSection(w, lines, keys)
  {
    hide LoadSection;
    if none { assert lines + [] == lines; } else { BlankLine(w, lines, keys); }
  }

  lemma {:induction false} SawRange(lines: seq<string>, keys: seq<string>)
    ensures forall k :: k in Saw(lines, keys) ==> k < |keys|
  {
    hide ItemOf;
    if lines != [] {
      SawRange(lines[..|lines| - 1], keys);
      if ItemOf(lines[|lines| - 1], keys).Key? { KeyRange(lines[|lines| - 1], keys); }
    }
  }

  lemma LoadNew(w: seq<Value>, section: seq<string>, keys: seq<string>, v: seq<Value>)
    requires GoodKeys(keys) && |w| == |keys| && AllStorable(v) && SameKinds(w, v)
    ensures LoadSection(w, NewSection(section, keys, v), keys)
         == Merge(w, v, if Count(section, keys) == |keys| then Saw(section, keys) else AllKeys(|keys|))
  {
    hide LoadSection, Body, Saw, Count, Missing, Merge;
    var saw := Saw(section, keys);
    LoadBody(w, section, keys, v);
    if Count(section, keys) == |keys| {
      assert Body(section, keys, v) + [] == Body(section, keys, v);
    } else {
      LoadMissing(w, saw, keys, v, |keys|, Body(section, keys, v));
      SawRange(section, keys);
      assert saw + Unseen(saw, |keys|) == AllKeys(|keys|);
    }
  }

  /** Loading after an update takes over the values of exactly the kept keys. */
  lemma LoadUpdated(lines: seq<string>, header: string, keys: seq<string>, v: seq<Value>, w: seq<Value>)
    requires GoodKeys(keys) && GoodHeader(header) && |w| == |keys| && AllStorable(v) && SameKinds(w, v)
    ensures Load(Update(lines, header, keys, v), header, keys, w) == Merge(w, v, Kept(lines, header, keys))
  {
    hide LoadSection, Update, Load, Section, Remainder, First, NewSection, Merge, Missing, Count, Saw, Shaped,
      GoodKeys, GoodHeader, AllStorable, Trimmed;
    var h, u := First(lines, header), Update(lines, header, keys, v);
    if h == |lines| {
      var m := Missing({}, keys, v, |keys|);
      UpdatedAdded(lines, header, keys, v);
      LoadShaped(u, header, Trimmed(lines) + [header], m + [""], [], keys, w);
      LoadAll(w, keys, v);
      BlankLine(w, m, keys);
    } else {
      var section, rest := Section(lines[h + 1..]), Remainder(lines[h + 1..]);
      var updated := NewSection(section, keys, v);
      UpdatedFound(lines, header, keys, v);
      LoadShaped(u, header, Trimmed(lines[..h + 1]), updated + (if rest == [] then [] else [""]), Trimmed(rest), keys, w);
      LoadNew(w, section, keys, v);
      BlankLineOrNone(w, updated, rest == [], keys);
    }
  }

  lemma LoadShaped(u: seq<string>, header: string, start: seq<string>, section: seq<string>, rest: seq<string>,
                   keys: seq<string>, w: seq<Value>)
    requires Shaped(u, header, start, section, rest) && |w| == |keys|
    ensures Load(u, header, keys, w) == LoadSection(w, section, keys)
  {
    hide LoadSection, First, Section, Remainder;
  }

  lemma LoadAll(w: seq<Value>, keys: seq<string>, v: seq<Value>)
    requires GoodKeys(keys) && |w| == |keys| && AllStorable(v) && SameKinds(w, v)
    ensures LoadSection(w, Missing({}, keys, v, |keys|), keys) == Merge(w, v, AllKeys(|keys|))
  {
    hide LoadSection, Merge, Missing;
    NothingRead(w, keys, v);
    MergeNone(w, v);
    LoadMissing(w, {}, keys, v, |keys|, []);
    assert [] + Missing({}, keys, v, |keys|) == Missing({}, keys, v, |keys|);
    assert {} + Unseen({}, |keys|) == AllKeys(|keys|);
  }

  /** All keys are in the section after an update. */
  predicate Complete(lines: seq<string>, header: string, keys: seq<string>) {
    Kept(lines, header, keys) == AllKeys(|keys|)
  }

  function Other(v: Value): Value {
    match v
    case Flag(on) => Flag(!on)
    case Letter(c) => Letter(if c == 'x' then 'y' else 'x')
    case Number(n) => Number(n + 1)
    case Words(s) => Words(s + "x")
  }

  /** Update then load gives every setting back, whatever it was before, exactly when all keys
      are kept. */
  lemma UpdateThenLoadIff(lines: seq<string>, header: string, keys: seq<string>, v: seq<Value>)
    requires GoodKeys(keys) && GoodHeader(header) && |v| == |keys| && AllStorable(v)
    ensures (forall w :: SameKinds(w, v) ==> Load(Update(lines, header, keys, v), header, keys, w) == v)
      <==> Complete(lines, header, keys)
  {
    hide Update, Load, Kept;
    var u, kept := Update(lines, header, keys, v), Kept(lines, header, keys);
    forall w | SameKinds(w, v) ensures Load(u, header, keys, w) == Merge(w, v, kept) {
      LoadUpdated(lines, header, keys, v, w);
    }
    KeptRange(lines, header, keys);
    if Complete(lines, header, keys) {
      forall w | SameKinds(w, v) ensures Merge(w, v, kept) == v {}
    } else {
      var k: nat :| k < |keys| && k !in kept;
      var w := v[k := Other(v[k])];
      assert SameKinds(w, v) && Merge(w, v, kept)[k] != v[k];
    }
  }

  /** A file that has two lines for one key and none for the other: the other is not kept. */
  const TWICE := ["[S]", "a = 1", "a = 2"]

  lemma TwiceItem(n: string)
    requires n == "1" || n == "2"
    ensures Trim("a = " + n) == "a = " + n && ItemOf("a = " + n, ["a", "b"]) == Key(0, Some(" " + n))
  {
    var t := "a = " + n;
    TrimWorks(t);
    assert t[1..] == " = " + n && t[2..] == "= " + n && t[3..] == " " + n;
    TrimWorks("a");
    TrimAppend("a");
    BeforeKey("a ", "= " + n);
    assert t == "a " + ("= " + n) && t[..2] == "a" + " ";
    assert Tokenized(t) == Some(Split("a ", Some(" " + n)));
  }

  lemma KeysGood()
    ensures GoodKeys(["a", "b"]) && GoodHeader("[S]")
  {
  }

  lemma TwiceSection()
    ensures First(TWICE, "[S]") == 0 && Section(TWICE[1..]) == ["a = 1", "a = 2"]
  {
    TwiceItem("1");
    TwiceItem("2");
    TrimWorks("[S]");
    hide Trim;
    var s := TWICE[1..];
    assert s[1..] == ["a = 2"] && s[1..][1..] == [];
    assert First(s, "[") == 2;
  }

  lemma TwiceKept()
    ensures Kept(TWICE, "[S]", ["a", "b"]) == {0}
  {
    hide Trim, ItemOf, First, Section;
    var lines, keys := ["a = 1", "a = 2"], ["a", "b"];
    TwiceSection();
    TwiceItem("1");
    TwiceItem("2");
    assert "a = " + "1" == "a = 1" && "a = " + "2" == "a = 2";
    assert lines[..1] == ["a = 1"] && lines[..1][..0] == [];
    assert Saw([], keys) == {} && Count([], keys) == 0;
    assert Saw(lines[..1], keys) == {0} && Count(lines[..1], keys) == 1;
    assert Saw(lines, keys) == {0} && Count(lines, keys) == 2;
  }

  /** Saving b after loading such a file loses it. */
  lemma KeyLost(old_: int, new_: int)
    requires old_ != new_
    ensures !Complete(TWICE, "[S]", ["a", "b"])
    ensures var was, v := [Number(0), Number(old_)], [Number(0), Number(new_)];
      Load(Update(TWICE, "[S]", ["a", "b"], v), "[S]", ["a", "b"], was)[1] == Number(old_) != v[1]
  {
    var was, v := [Number(0), Number(old_)], [Number(0), Number(new_)];
    hide Update, Load, Kept, TWICE, IsTrimmed, TokenLine;
    TwiceKept();
    KeysGood();
    assert 1 in AllKeys(2);
    LoadUpdated(TWICE, "[S]", ["a", "b"], v, was);
  }

  lemma KeptRange(lines: seq<string>, header: string, keys: seq<string>)
    ensures forall k :: k in Kept(lines, header, keys) ==> k < |keys|
  {
    hide Saw, Count, Section, Remainder, First;
    var h := First(lines, header);
    if h < |lines| { SawRange(Section(lines[h + 1..]), keys); }
  }

  /** No key is in two lines. */
  predicate OncePerKey(lines: seq<string>, keys: seq<string>) {
    |Saw(lines, keys)| == Count(lines, keys)
  }

  /** A section in which no key is in two lines keeps all keys. */
  lemma OnceIsComplete(lines: seq<string>, header: string, keys: seq<string>)
    requires var h := First(lines, header); h < |lines| ==> OncePerKey(Section(lines[h + 1..]), keys)
    ensures Complete(lines, header, keys)
  {
    hide Saw, Count, Section, Remainder, First;
    var h := First(lines, header);
    if h < |lines| {
      var saw := Saw(Section(lines[h + 1..]), keys);
      SawRange(Section(lines[h + 1..]), keys);
      if Count(Section(lines[h + 1..]), keys) == |keys| {
        SubsetFull(saw, AllKeys(|keys|));
      }
    }
  }

  lemma SubsetFull(a: set<nat>, b: set<nat>)
    requires a <= b && |a| == |b|
    ensures a == b
  {
    assert |b - a| == |b| - |a|;
  }
}
