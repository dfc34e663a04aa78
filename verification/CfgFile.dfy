/** Loading and updating one section of a settings file, as functions of its lines. */
module CfgFile {
  import opened Text
  import opened CfgText

  /** What a line of a section is: a comment, the text for key k, or nothing of interest. */
  datatype Item = Comment(line: string) | Key(k: nat, text: Option<string>) | Skip

  function FindKey(keys: seq<string>, token: string): (k: nat)
    ensures k <= |keys| && (k < |keys| ==> keys[k] == token)
  {
    if keys == [] || keys[0] == token then 0 else 1 + FindKey(keys[1..], token)
  }

  function ItemOf(line: string, keys: seq<string>): (i: Item)
    ensures i.Key? ==> i.k < |keys|
  {
    var t := Trim(line);
    if t != "" && t[0] == '#' then Comment(t)
    else
      var split := Tokenized(t);
      if split.None? then Skip
      else
        var k := FindKey(keys, Trim(split.value.token));
        if k < |keys| then Key(k, split.value.rest) else Skip
  }

  /** The first line that starts with the given text, white space aside. */
  function First(lines: seq<string>, head: string): (i: nat)
    ensures i <= |lines| && (i < |lines| ==> head <= Trim(lines[i]))
  {
    if lines == [] || head <= Trim(lines[0]) then 0 else 1 + First(lines[1..], head)
  }

  /** The lines up to the next section. */
  function Section(lines: seq<string>): seq<string> {
    lines[..First(lines, "[")]
  }

  /** The next section and all that follows. */
  function Remainder(lines: seq<string>): seq<string> {
    lines[First(lines, "[")..]
  }

  function Trimmed(lines: seq<string>): (t: seq<string>)
    ensures |t| == |lines| && forall i :: 0 <= i < |t| ==> t[i] == Trim(lines[i])
  {
    seq(|lines|, i requires 0 <= i < |lines| => Trim(lines[i]))
  }

  // ----- loading -----

  function LoadLine(values: seq<Value>, line: string, keys: seq<string>): (r: seq<Value>)
    requires |values| == |keys|
    ensures |r| == |keys|
  {
    var item := ItemOf(line, keys);
    if item.Key? then
      var v := Parsed(values[item.k], item.text);
      if v.Some? then values[item.k := v.value] else values
    else values
  }

  function LoadSection(values: seq<Value>, lines: seq<string>, keys: seq<string>): (r: seq<Value>)
    requires |values| == |keys|
    ensures |r| == |keys|
  {
    if lines == [] then values
    else LoadLine(LoadSection(values, lines[..|lines| - 1], keys), lines[|lines| - 1], keys)
  }

  function Load(lines: seq<string>, header: string, keys: seq<string>, values: seq<Value>): seq<Value>
    requires |values| == |keys|
  {
    var h := First(lines, header);
    if h == |lines| then values else LoadSection(values, Section(lines[h + 1..]), keys)
  }

  // ----- updating -----

  function Emit(line: string, keys: seq<string>, values: seq<Value>): seq<string>
    requires |values| == |keys|
  {
    match ItemOf(line, keys)
    case Comment(t) => [t]
    case Key(k, _) => [TokenLine(keys[k], values[k])]
    case Skip => []
  }

  /** What becomes of the lines of the section. */
  function Body(lines: seq<string>, keys: seq<string>, values: seq<Value>): seq<string>
    requires |values| == |keys|
  {
    if lines == [] then [] else Body(lines[..|lines| - 1], keys, values) + Emit(lines[|lines| - 1], keys, values)
  }

  /** How many lines have one of the keys, and which keys. */
  function Count(lines: seq<string>, keys: seq<string>): nat {
    if lines == [] then 0 else Count(lines[..|lines| - 1], keys) + if ItemOf(lines[|lines| - 1], keys).Key? then 1 else 0
  }

  function Saw(lines: seq<string>, keys: seq<string>): set<nat> {
    if lines == [] then {}
    else
      var item := ItemOf(lines[|lines| - 1], keys);
      Saw(lines[..|lines| - 1], keys) + if item.Key? then {item.k} else {}
  }

  /** Lines for the first n keys that were not seen. */
  function Missing(saw: set<nat>, keys: seq<string>, values: seq<Value>, n: nat): seq<string>
    requires |values| == |keys| && n <= |keys|
  {
    if n == 0 then []
    else Missing(saw, keys, values, n - 1) + if n - 1 in saw then [] else [TokenLine(keys[n - 1], values[n - 1])]
  }

  /** The section, rewritten. Keys not seen are added unless as many lines were rewritten as there
      are keys. */
  function NewSection(section: seq<string>, keys: seq<string>, values: seq<Value>): seq<string>
    requires |values| == |keys|
  {
    Body(section, keys, values)
    + if Count(section, keys) != |keys| then Missing(Saw(section, keys), keys, values, |keys|) else []
  }

  /** What follows the section: an empty line, and the rest. */
  function Following(rest: seq<string>): seq<string> {
    if rest == [] then [] else [""] + Trimmed(rest)
  }

  /** A section with all keys, at the end of the file. */
  function Appended(header: string, keys: seq<string>, values: seq<Value>): seq<string>
    requires |values| == |keys|
  {
    [header] + Missing({}, keys, values, |keys|) + [""]
  }

  function Update(lines: seq<string>, header: string, keys: seq<string>, values: seq<Value>): seq<string>
    requires |values| == |keys|
  {
    var h := First(lines, header);
    if h == |lines| then Trimmed(lines) + Appended(header, keys, values)
    else
      var after := lines[h + 1..];
      Trimmed(lines[..h + 1]) + NewSection(Section(after), keys, values) + Following(Remainder(after))
  }

  // ----- what is written is read back -----

  predicate Distinct(keys: seq<string>) {
    forall i, j :: 0 <= i < j < |keys| ==> keys[i] != keys[j]
  }

  predicate GoodKeys(keys: seq<string>) {
    Distinct(keys) && forall k :: 0 <= k < |keys| ==> GoodKey(keys[k])
  }

  predicate GoodHeader(header: string) {
    header != "" && header[0] == '[' && IsTrimmed(header)
  }

  predicate AllStorable(values: seq<Value>) {
    forall k :: 0 <= k < |values| ==> Storable(values[k])
  }

  predicate SameKinds(a: seq<Value>, b: seq<Value>) {
    |a| == |b| && forall k :: 0 <= k < |a| ==> KindOf(a[k]) == KindOf(b[k])
  }

  lemma {:induction false} FindKeyOwn(keys: seq<string>, k: nat)
    requires k < |keys| && Distinct(keys)
    ensures FindKey(keys, keys[k]) == k
  {
    if k > 0 {
      assert keys[0] != keys[k] && keys[1..][k - 1] == keys[k];
      FindKeyOwn(keys[1..], k - 1);
    }
  }

  /** The line written for a key is an item of that key. */
  lemma ItemOfToken(keys: seq<string>, k: nat, v: Value)
    requires GoodKeys(keys) && k < |keys| && Storable(v)
    ensures ItemOf(TokenLine(keys[k], v), keys)
         == Key(k, if Shown(v) == "" then None else Some(" " + Shown(v)))
    ensures !("[" <= Trim(TokenLine(keys[k], v)))
  {
    hide Tokenized, Shown, Trim, TokenLine;
    TokenLineBack(keys[k], v);
    FindKeyOwn(keys, k);
  }

  lemma LoadToken(w: seq<Value>, keys: seq<string>, k: nat, v: Value)
    requires GoodKeys(keys) && k < |keys| == |w| && Storable(v) && KindOf(w[k]) == KindOf(v)
    ensures LoadLine(w, TokenLine(keys[k], v), keys) == w[k := v]
  {
    hide ItemOf, TokenLine, Shown, Parsed;
    ItemOfToken(keys, k, v);
    ParsedShown(w[k], v);
  }

  /** Values w with those of the keys in `saw` replaced by v. */
  function Merge(w: seq<Value>, v: seq<Value>, saw: set<nat>): (m: seq<Value>)
    requires |w| == |v|
    ensures |m| == |w| && forall k :: 0 <= k < |w| ==> m[k] == if k in saw then v[k] else w[k]
  {
    seq(|w|, k requires 0 <= k < |w| => if k in saw then v[k] else w[k])
  }

  lemma LoadComment(w: seq<Value>, line: string, keys: seq<string>)
    requires |w| == |keys| && ItemOf(line, keys).Comment?
    ensures LoadLine(w, Trim(line), keys) == w && !("[" <= Trim(Trim(line)))
    ensures ItemOf(Trim(line), keys) == ItemOf(line, keys)
  {
    TrimTwice(line);
  }

  lemma LoadSnoc(w: seq<Value>, lines: seq<string>, line: string, keys: seq<string>)
    requires |w| == |keys|
    ensures LoadSection(w, lines + [line], keys) == LoadLine(LoadSection(w, lines, keys), line, keys)
  {
    assert (lines + [line])[..|lines|] == lines;
  }

  lemma MergeAdd(w: seq<Value>, v: seq<Value>, saw: set<nat>, k: nat)
    requires |w| == |v| && k < |w|
    ensures Merge(w, v, saw + {k}) == Merge(w, v, saw)[k := v[k]]
  {
  }

  lemma MergeNone(w: seq<Value>, v: seq<Value>)
    requires |w| == |v|
    ensures Merge(w, v, {}) == w
  {
  }

  lemma BodySnoc(lines: seq<string>, keys: seq<string>, v: seq<Value>)
    requires lines != [] && |v| == |keys|
    ensures var before, line := lines[..|lines| - 1], lines[|lines| - 1];
      && Body(lines, keys, v) == Body(before, keys, v) + Emit(line, keys, v)
      && Saw(lines, keys) == Saw(before, keys) + if ItemOf(line, keys).Key? then {ItemOf(line, keys).k} else {}
  {
  }

  lemma NothingRead(w: seq<Value>, keys: seq<string>, v: seq<Value>)
    requires |w| == |keys| == |v|
    ensures LoadSection(w, [], keys) == w && Body([], keys, v) == [] && Saw([], keys) == {}
  {
  }

  /** One rewritten line. */
  lemma LoadEmitted(w: seq<Value>, body: seq<string>, line: string, keys: seq<string>, v: seq<Value>, saw: set<nat>)
    requires GoodKeys(keys) && |w| == |keys| && AllStorable(v) && SameKinds(w, v)
    requires LoadSection(w, body, keys) == Merge(w, v, saw)
    ensures LoadSection(w, body + Emit(line, keys, v), keys)
         == Merge(w, v, saw + if ItemOf(line, keys).Key? then {ItemOf(line, keys).k} else {})
  {
    hide ItemOf, LoadLine, TokenLine, LoadSection, Merge;
    var m := Merge(w, v, saw);
    assert saw + {} == saw;
    match ItemOf(line, keys)
    case Comment(t) =>
      CommentText(line, keys);
      LoadSnoc(w, body, t, keys);
      LoadComment(m, line, keys);
    case Key(k, text) =>
      KeyRange(line, keys);
      LoadSnoc(w, body, TokenLine(keys[k], v[k]), keys);
      MergeKinds(w, v, saw);
      LoadToken(m, keys, k, v[k]);
      MergeAdd(w, v, saw, k);
    case Skip =>
      assert body + [] == body;
  }

  lemma KeyRange(line: string, keys: seq<string>)
    requires ItemOf(line, keys).Key?
    ensures ItemOf(line, keys).k < |keys|
  {
  }

  lemma MergeKinds(w: seq<Value>, v: seq<Value>, saw: set<nat>)
    requires SameKinds(w, v)
    ensures SameKinds(Merge(w, v, saw), v)
  {
  }

  /** Loading the rewritten lines takes over exactly the keys seen. */
  lemma {:induction false} LoadBody(w: seq<Value>, lines: seq<string>, keys: seq<string>, v: seq<Value>)
    requires GoodKeys(keys) && |w| == |keys| && AllStorable(v) && SameKinds(w, v)
    ensures LoadSection(w, Body(lines, keys, v), keys) == Merge(w, v, Saw(lines, keys))
  {
    hide ItemOf, Emit, LoadSection, Merge, Body, Saw;
    if lines == [] {
      NothingRead(w, keys, v);
      MergeNone(w, v);
    } else {
      var before := lines[..|lines| - 1];
      LoadBody(w, before, keys, v);
      BodySnoc(lines, keys, v);
      LoadEmitted(w, Body(before, keys, v), lines[|lines| - 1], keys, v, Saw(before, keys));
    }
  }

  lemma CommentText(line: string, keys: seq<string>)
    requires ItemOf(line, keys).Comment?
    ensures ItemOf(line, keys).line == Trim(line)
  {
  }

  function Unseen(saw: set<nat>, n: nat): set<nat> { set k: nat | k < n && k !in saw }

  lemma MissingStep(saw: set<nat>, keys: seq<string>, v: seq<Value>, n: nat)
    requires |v| == |keys| && n <= |keys|
    ensures n == 0 ==> Missing(saw, keys, v, n) == [] && Unseen(saw, 0) == {}
    ensures n > 0 && n - 1 !in saw ==>
      Missing(saw, keys, v, n) == Missing(saw, keys, v, n - 1) + [TokenLine(keys[n - 1], v[n - 1])]
    ensures n > 0 && n - 1 in saw ==> Missing(saw, keys, v, n) == Missing(saw, keys, v, n - 1)
  {
    hide TokenLine;
    if n > 0 { assert Missing(saw, keys, v, n - 1) + [] == Missing(saw, keys, v, n - 1); }
  }

  lemma UnseenStep(saw: set<nat>, n: nat)
    requires n > 0
    ensures Unseen(saw, n) == if n - 1 in saw then Unseen(saw, n - 1) else Unseen(saw, n - 1) + {n - 1}
  {
  }

  /** Loading the added lines takes over the other keys. */
  lemma {:induction false} LoadMissing(w: seq<Value>, saw: set<nat>, keys: seq<string>, v: seq<Value>, n: nat,
                                       lines: seq<string>)
    requires GoodKeys(keys) && |w| == |keys| && AllStorable(v) && SameKinds(w, v) && n <= |keys|
    requires LoadSection(w, lines, keys) == Merge(w, v, saw)
    ensures LoadSection(w, lines + Missing(saw, keys, v, n), keys) == Merge(w, v, saw + Unseen(saw, n))
  {
    hide LoadLine, TokenLine, LoadSection, Merge, Missing, Unseen;
    MissingStep(saw, keys, v, n);
    if n == 0 {
      assert lines + [] == lines && saw + {} == saw;
    } else {
      LoadMissing(w, saw, keys, v, n - 1, lines);
      UnseenStep(saw, n);
      if n - 1 !in saw {
        var so, seen := lines + Missing(saw, keys, v, n - 1), saw + Unseen(saw, n - 1);
        assert lines + Missing(saw, keys, v, n) == so + [TokenLine(keys[n - 1], v[n - 1])];
        LoadSnoc(w, so, TokenLine(keys[n - 1], v[n - 1]), keys);
        MergeKinds(w, v, seen);
        LoadToken(Merge(w, v, seen), keys, n - 1, v[n - 1]);
        assert saw + Unseen(saw, n) == seen + {n - 1};
        MergeAdd(w, v, seen, n - 1);
      }
    }
  }
}
