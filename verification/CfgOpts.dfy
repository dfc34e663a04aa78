/** Loading and updating settings files, line by line. */
module CfgOpts {
  import opened Text
  import opened CfgText
  import opened CfgFile
  import opened CfgLaws

  /** fgets and Str_Trim: the next line, or the end of the file. */
  method ReadLine(file: seq<string>, at: nat) returns (line: Option<string>, next: nat, eof: bool)
    requires at <= |file|
    ensures if at < |file| then line == Some(Trim(file[at])) && next == at + 1 && !eof
            else line == None && next == at && eof
  {
    if at < |file| {
      line, next, eof := Some(Trim(file[at])), at + 1, false;
    } else {
      line, next, eof := None, at, true;
    }
  }

  /** Lines that set a key, with a text where the type needs one. */
  function LoadCount(values: seq<Value>, lines: seq<string>, keys: seq<string>): nat
    requires |values| == |keys|
  {
    if lines == [] then 0
    else
      var before, item := lines[..|lines| - 1], ItemOf(lines[|lines| - 1], keys);
      LoadCount(values, before, keys)
      + if item.Key? && Parsed(LoadSection(values, before, keys)[item.k], item.text).Some? then 1 else 0
  }

  /** Line i of the lines from `start` on is the next of them to be taken. */
  lemma NextLine(file: seq<string>, start: nat, i: nat)
    requires start <= i < |file|
    ensures file[start..i + 1] == file[start..i] + [file[i]]
    ensures var after := file[start..];
      First(after, "[") >= i - start ==> (First(after, "[") == i - start <==> "[" <= Trim(file[i]))
  {
    hide Trim;
    var after := file[start..];
    FirstAppend(file[start..i], file[i..], "[");
    assert after == file[start..i] + file[i..];
    FirstShort(file[start..i], "[");
  }

  lemma FirstShort(lines: seq<string>, head: string)
    ensures First(lines, head) <= |lines|
  {
  }

  lemma LoadLineSnoc(w: seq<Value>, lines: seq<string>, line: string, keys: seq<string>)
    requires |w| == |keys|
    ensures LoadSection(w, lines + [line], keys) == LoadLine(LoadSection(w, lines, keys), line, keys)
    ensures var item := ItemOf(line, keys);
      LoadCount(w, lines + [line], keys) == LoadCount(w, lines, keys)
        + if item.Key? && Parsed(LoadSection(w, lines, keys)[item.k], item.text).Some? then 1 else 0
  {
    assert (lines + [line])[..|lines|] == lines;
  }

  /** A key is found at most once. */
  lemma FoundOnce(keys: seq<string>, token: string, k: nat)
    requires Distinct(keys) && k < |keys|
    ensures keys[k] == token <==> FindKey(keys, token) == k
  {
    if keys[k] == token { FindKeyOwn(keys, k); }
  }

  /** One line that is neither a comment nor a header: every key is compared with its token. */
  method ApplyLine(line: string, keys: seq<string>, values: array<Value>, ghost raw: string) returns (applied: nat)
    requires values.Length == |keys| && Distinct(keys) && line == Trim(raw) && !("#" <= line)
    modifies values
    ensures values[..] == LoadLine(old(values[..]), raw, keys)
    ensures var item := ItemOf(raw, keys);
      applied == if item.Key? && Parsed(old(values[..])[item.k], item.text).Some? then 1 else 0
  {
    hide Trim, Tokenized, FindKey, Parsed;
    applied := 0;
    var split := Tokenized(line);
    if split.None? { return; }
    var token := Trim(split.value.token);
    ghost var was, hit := values[..], FindKey(keys, token);
    for k := 0 to |keys|
      invariant if hit < k then
          values[..] == LoadLine(was, raw, keys) && applied == (if Parsed(was[hit], split.value.rest).Some? then 1 else 0)
        else values[..] == was && applied == 0
    {
      FoundOnce(keys, token, k);
      if token == keys[k] {
        var v := Parsed(values[k], split.value.rest);
        if v.Some? {
          values[k] := v.value;
          applied := applied + 1;
        }
      }
    }
  }

  lemma FirstFrom(file: seq<string>, head: string, i: nat)
    requires i < |file| && First(file, head) >= i
    ensures First(file, head) == i <==> head <= Trim(file[i])
  {
    hide Trim;
    assert file == file[..i] + file[i..];
    FirstAppend(file[..i], file[i..], head);
  }

  /** Read up to and with the first line that starts with the header. */
  method FindHeader(file: seq<string>, header: string) returns (at: nat, eof: bool)
    ensures eof <==> First(file, header) == |file|
    ensures !eof ==> at == First(file, header) + 1
  {
    hide Trim, First;
    at, eof := 0, false;
    var line := None;
    while true
      invariant at <= |file| && First(file, header) >= at
      decreases |file| - at
    {
      line, at, eof := ReadLine(file, at);
      if line.None? { break; }
      FirstFrom(file, header, at - 1);
      if header <= line.value { break; }
    }
  }

  /** Load a section: the values of its keys, and how many were read. */
  method InputConfig(file: seq<string>, keys: seq<string>, values: array<Value>, header: string) returns (count: nat)
    requires values.Length == |keys| && Distinct(keys)
    modifies values
    ensures values[..] == Load(file, header, keys, old(values[..]))
    ensures var h := First(file, header);
      count == if h == |file| then 0 else LoadCount(old(values[..]), Section(file[h + 1..]), keys)
  {
    hide Trim, First, LoadSection, LoadLine, LoadCount, ItemOf;
    ghost var was := values[..];
    count := 0;
    var at, eof := FindHeader(file, header);
    if eof { return; }
    ghost var start, after := at, file[at..];
    LoadNothing(was, keys, file, start);
    var line: Option<string> := None;
    while true
      invariant start <= at <= |file| && First(after, "[") >= at - start
      invariant values[..] == LoadSection(was, file[start..at], keys)
      invariant count == LoadCount(was, file[start..at], keys)
      decreases |file| - at
    {
      line, at, eof := ReadLine(file, at);
      if line.None? { break; }
      NextLine(file, start, at - 1);
      if "[" <= line.value {
        at := at - 1;
        break;
      }
      LoadLineSnoc(was, file[start..at - 1], file[at - 1], keys);
      if "#" <= line.value {
        CommentSkipped(values[..], file[at - 1], keys);
        continue;
      }
      var applied := ApplyLine(line.value, keys, values, file[at - 1]);
      count := count + applied;
    }
    SectionIs(file, start, at);
  }

  lemma LoadNothing(w: seq<Value>, keys: seq<string>, file: seq<string>, start: nat)
    requires |w| == |keys| && start <= |file|
    ensures LoadSection(w, file[start..start], keys) == w && LoadCount(w, file[start..start], keys) == 0
  {
    assert file[start..start] == [];
  }

  lemma CommentSkipped(w: seq<Value>, line: string, keys: seq<string>)
    requires |w| == |keys| && "#" <= Trim(line)
    ensures ItemOf(line, keys) == Comment(Trim(line)) && LoadLine(w, line, keys) == w
  {
  }

  lemma SectionIs(file: seq<string>, start: nat, at: nat)
    requires start <= at <= |file| && First(file[start..], "[") == at - start
    ensures Section(file[start..]) == file[start..at] && Remainder(file[start..]) == file[at..]
  {
    hide First;
  }

  // ----- updating -----

  /** A section with all keys, and an empty line. */
  method WriteHeaderTokens(out: seq<string>, keys: seq<string>, values: seq<Value>, header: string)
    returns (more: seq<string>, count: nat)
    requires |values| == |keys|
    ensures more == out + Appended(header, keys, values) && count == |keys|
  {
    more, count := out + [header], 0;
    for k := 0 to |keys|
      invariant more == out + [header] + Missing({}, keys, values, k) && count == k
    {
      more := more + [TokenLine(keys[k], values[k])];
      count := count + 1;
    }
    more := more + [""];
  }

  /** The flags of the keys seen. */
  ghost predicate Flagged(flags: seq<bool>, saw: set<nat>) {
    forall k: nat :: k < |flags| ==> flags[k] == (k in saw)
  }

  /** One line of the section: a line for its key takes its place. */
  method RewriteLine(line: string, keys: seq<string>, values: seq<Value>, flags: array<bool>,
                     ghost raw: string, ghost saw: set<nat>)
    returns (out: seq<string>, count: nat)
    requires |values| == |keys| == flags.Length && Distinct(keys) && line == Trim(raw) && !("#" <= line)
    requires Flagged(flags[..], saw)
    modifies flags
    ensures out == Emit(raw, keys, values) && count == |out|
    ensures count == if ItemOf(raw, keys).Key? then 1 else 0
    ensures Flagged(flags[..], saw + if ItemOf(raw, keys).Key? then {ItemOf(raw, keys).k} else {})
  {
    hide Trim, Tokenized, FindKey, TokenLine;
    out, count := [], 0;
    var split := Tokenized(line);
    if split.None? { return; }
    var token := Trim(split.value.token);
    ghost var hit := FindKey(keys, token);
    for k := 0 to |keys|
      invariant count == |out| && out == if hit < k then [TokenLine(keys[hit], values[hit])] else []
      invariant Flagged(flags[..], saw + if hit < k then {hit} else {})
    {
      FoundOnce(keys, token, k);
      if token == keys[k] {
        out := out + [TokenLine(keys[k], values[k])];
        flags[k] := true;
        count := count + 1;
      }
    }
  }

  /** Lines for the keys not seen. */
  method WriteMissing(out: seq<string>, keys: seq<string>, values: seq<Value>, flags: array<bool>, ghost saw: set<nat>)
    returns (more: seq<string>, count: nat)
    requires |values| == |keys| == flags.Length && Flagged(flags[..], saw)
    ensures more == out + Missing(saw, keys, values, |keys|) && count == |Missing(saw, keys, values, |keys|)|
  {
    more, count := out, 0;
    for k := 0 to |keys|
      invariant more == out + Missing(saw, keys, values, k) && count == |Missing(saw, keys, values, k)|
    {
      assert flags[k] == flags[..][k];
      if !flags[k] {
        more := more + [TokenLine(keys[k], values[k])];
        count := count + 1;
      }
    }
  }

  /** Copy the rest of the file. */
  method CopyRest(file: seq<string>, at: nat, out: seq<string>) returns (more: seq<string>)
    requires at <= |file|
    ensures more == out + Trimmed(file[at..])
  {
    hide Trim;
    more := out;
    var i := at;
    while i < |file|
      invariant at <= i <= |file| && more == out + Trimmed(file[at..i])
    {
      var line, eof;
      line, i, eof := ReadLine(file, i);
      more := more + [line.value];
    }
    assert file[at..i] == file[at..];
  }

  /** How many lines an update writes for keys. */
  function Rewritten(section: seq<string>, keys: seq<string>, values: seq<Value>): nat
    requires |values| == |keys|
  {
    Count(section, keys)
    + if Count(section, keys) != |keys| then |Missing(Saw(section, keys), keys, values, |keys|)| else 0
  }

  /** Rewrite a section of the file, or add it at the end. */
  method UpdateConfig(file: seq<string>, keys: seq<string>, values: seq<Value>, header: string)
    returns (out: seq<string>, count: nat)
    requires |values| == |keys| && Distinct(keys)
    ensures out == Update(file, header, keys, values)
    ensures var h := First(file, header);
      count == if h == |file| then |keys| else Rewritten(Section(file[h + 1..]), keys, values)
  {
    hide Trim, First, Trimmed, Missing, Section, Remainder, NewSection, Following, Update, Rewritten;
    UpdateIs(file, header, keys, values);
    var at, eof := FindHeader(file, header);
    if eof {
      out := CopyRest(file, 0, []);
      assert file[0..] == file;
      out, count := WriteHeaderTokens(out, keys, values, header);
      AppendedIs(Trimmed(file), header, keys, values);
    } else {
      out, count := UpdateFrom(file, at, keys, values);
    }
  }

  /** Copy what is before `at`, rewrite the section there, and copy the rest. */
  method UpdateFrom(file: seq<string>, at: nat, keys: seq<string>, values: seq<Value>)
    returns (out: seq<string>, count: nat)
    requires |values| == |keys| && Distinct(keys) && at <= |file|
    ensures var after := file[at..];
      out == Trimmed(file[..at]) + NewSection(Section(after), keys, values) + Following(Remainder(after))
    ensures count == Rewritten(Section(file[at..]), keys, values)
  {
    hide Trim, First, Trimmed, Section, Remainder, NewSection, Following, Rewritten;
    out := CopyRest(file[..at], 0, []);
    assert file[..at][0..] == file[..at] && [] + Trimmed(file[..at]) == Trimmed(file[..at]);
    var end;
    out, count, end := UpdateSection(file, at, keys, values, out);
    FollowingIs(file[end..]);
    ghost var so := out;
    if end < |file| {
      out := out + [""];
    }
    out := CopyRest(file, end, out);
    assert out == so + ((if file[end..] == [] then [] else [""]) + Trimmed(file[end..]));
  }

  /** Rewrite the section that starts at a line, and find its end. */
  method UpdateSection(file: seq<string>, start: nat, keys: seq<string>, values: seq<Value>, before: seq<string>)
    returns (out: seq<string>, count: nat, at: nat)
    requires |values| == |keys| && Distinct(keys) && start <= |file|
    ensures at <= |file| && file[at..] == Remainder(file[start..])
    ensures out == before + NewSection(Section(file[start..]), keys, values)
    ensures count == Rewritten(Section(file[start..]), keys, values)
  {
    hide Trim, First, Missing, Emit, ItemOf, Body, Count, Saw, Section, Remainder;
    var flags := new bool[|keys|](k => false);
    out, count, at := before, 0, start;
    ghost var after := file[start..];
    RewriteNothing(file, start, keys, values);
    assert before + [] == before;
    while true
      invariant start <= at <= |file| && First(after, "[") >= at - start
      invariant out == before + Body(file[start..at], keys, values) && count == Count(file[start..at], keys)
      invariant Flagged(flags[..], Saw(file[start..at], keys))
      decreases |file| - at
    {
      var line, next, eof := ReadLine(file, at);
      if line.None? { break; }
      NextLine(file, start, at);
      if "[" <= line.value { break; }
      RewriteSnoc(file[start..at], file[at], keys, values);
      if "#" <= line.value {
        CommentKept(file[at], keys, values);
        out := out + [line.value];
      } else {
        ghost var saw := Saw(file[start..at], keys);
        var more, n := RewriteLine(line.value, keys, values, flags, file[at], saw);
        out := out + more;
        count := count + n;
      }
      at := next;
    }
    SectionIs(file, start, at);
    if count != |keys| {
      ghost var saw := Saw(file[start..at], keys);
      var n;
      out, n := WriteMissing(out, keys, values, flags, saw);
      count := count + n;
    }
  }

  lemma RewriteNothing(file: seq<string>, start: nat, keys: seq<string>, v: seq<Value>)
    requires |v| == |keys| && start <= |file|
    ensures Body(file[start..start], keys, v) == [] && Count(file[start..start], keys) == 0
    ensures Saw(file[start..start], keys) == {}
  {
    assert file[start..start] == [];
  }

  lemma RewriteSnoc(lines: seq<string>, line: string, keys: seq<string>, v: seq<Value>)
    requires |v| == |keys|
    ensures var item := ItemOf(line, keys);
      && Body(lines + [line], keys, v) == Body(lines, keys, v) + Emit(line, keys, v)
      && Count(lines + [line], keys) == Count(lines, keys) + (if item.Key? then 1 else 0)
      && Saw(lines + [line], keys) == Saw(lines, keys) + if item.Key? then {item.k} else {}
  {
    hide Emit, ItemOf;
    assert (lines + [line])[..|lines|] == lines;
  }

  lemma CommentKept(line: string, keys: seq<string>, v: seq<Value>)
    requires |v| == |keys| && "#" <= Trim(line)
    ensures Emit(line, keys, v) == [Trim(line)] && !ItemOf(line, keys).Key?
  {
  }
}
