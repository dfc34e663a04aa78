/** Settings files: lines `key = value` in sections, how values are written and read back. */
module CfgText {
  import Arith
  import opened Text

  datatype Option<T> = None | Some(value: T)

  /** A setting and its type. A short, an int and a long are all numbers. */
  datatype Value = Flag(on: bool) | Letter(c: char) | Number(n: int) | Words(s: string)

  // ----- numbers -----

  function Digit(d: nat): char
    requires d < 10
  {
    (48 + d) as char
  }

  function Decimal(n: nat): (s: string)
    ensures s != ""
  {
    if n < 10 then [Digit(n)] else Decimal(n / 10) + [Digit(n % 10)]
  }

  function Printed(n: int): string { if n < 0 then "-" + Decimal(-n) else Decimal(n) }

  predicate IsDigit(c: char) { 48 <= c as int <= 57 }

  /** Digits at the start of s, in front of which `n` was read. */
  function Digits(n: nat, s: string): nat
    decreases |s|
  {
    if s != "" && IsDigit(s[0]) then Digits(10 * n + (s[0] as int - 48), s[1..]) else n
  }

  /** sscanf with %d: white space, a sign, and at least one digit. */
  function Scanned(s: string): Option<int> {
    if s != "" && IsSpace(s[0]) then Scanned(s[1..])
    else
      var signed := s != "" && (s[0] == '-' || s[0] == '+');
      var rest := if signed then s[1..] else s;
      if rest == "" || !IsDigit(rest[0]) then None
      else
        var n: int := Digits(0, rest);
        Some(if s[0] == '-' then -n else n)
  }

  predicate AllDigits(s: string) { forall i :: 0 <= i < |s| ==> IsDigit(s[i]) }

  lemma {:induction false} DigitsAppend(n: nat, s: string, c: char)
    requires AllDigits(s) && IsDigit(c)
    ensures Digits(n, s + [c]) == 10 * Digits(n, s) + (c as int - 48)
    decreases |s|
  {
    if s == "" {
      assert (s + [c])[1..] == "" && Digits(10 * n + (c as int - 48), "") == 10 * n + (c as int - 48);
    } else {
      assert (s + [c])[1..] == s[1..] + [c];
      DigitsAppend(10 * n + (s[0] as int - 48), s[1..], c);
    }
  }

  lemma {:induction false} DigitsOfDecimal(n: nat)
    ensures AllDigits(Decimal(n)) && Digits(0, Decimal(n)) == n
  {
    if n >= 10 {
      DigitsOfDecimal(n / 10);
      DigitsAppend(0, Decimal(n / 10), Digit(n % 10));
    } else {
      assert [Digit(n)][1..] == "" && Digits(n, "") == n;
    }
  }

  lemma {:induction false} NoLeadingZero(n: nat)
    ensures IsDigit(Decimal(n)[0]) && (Decimal(n)[0] == '0' <==> n == 0)
  {
    if n >= 10 { NoLeadingZero(n / 10); }
  }

  /** A number is printed with a minus exactly if it is negative, and without leading zeros. */
  lemma PrintedForm(n: int)
    ensures Printed(n)[0] == '-' <==> n < 0
    ensures Printed(n)[if n < 0 then 1 else 0] == '0' <==> n == 0
  {
    NoLeadingZero(if n < 0 then -n else n);
  }

  /** A printed number scans as itself. */
  lemma ScannedPrinted(n: int)
    ensures Scanned(Printed(n)) == Some(n)
  {
    if n < 0 {
      DigitsOfDecimal(-n);
      assert Printed(n)[1..] == Decimal(-n);
    } else {
      DigitsOfDecimal(n);
      assert IsDigit(Decimal(n)[0]);
    }
  }

  // ----- tokens -----

  /** strtok with "=": the first token, and what strtok gives for the rest. */
  datatype Split = Split(token: string, rest: Option<string>)

  function Before(s: string): (k: nat)
    ensures k <= |s| && (k < |s| ==> s[k] == '=') && forall i :: 0 <= i < k ==> s[i] != '='
  {
    if s == "" || s[0] == '=' then 0 else 1 + Before(s[1..])
  }

  function Tokenized(s: string): Option<Split> {
    if s == "" then None
    else if s[0] == '=' then Tokenized(s[1..])
    else
      var k := Before(s);
      Some(Split(s[..k], if k + 1 >= |s| then None else Some(s[k + 1..])))
  }

  function Lower(c: char): char {
    if 65 <= c as int <= 90 then (c as int + 32) as char else c
  }

  predicate SameLetters(a: string, b: string) {
    |a| == |b| && forall i :: 0 <= i < |a| ==> Lower(a[i]) == Lower(b[i])
  }

  function Shown(v: Value): string {
    match v
    case Flag(on) => if on then "TRUE" else "FALSE"
    case Letter(c) => [c]
    case Number(n) => Printed(n)
    case Words(s) => s
  }

  /** The new value of a setting from the text after the `=`; None if there must be a text. */
  function Parsed(was: Value, text: Option<string>): Option<Value> {
    match was
    case Words(_) => Some(Words(if text.None? then "" else Trim(text.value)))
    case Flag(_) =>
      if text.None? then None
      else if SameLetters(Trim(text.value), "FALSE") then Some(Flag(false))
      else if SameLetters(Trim(text.value), "TRUE") then Some(Flag(true))
      else Some(was)
    case Letter(_) =>
      if text.None? then None
      else var s := Trim(text.value); Some(if s == "" then was else Letter(s[0]))
    case Number(_) =>
      if text.None? then None
      else var n := Scanned(Trim(text.value)); Some(if n.Some? then Number(n.value) else was)
  }

  function KindOf(v: Value): nat {
    match v
    case Flag(_) => 0
    case Number(_) => 1
    case Words(_) => 2
    case Letter(_) => 3
  }

  /** Settings that a file can hold: trimmed single-line text, and characters that are not white space. */
  predicate Storable(v: Value) {
    && (v.Words? ==> IsTrimmed(v.s) && '\n' !in v.s)
    && (v.Letter? ==> !IsSpace(v.c))
  }

  /** Keys that a line can start with. */
  predicate GoodKey(key: string) {
    key != "" && IsTrimmed(key) && '=' !in key && '\n' !in key && key[0] != '#' && key[0] != '['
  }

  function TokenLine(key: string, v: Value): string { key + " = " + Shown(v) }

  lemma ShownTrimmed(v: Value)
    requires Storable(v)
    ensures IsTrimmed(Shown(v)) && (!v.Words? ==> Shown(v) != "")
  {
    if v.Number? {
      DigitsOfDecimal(if v.n < 0 then -v.n else v.n);
    }
  }

  /** The text written for a value parses to the value, whatever was there before. */
  lemma ParsedShown(was: Value, v: Value)
    requires Storable(v) && KindOf(was) == KindOf(v)
    ensures Parsed(was, if Shown(v) == "" then None else Some(" " + Shown(v))) == Some(v)
  {
    hide Scanned, Printed;
    ShownTrimmed(v);
    if Shown(v) != "" {
      TrimAppend(Shown(v));
      if v.Number? { ScannedPrinted(v.n); }
      if v.Flag? && v.on { assert Lower("TRUE"[0]) != Lower("FALSE"[0]); }
    }
  }

  /** t is the word, each letter large or small. */
  predicate Spells(t: string, small: string, large: string)
    requires |small| == |large|
  {
    |t| == |small| && forall i :: 0 <= i < |t| ==> t[i] == small[i] || t[i] == large[i]
  }

  lemma SpellsLetters(t: string, large: string, small: string)
    requires |small| == |large|
    requires forall i :: 0 <= i < |large| ==> 'A' <= large[i] <= 'Z' && small[i] as int == large[i] as int + 32
    ensures SameLetters(t, large) <==> Spells(t, small, large)
  {
    if SameLetters(t, large) {
      forall i | 0 <= i < |t| ensures t[i] == small[i] || t[i] == large[i] { LowerIs(t[i], large[i]); }
    }
    if Spells(t, small, large) {
      forall i | 0 <= i < |t| ensures Lower(t[i]) == Lower(large[i]) { LowerIs(t[i], large[i]); }
    }
  }

  lemma LowerIs(c: char, large: char)
    requires 'A' <= large <= 'Z'
    ensures Lower(c) == Lower(large) <==> c == large || c as int == large as int + 32
  {
  }

  /** A flag is read from TRUE and FALSE in large and small letters, mixed as one likes, and from
      nothing else. */
  lemma FlagRead(was: bool, text: string)
    ensures var t := Trim(text);
      Parsed(Flag(was), Some(text)) == Some(Flag(
        if Spells(t, "false", "FALSE") then false else if Spells(t, "true", "TRUE") then true else was))
  {
    hide Trim, SameLetters, Spells;
    SpellsLetters(Trim(text), "FALSE", "false");
    SpellsLetters(Trim(text), "TRUE", "true");
  }

  lemma {:induction false} BeforeKey(key: string, tail: string)
    requires '=' !in key && tail != "" && tail[0] == '='
    ensures Before(key + tail) == |key|
  {
    if key == "" {
      assert key + tail == tail;
    } else {
      assert (key + tail)[1..] == key[1..] + tail;
      BeforeKey(key[1..], tail);
    }
  }

  /** What a written line is when its white space at the end is gone. */
  function Written(key: string, v: Value): string {
    key + " " + (if Shown(v) == "" then "=" else "= " + Shown(v))
  }

  lemma TrimmedLine(key: string, v: Value)
    requires GoodKey(key) && Storable(v)
    ensures Trim(TokenLine(key, v)) == Written(key, v) && IsTrimmed(Written(key, v))
    ensures Written(key, v) != "" && Written(key, v)[0] == key[0]
  {
    ShownTrimmed(v);
    var line := Written(key, v);
    assert line[|line| - 1] == if Shown(v) == "" then '=' else Shown(v)[|Shown(v)| - 1];
    if Shown(v) == "" {
      assert TokenLine(key, v) == line + " ";
      TrimAppend(line);
    } else {
      assert TokenLine(key, v) == line;
      TrimWorks(line);
    }
  }

  lemma TokenizedAt(a: string, tail: string)
    requires a != "" && '=' !in a && tail != "" && tail[0] == '='
    ensures Tokenized(a + tail) == Some(Split(a, if |tail| == 1 then None else Some(tail[1..])))
  {
    var line := a + tail;
    BeforeKey(a, tail);
    assert line[..|a|] == a && line[|a| + 1..] == tail[1..];
    assert line[0] == a[0] && a[0] in a;
  }

  /** A written line, trimmed, is cut into its key and its value. */
  lemma TokenLineBack(key: string, v: Value)
    requires GoodKey(key) && Storable(v)
    ensures var line := Trim(TokenLine(key, v));
      && line != "" && line[0] != '#' && line[0] != '['
      && Tokenized(line) == Some(Split(key + " ", if Shown(v) == "" then None else Some(" " + Shown(v))))
    ensures Trim(key + " ") == key
  {
    hide Shown, Tokenized, IsTrimmed, Trim;
    TrimmedLine(key, v);
    var tail := if Shown(v) == "" then "=" else "= " + Shown(v);
    TokenizedAt(key + " ", tail);
    assert tail[1..] == if Shown(v) == "" then "" else " " + Shown(v);
    TrimAppend(key);
  }
}
