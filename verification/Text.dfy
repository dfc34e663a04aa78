/** C strings in buffers, white space, and trimming. */
module Text {

  const NUL := '\0'

  /** The buffer holds text s, ended by a NUL. */
  predicate Holds(buffer: seq<char>, s: string) {
    |s| < |buffer| && buffer[..|s|] == s && buffer[|s|] == NUL && NUL !in s
  }

  predicate IsSpace(c: char) {
    c as int == 32 || 9 <= c as int <= 13
  }

  lemma SpaceIsSpace()
    ensures IsSpace(' ') && !IsSpace('\\')
  {
  }

  function TrimEnd(s: string): string {
    if s != "" && IsSpace(s[|s| - 1]) then TrimEnd(s[..|s| - 1]) else s
  }

  /** Str_Trim: no white space at either end. */
  function Trim(s: string): string {
    if s != "" && IsSpace(s[0]) then Trim(s[1..]) else TrimEnd(s)
  }

  predicate IsTrimmed(s: string) {
    s == "" || (!IsSpace(s[0]) && !IsSpace(s[|s| - 1]))
  }

  lemma {:induction false} TrimEndWorks(s: string)
    ensures TrimEnd(s) <= s && (TrimEnd(s) != "" ==> !IsSpace(TrimEnd(s)[|TrimEnd(s)| - 1]))
  {
    if s != "" && IsSpace(s[|s| - 1]) {
      TrimEndWorks(s[..|s| - 1]);
    }
  }

  lemma {:induction false} TrimWorks(s: string)
    ensures IsTrimmed(Trim(s)) && (IsTrimmed(s) ==> Trim(s) == s)
  {
    if s != "" && IsSpace(s[0]) {
      TrimWorks(s[1..]);
    } else {
      TrimEndWorks(s);
      if TrimEnd(s) != "" { assert TrimEnd(s)[0] == s[0]; }
    }
  }

  lemma TrimTwice(s: string)
    ensures Trim(Trim(s)) == Trim(s)
  {
    TrimWorks(s);
    TrimWorks(Trim(s));
  }

  /** One space at the end goes; one at the start goes. */
  lemma TrimAppend(s: string)
    requires s != "" && IsTrimmed(s)
    ensures Trim(s + " ") == s && Trim(" " + s) == s
  {
    SpaceIsSpace();
    assert (s + " ")[..|s|] == s && (" " + s)[1..] == s;
    TrimWorks(s);
    assert TrimEnd(s) == s;
    assert TrimEnd(s + " ") == TrimEnd(s);
  }
}
