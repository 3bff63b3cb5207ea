/** Substring search, and how it walks over lines. */
module Text {
  import opened Basics

  const CRLF: string := "\r\n"

  predicate Starts(s: string, pat: string) {
    |pat| <= |s| && s[..|pat|] == pat
  }

  predicate At(s: string, pat: string, k: nat) {
    k + |pat| <= |s| && s[k..k + |pat|] == pat
  }

  ghost predicate Contains(s: string, pat: string) {
    exists k: nat :: At(s, pat, k)
  }

  lemma AtChars(s: string, pat: string, k: nat)
    ensures At(s, pat, k) <==> k + |pat| <= |s| && forall i :: 0 <= i < |pat| ==> s[k + i] == pat[i]
  {
    if At(s, pat, k) {
      forall i | 0 <= i < |pat|
        ensures s[k + i] == pat[i]
      {
        assert s[k..k + |pat|][i] == pat[i];
      }
    }
  }

  lemma StartsChars(s: string, pat: string)
    ensures Starts(s, pat) <==> |pat| <= |s| && forall i :: 0 <= i < |pat| ==> s[i] == pat[i]
  {
    AtChars(s, pat, 0);
  }

  /** An occurrence in a suffix is an occurrence in the whole. */
  lemma AtShift(a: string, s: string, pat: string, k: nat)
    ensures At(a + s, pat, |a| + k) == At(s, pat, k)
  {
    AtChars(a + s, pat, |a| + k);
    AtChars(s, pat, k);
    if At(a + s, pat, |a| + k) {
      forall i | 0 <= i < |pat|
        ensures s[k + i] == pat[i]
      {
        assert (a + s)[|a| + k + i] == s[k + i];
      }
    }
  }

  /** The first occurrence at k or behind it. */
  function FindFrom(s: string, pat: string, k: nat): (r: Option<nat>)
    ensures r.Some? ==> r.value + |pat| <= |s|
    decreases |s| - k
  {
    if k + |pat| > |s| then None
    else if At(s, pat, k) then Some(k)
    else FindFrom(s, pat, k + 1)
  }

  function Find(s: string, pat: string): (r: Option<nat>)
    ensures r.Some? ==> r.value + |pat| <= |s|
  {
    FindFrom(s, pat, 0)
  }

  lemma {:induction false} FindFromMeaning(s: string, pat: string, k: nat)
    ensures match FindFrom(s, pat, k)
            case Some(n) => k <= n && At(s, pat, n) && forall j: nat :: k <= j < n ==> !At(s, pat, j)
            case None => forall j: nat :: k <= j ==> !At(s, pat, j)
    decreases |s| - k
  {
    if k + |pat| <= |s| && !At(s, pat, k) {
      FindFromMeaning(s, pat, k + 1);
    }
  }

  lemma FindMeaning(s: string, pat: string)
    ensures match Find(s, pat)
            case Some(n) => At(s, pat, n) && forall j: nat :: j < n ==> !At(s, pat, j)
            case None => forall j: nat :: !At(s, pat, j)
  {
    FindFromMeaning(s, pat, 0);
  }

  lemma FindIs(s: string, pat: string, k: nat)
    requires At(s, pat, k) && forall j: nat :: j < k ==> !At(s, pat, j)
    ensures Find(s, pat) == Some(k)
  {
    FindMeaning(s, pat);
  }

  lemma FindNone(s: string, pat: string)
    requires !Contains(s, pat)
    ensures Find(s, pat) == None
  {
    FindMeaning(s, pat);
  }

  function Shifted(n: nat, r: Option<nat>): Option<nat> {
    if r.None? then None else Some(n + r.value)
  }

  /** Nothing begins inside a, so the search goes on behind it. */
  lemma FindPast(a: string, s: string, pat: string)
    requires forall j :: 0 <= j < |a| ==> !At(a + s, pat, j)
    ensures Find(a + s, pat) == Shifted(|a|, Find(s, pat))
  {
    var r := Find(s, pat);
    FindMeaning(s, pat);
    forall j: nat
      ensures At(a + s, pat, j) ==> j >= |a| && At(s, pat, j - |a|)
    {
      if j >= |a| {
        AtShift(a, s, pat, j - |a|);
      }
    }
    if r.Some? {
      AtShift(a, s, pat, r.value);
      FindIs(a + s, pat, |a| + r.value);
    } else {
      FindNone(a + s, pat);
    }
  }

  /** A character that the text a lacks cannot begin an occurrence there. */
  lemma FindPastFree(a: string, s: string, pat: string)
    requires pat != [] && pat[0] !in a
    ensures Find(a + s, pat) == Shifted(|a|, Find(s, pat))
  {
    forall j | 0 <= j < |a|
      ensures !At(a + s, pat, j)
    {
      AtChars(a + s, pat, j);
      assert (a + s)[j] == a[j] && a[j] in a;
    }
    FindPast(a, s, pat);
  }

  lemma BreakHere(u: string, d: string)
    ensures At(CRLF + u, CRLF + d, 0) == Starts(u, d)
    ensures !At(CRLF + u, CRLF + d, 1)
  {
    assert (CRLF + u)[1] == '\n' && (CRLF + d)[0] == '\r';
    AtShift(CRLF, u, d, 0);
    AtChars(CRLF + u, CRLF + d, 0);
    AtChars(CRLF + u, CRLF + d, 1);
    AtChars(CRLF + u, d, 2);
  }

  lemma FindBreak(u: string, d: string)
    ensures Find(CRLF + u, CRLF + d) == if Starts(u, d) then Some(0) else Shifted(2, Find(u, CRLF + d))
  {
    BreakHere(u, d);
    if Starts(u, d) {
      FindIs(CRLF + u, CRLF + d, 0);
    } else {
      FindPast(CRLF, u, CRLF + d);
    }
  }

  /** Text without a line break ends no line break when what follows does not begin with \n. */
  lemma NoBreakInLine(line: string, s: string, d: string, j: nat)
    requires !Contains(line, CRLF) && (s == "" || s[0] != '\n') && j < |line|
    ensures !At(line + s, CRLF + d, j)
  {
    AtChars(line + s, CRLF + d, j);
    AtChars(line, CRLF, j);
    assert !At(line, CRLF, j);
    assert j + 1 < |line| ==> (line + s)[j + 1] == line[j + 1];
    assert (line + s)[j] == line[j] && (CRLF + d)[0] == '\r' && (CRLF + d)[1] == '\n';
  }

  lemma FindPastLine(line: string, s: string, d: string)
    requires !Contains(line, CRLF) && (s == "" || s[0] != '\n')
    ensures Find(line + s, CRLF + d) == Shifted(|line|, Find(s, CRLF + d))
  {
    forall j | 0 <= j < |line|
      ensures !At(line + s, CRLF + d, j)
    {
      NoBreakInLine(line, s, d, j);
    }
    FindPast(line, s, CRLF + d);
  }

  /** A line break followed by d is found at the end of the line, if d follows there, and otherwise
      in what follows. */
  lemma FindLine(line: string, u: string, d: string)
    requires !Contains(line, CRLF)
    ensures Find(line + CRLF + u, CRLF + d) == if Starts(u, d) then Some(|line|) else Shifted(|line| + 2, Find(u, CRLF + d))
  {
    FindPastLine(line, CRLF + u, d);
    FindBreak(u, d);
    assert line + CRLF + u == line + (CRLF + u);
  }

  lemma FreeIsUnfound(s: string, pat: string)
    ensures !Contains(s, pat) <==> Find(s, pat) == None
  {
    FindMeaning(s, pat);
  }

  /** What does not occur in a text occurs in no part of it. */
  lemma PartIsFree(a: string, s: string, b: string, pat: string)
    requires !Contains(a + s + b, pat)
    ensures !Contains(s, pat)
  {
    if k: nat :| At(s, pat, k) {
      assert (a + s + b)[|a| + k..|a| + k + |pat|] == s[k..k + |pat|];
      assert At(a + s + b, pat, |a| + k);
    }
  }

  lemma BreakInside(data: string, rest: string, pat: string, j: nat)
    requires j <= |data| < j + |pat| && At(data + CRLF + rest, pat, j)
    ensures pat[|data| - j] == '\r'
  {
    AtChars(data + CRLF + rest, pat, j);
    assert (data + CRLF + rest)[j + (|data| - j)] == pat[|data| - j];
  }

  lemma InsideData(data: string, rest: string, pat: string, j: nat)
    requires j + |pat| <= |data|
    ensures At(data + CRLF + rest, pat, j) == At(data, pat, j)
  {
    assert (data + CRLF + rest)[j..j + |pat|] == data[j..j + |pat|];
  }

  /** Text followed by a line break and d does not begin with d unless it did alone. */
  lemma StartsBefore(data: string, rest: string, d: string)
    requires '\r' !in d
    ensures Starts(data + CRLF + rest, d) == Starts(data, d)
  {
    var s := data + CRLF + rest;
    if |d| <= |data| {
      InsideData(data, rest, d, 0);
    } else if At(s, d, 0) {
      BreakInside(data, rest, d, 0);
      assert false;
    }
  }

  lemma EarlierBreak(data: string, rest: string, d: string, j: nat)
    requires '\r' !in d && j < |data| && !At(data, CRLF + d, j)
    ensures !At(data + (CRLF + rest), CRLF + d, j)
  {
    var pat := CRLF + d;
    assert data + (CRLF + rest) == data + CRLF + rest;
    if j + |pat| <= |data| {
      InsideData(data, rest, pat, j);
    } else if At(data + CRLF + rest, pat, j) {
      BreakInside(data, rest, pat, j);
      assert false;
    }
  }

  /** The first line break followed by d is the one behind data. */
  lemma FindEnd(data: string, rest: string, d: string)
    requires '\r' !in d && !Contains(data, CRLF + d) && Starts(rest, d)
    ensures Find(data + CRLF + rest, CRLF + d) == Some(|data|)
  {
    forall j | 0 <= j < |data|
      ensures !At(data + (CRLF + rest), CRLF + d, j)
    {
      assert !At(data, CRLF + d, j);
      EarlierBreak(data, rest, d, j);
    }
    FindPast(data, CRLF + rest, CRLF + d);
    assert data + CRLF + rest == data + (CRLF + rest);
    FindBreak(rest, d);
  }

  // ----- case and blanks -----

  function LowerChar(c: char): char {
    if 'A' <= c <= 'Z' then (c as int + 32) as char else c
  }

  function Lower(s: string): string {
    seq(|s|, i requires 0 <= i < |s| => LowerChar(s[i]))
  }

  lemma LowerConcat(a: string, b: string)
    ensures Lower(a + b) == Lower(a) + Lower(b)
  {
  }

  predicate Blank(c: char) {
    c == ' ' || c == '\t'
  }

  function SkipBlank(s: string): string {
    if s != [] && Blank(s[0]) then SkipBlank(s[1..]) else s
  }

  method ToLower(s: string) returns (r: string)
    ensures r == Lower(s)
  {
    r := s;
    for i := 0 to |s|
      invariant |r| == |s| && forall k :: 0 <= k < |s| ==> r[k] == if k < i then LowerChar(s[k]) else s[k]
    {
      r := r[i := LowerChar(r[i])];
    }
  }

  lemma {:induction false} SkipBlanks(pad: string, s: string)
    requires (forall c :: c in pad ==> Blank(c)) && (s == "" || !Blank(s[0]))
    ensures SkipBlank(pad + s) == s
  {
    if pad == "" {
      assert pad + s == s;
    } else {
      assert pad[0] in pad && (pad + s)[1..] == pad[1..] + s;
      SkipBlanks(pad[1..], s);
    }
  }

  lemma {:induction false} SkipBlankLength(s: string)
    ensures |SkipBlank(s)| <= |s| && SkipBlank(s) == s[|s| - |SkipBlank(s)|..]
  {
    if s != [] && Blank(s[0]) {
      SkipBlankLength(s[1..]);
    }
  }
}
