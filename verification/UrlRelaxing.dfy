/** Percent-encoding what a strict URL grammar rejects, past the authority. */
module UrlRelaxing {
  import opened Basics
  import opened Bytes
  import opened Text

  predicate IsSafe(c: Byte) {
    || ('a' <= c <= 'z') || ('A' <= c <= 'Z') || ('0' <= c <= '9')
    || c == '-' || c == '.' || c == '_' || c == '~' || c == '!' || c == '$' || c == '&' || c == '\''
    || c == '(' || c == ')' || c == '*' || c == '+' || c == ',' || c == ';' || c == '=' || c == ':'
    || c == '@' || c == '/' || c == '?' || c == '#' || c == '[' || c == ']'
  }

  predicate StartsPath(c: Byte) {
    c == '/' || c == '?' || c == '#'
  }

  // ----- where the authority ends -----

  const SCHEME: string := "://"

  /** The first position from k on of a path, query or fragment, or the length. */
  function FindPath(s: ByteString, k: nat): (r: nat)
    requires k <= |s|
    ensures k <= r <= |s| && (r < |s| ==> StartsPath(s[r])) && forall j :: k <= j < r ==> !StartsPath(s[j])
    decreases |s| - k
  {
    if k == |s| || StartsPath(s[k]) then k else FindPath(s, k + 1)
  }

  function AuthorityEnd(u: ByteString): (k: nat)
    ensures k <= |u| && (0 < k < |u| ==> StartsPath(u[k]))
  {
    match Find(u, SCHEME)
    case None => 0
    case Some(e) => FindPath(u, e + 3)
  }

  method PathPosition(s: ByteString, from: nat) returns (k: nat)
    requires from <= |s|
    ensures k == FindPath(s, from)
  {
    k := from;
    while k < |s| && !StartsPath(s[k])
      invariant from <= k <= |s| && FindPath(s, from) == FindPath(s, k)
    {
      k := k + 1;
    }
  }

  /** What stays as it is: the unreserved and the reserved characters of RFC 3986, section 2. */
  lemma SafeIs(c: Byte)
    ensures IsSafe(c) <==> || Unreserved(c) || c in {':', '/', '?', '#', '[', ']', '@'}
                           || c in {'!', '$', '&', '\'', '(', ')', '*', '+', ',', ';', '='}
  {
  }

  lemma {:induction false} FindPathBehind(before: ByteString, authority: ByteString, rest: ByteString)
    requires (forall c :: c in authority ==> !StartsPath(c)) && (rest == [] || StartsPath(rest[0]))
    ensures FindPath(before + (authority + rest), |before|) == |before| + |authority|
    decreases |authority|
  {
    var u := before + (authority + rest);
    if authority == [] {
      assert u == before + rest;
    } else {
      assert u[|before|] == authority[0] && authority[0] in authority;
      assert u == (before + [authority[0]]) + (authority[1..] + rest);
      FindPathBehind(before + [authority[0]], authority[1..], rest);
    }
  }

  /** A URL without "://" has no authority; otherwise the authority begins behind the first one and goes up
      to the first slash, question mark or hash behind it. */
  lemma AuthorityIs(scheme: ByteString, authority: ByteString, rest: ByteString)
    requires ':' !in scheme && '/' !in authority && '?' !in authority && '#' !in authority
    requires rest == [] || rest[0] in {'/', '?', '#'}
    ensures AuthorityEnd(scheme + (SCHEME + (authority + rest))) == |scheme| + 3 + |authority|
    ensures AuthorityEnd(scheme) == 0
  {
    var tail := SCHEME + (authority + rest);
    FindPastFree(scheme, tail, SCHEME);
    assert tail[..3] == SCHEME;
    FindIs(tail, SCHEME, 0);
    assert scheme + tail == (scheme + SCHEME) + (authority + rest);
    FindPathBehind(scheme + SCHEME, authority, rest);
    assert scheme + "" == scheme;
    FindPastFree(scheme, "", SCHEME);
  }

  // ----- relaxing -----

  function RelaxByte(s: ByteString): ByteString
    requires s != []
  {
    if IsSafe(s[0]) || Triple(s) then [s[0]] else Escape(s[0])
  }

  function RelaxTail(s: ByteString): ByteString {
    if s == [] then [] else RelaxByte(s) + RelaxTail(s[1..])
  }

  function Relax(u: ByteString): ByteString {
    u[..AuthorityEnd(u)] + RelaxTail(u[AuthorityEnd(u)..])
  }

  /** Scheme and authority are kept, whatever is in them, and everything behind them is relaxed. */
  lemma RelaxedParts(scheme: ByteString, authority: ByteString, rest: ByteString)
    requires ':' !in scheme && '/' !in authority && '?' !in authority && '#' !in authority
    requires rest == [] || rest[0] in {'/', '?', '#'}
    ensures Relax(scheme + (SCHEME + (authority + rest))) == scheme + (SCHEME + (authority + RelaxTail(rest)))
    ensures Relax(scheme) == RelaxTail(scheme)
  {
    hide AuthorityEnd, RelaxTail;
    var u, front := scheme + (SCHEME + (authority + rest)), scheme + (SCHEME + authority);
    AuthorityIs(scheme, authority, rest);
    assert u == front + rest && u[..|front|] == front && u[|front|..] == rest;
    assert front + RelaxTail(rest) == scheme + (SCHEME + (authority + RelaxTail(rest)));
    assert scheme[0..] == scheme && scheme[..0] + RelaxTail(scheme) == RelaxTail(scheme);
  }

  method AuthorityPosition(url: ByteString) returns (k: nat)
    ensures k == AuthorityEnd(url)
  {
    k := 0;
    var schemeEnd := Find(url, SCHEME);
    if schemeEnd.Some? {
      k := PathPosition(url, schemeEnd.value + 3);
    }
  }

  method RelaxUrl(url: ByteString) returns (out: ByteString)
    ensures out == Relax(url)
  {
    var authEnd := AuthorityPosition(url);
    ghost var goal := Relax(url);
    assert goal == url[..authEnd] + RelaxTail(url[authEnd..]) && url[|url|..] == [] && RelaxTail([]) == [];
    hide Relax, RelaxTail, AuthorityEnd, HexValue, Escape;
    out := [];
    for i := 0 to |url|
      invariant i <= authEnd ==> out == url[..i]
      invariant i >= authEnd ==> out + RelaxTail(url[i..]) == goal
    {
      var tripleHere := url[i] == '%' && i + 2 < |url| && HexValue(url[i + 1]) >= 0 && HexValue(url[i + 2]) >= 0;
      RelaxStep(out, url, i);
      out := Push(out, url[i], i < authEnd || IsSafe(url[i]) || tripleHere);
    }
  }

  method Push(out: ByteString, c: Byte, keep: bool) returns (r: ByteString)
    ensures r == out + if keep then [c] else Escape(c)
  {
    if keep {
      r := out + [c];
    } else {
      r := PushEscape(out, c);
    }
  }

  lemma RelaxStep(out: ByteString, u: ByteString, i: nat)
    requires i < |u|
    ensures Triple(u[i..]) == (u[i] == '%' && i + 2 < |u| && HexValue(u[i + 1]) >= 0 && HexValue(u[i + 2]) >= 0)
    ensures out + RelaxTail(u[i..]) == out + RelaxByte(u[i..]) + RelaxTail(u[i + 1..])
    ensures u[..i] + [u[i]] == u[..i + 1]
  {
    assert u[i..][1..] == u[i + 1..];
  }

  // ----- idempotence -----

  /** A triple is copied as it is. */
  lemma RelaxTriple(s: ByteString)
    requires Triple(s)
    ensures RelaxTail(s) == s[..3] + RelaxTail(s[3..])
  {
    assert s[1..][0] == s[1] && s[1..][1..][0] == s[2] && s[1..][1..][1..] == s[3..];
    assert RelaxTail(s[1..][1..]) == [s[2]] + RelaxTail(s[3..]);
    assert RelaxTail(s[1..]) == [s[1]] + RelaxTail(s[1..][1..]);
  }

  /** Every byte is safe or part of a valid triple. */
  predicate Clean(s: ByteString) {
    s == [] || (IsSafe(s[0]) && Clean(s[1..])) || (Triple(s) && Clean(s[3..]))
  }

  lemma {:induction false} RelaxedIsClean(s: ByteString)
    ensures Clean(RelaxTail(s))
    decreases |s|
  {
    if s != [] {
      if Triple(s) {
        RelaxTriple(s);
        RelaxedIsClean(s[3..]);
        var r := RelaxTail(s);
        assert r[3..] == RelaxTail(s[3..]);
      } else {
        RelaxedIsClean(s[1..]);
        var r := RelaxTail(s);
        if IsSafe(s[0]) {
          assert r[1..] == RelaxTail(s[1..]);
        } else {
          HexRoundTrip(s[0]);
          assert r[3..] == RelaxTail(s[1..]);
        }
      }
    }
  }

  /** Relaxing changes nothing exactly when there is nothing to relax. */
  lemma {:induction false} CleanIsFixed(s: ByteString)
    ensures Clean(s) <==> RelaxTail(s) == s
    decreases |s|
  {
    RelaxedIsClean(s);
    if s != [] && Clean(s) {
      if Triple(s) {
        assert !IsSafe('%');
        RelaxTriple(s);
        CleanIsFixed(s[3..]);
        assert s == s[..3] + s[3..];
      } else {
        CleanIsFixed(s[1..]);
        assert s == [s[0]] + s[1..];
      }
    }
  }

  /** A byte of the output that is no escape stands where it stood in the input. */
  lemma RelaxedHead(s: ByteString, c: Byte)
    requires s != [] && c != '%' && HexValue(c) < 0 && RelaxTail(s)[0] == c
    ensures s[0] == c && RelaxTail(s)[1..] == RelaxTail(s[1..])
  {
  }

  lemma EscapeHasNoColon(c: Byte)
    ensures ':' !in Escape(c)
  {
  }

  /** "://" in the output stands where it stood in the input. */
  lemma RelaxedScheme(s: ByteString)
    requires At(RelaxTail(s), SCHEME, 0)
    ensures At(s, SCHEME, 0)
  {
    var r := RelaxTail(s);
    AtChars(r, SCHEME, 0);
    RelaxedHead(s, ':');
    assert r[1..][0] == '/';
    RelaxedHead(s[1..], '/');
    assert r[1..][1..][0] == '/';
    RelaxedHead(s[1..][1..], '/');
    AtChars(s, SCHEME, 0);
  }

  /** Relaxing makes no new "://". */
  lemma {:induction false} NoNewScheme(s: ByteString, j: nat)
    requires At(RelaxTail(s), SCHEME, j)
    ensures Contains(s, SCHEME)
    decreases |s|
  {
    if j == 0 {
      RelaxedScheme(s);
    } else {
      var code, rest := RelaxByte(s), RelaxTail(s[1..]);
      SchemeBehind(s, j);
      AtShift(code, rest, SCHEME, j - |code|);
      NoNewScheme(s[1..], j - |code|);
      var i: nat :| At(s[1..], SCHEME, i);
      assert s == s[..1] + s[1..];
      AtShift(s[..1], s[1..], SCHEME, i);
    }
  }

  lemma SchemeBehind(s: ByteString, j: nat)
    requires At(RelaxTail(s), SCHEME, j) && j > 0
    ensures s != [] && j >= |RelaxByte(s)|
  {
    AtChars(RelaxTail(s), SCHEME, j);
    EscapeHasNoColon(s[0]);
    assert RelaxTail(s)[j] == SCHEME[0];
    assert forall k :: 0 < k < |RelaxByte(s)| ==> RelaxTail(s)[k] != ':';
  }

  lemma SameFind(u: ByteString, v: ByteString, a: nat)
    requires a <= |u| && a <= |v| && u[..a] == v[..a]
    requires Find(u, SCHEME).Some? && Find(u, SCHEME).value + 3 <= a
    ensures Find(v, SCHEME) == Find(u, SCHEME)
  {
    var e := Find(u, SCHEME).value;
    FindMeaning(u, SCHEME);
    forall j: nat | j <= e
      ensures At(v, SCHEME, j) == At(u, SCHEME, j)
    {
      assert u[j..j + 3] == u[..a][j..j + 3] && v[j..j + 3] == v[..a][j..j + 3];
    }
    FindIs(v, SCHEME, e);
  }

  lemma SamePath(u: ByteString, v: ByteString, k: nat)
    requires k <= |u| && FindPath(u, k) <= |v| && u[..FindPath(u, k)] == v[..FindPath(u, k)]
    requires if FindPath(u, k) < |u| then FindPath(u, k) < |v| && v[FindPath(u, k)] == u[FindPath(u, k)]
             else |v| == |u|
    ensures FindPath(v, k) == FindPath(u, k)
  {
    var a := FindPath(u, k);
    assert forall j :: k <= j < a ==> u[..a][j] == u[j] && v[..a][j] == v[j];
  }

  /** The first byte behind the authority is a delimiter and is kept. */
  lemma RelaxedShape(u: ByteString)
    ensures var a, v := AuthorityEnd(u), Relax(u);
            && a <= |v| && v[..a] == u[..a] && v[a..] == RelaxTail(u[a..])
            && (if a < |u| then a < |v| && (a > 0 ==> v[a] == u[a]) else |v| == |u|)
  {
    var a := AuthorityEnd(u);
    if 0 < a < |u| {
      assert u[a..][0] == u[a] && IsSafe(u[a]);
      assert RelaxTail(u[a..])[0] == u[a];
    }
  }

  lemma SameAuthority(u: ByteString)
    ensures AuthorityEnd(Relax(u)) == AuthorityEnd(u)
  {
    RelaxedShape(u);
    if Find(u, SCHEME).None? {
      FindMeaning(u, SCHEME);
      NoSchemeBefore(u);
    } else {
      SameFind(u, Relax(u), AuthorityEnd(u));
      SamePath(u, Relax(u), Find(u, SCHEME).value + 3);
    }
  }

  lemma NoSchemeBefore(u: ByteString)
    requires !Contains(u, SCHEME)
    ensures Find(Relax(u), SCHEME) == None
  {
    FindNone(u, SCHEME);
    assert u[0..] == u && Relax(u) == RelaxTail(u);
    if j: nat :| At(RelaxTail(u), SCHEME, j) {
      NoNewScheme(u, j);
    }
    FindNone(Relax(u), SCHEME);
  }

  /** Relaxing twice is relaxing once, and what follows the authority is clean. */
  lemma RelaxIdempotent(u: ByteString)
    ensures Relax(Relax(u)) == Relax(u)
    ensures AuthorityEnd(Relax(u)) == AuthorityEnd(u) && Clean(Relax(u)[AuthorityEnd(u)..])
    ensures Relax(u) == u <==> Clean(u[AuthorityEnd(u)..])
  {
    var a, v := AuthorityEnd(u), Relax(u);
    SameAuthority(u);
    assert v[..a] == u[..a] && v[a..] == RelaxTail(u[a..]) && u == u[..a] + u[a..];
    RelaxedIsClean(u[a..]);
    CleanIsFixed(v[a..]);
    CleanIsFixed(u[a..]);
  }

  // ----- meaning -----

  /** What one byte or triple is relaxed to decodes to what it decodes to, whatever follows. */
  lemma RelaxedByteMeaning(c: Byte, rest: ByteString, plusAsSpace: bool)
    requires !IsSafe(c) || c != '%'
    ensures !IsSafe(c) && c != '+' ==> PercentDecode(Escape(c) + rest, plusAsSpace) == [c] + PercentDecode(rest, plusAsSpace)
    ensures IsSafe(c) ==> PercentDecode([c] + rest, plusAsSpace) == [Plain(c, plusAsSpace)] + PercentDecode(rest, plusAsSpace)
  {
    HexRoundTrip(c);
    assert (Escape(c) + rest)[3..] == rest && ([c] + rest)[1..] == rest;
  }

  lemma DecodeFirst(s: ByteString, plusAsSpace: bool)
    requires s != []
    ensures Triple(s) ==> PercentDecode(s, plusAsSpace) == [TripleValue(s)] + PercentDecode(s[3..], plusAsSpace)
    ensures !Triple(s) ==> PercentDecode(s, plusAsSpace) == [Plain(s[0], plusAsSpace)] + PercentDecode(s[1..], plusAsSpace)
  {
  }

  lemma {:induction false} RelaxTailMeaning(s: ByteString, plusAsSpace: bool)
    ensures PercentDecode(RelaxTail(s), plusAsSpace) == PercentDecode(s, plusAsSpace)
    decreases |s|
  {
    if s != [] {
      DecodeFirst(s, plusAsSpace);
      if Triple(s) {
        var r := RelaxTail(s);
        RelaxTriple(s);
        RelaxTailMeaning(s[3..], plusAsSpace);
        hide PercentDecode, RelaxTail, HexValue;
        assert r[3..] == RelaxTail(s[3..]) && r[0] == s[0] && r[1] == s[1] && r[2] == s[2];
        DecodeFirst(r, plusAsSpace);
      } else {
        RelaxTailMeaning(s[1..], plusAsSpace);
        RelaxedByteMeaning(s[0], RelaxTail(s[1..]), plusAsSpace);
        hide PercentDecode, HexValue, Escape;
      }
    }
  }

  /** No triple spans a boundary whose right side does not begin with a digit. */
  lemma TripleBefore(p: ByteString, s: ByteString)
    requires p != [] && (s == [] || HexValue(s[0]) < 0)
    ensures (p + s)[0] == p[0] && Triple(p + s) == Triple(p)
    ensures Triple(p) ==> TripleValue(p + s) == TripleValue(p) && (p + s)[3..] == p[3..] + s
    ensures (p + s)[1..] == p[1..] + s
  {
  }

  lemma {:induction false} DecodeConcat(p: ByteString, s: ByteString, plusAsSpace: bool)
    requires s == [] || HexValue(s[0]) < 0
    ensures PercentDecode(p + s, plusAsSpace) == PercentDecode(p, plusAsSpace) + PercentDecode(s, plusAsSpace)
    decreases |p|
  {
    if p == [] {
      assert p + s == s;
    } else {
      TripleBefore(p, s);
      if Triple(p) {
        DecodeConcat(p[3..], s, plusAsSpace);
      } else {
        DecodeConcat(p[1..], s, plusAsSpace);
      }
    }
  }

  /** A relaxed URL percent-decodes to what the original did. */
  lemma RelaxKeepsMeaning(u: ByteString, plusAsSpace: bool)
    ensures PercentDecode(Relax(u), plusAsSpace) == PercentDecode(u, plusAsSpace)
  {
    var a := AuthorityEnd(u);
    var head, tail := u[..a], u[a..];
    assert u == head + tail;
    RelaxTailMeaning(tail, plusAsSpace);
    if a == 0 {
      assert u == tail && Relax(u) == RelaxTail(tail);
    } else {
      DecodeConcat(head, tail, plusAsSpace);
      DecodeConcat(head, RelaxTail(tail), plusAsSpace);
    }
  }
}
