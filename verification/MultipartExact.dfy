/** Exactly which forms come back unchanged: an entry that breaks its frame is never read back. */
module MultipartExact {
  import opened Basics
  import opened Text
  import opened Multipart
  import opened MultipartRoundTrip

  // ----- values that are read never hold a line break -----

  /** A line break that unescaping would make. */
  const BENT: string := "\r\\\n"

  lemma HeadNotBreak(t: string)
    requires !Contains(t, CRLF) && !Contains(t, BENT) && |t| > 1 && t[0] == '\r'
    ensures Unquoted(t[1..]) == "" || Unquoted(t[1..])[0] != '\n'
  {
    AtChars(t, CRLF, 0);
    AtChars(t, BENT, 0);
    assert !At(t, CRLF, 0) && !At(t, BENT, 0);
    var u := t[1..];
    assert u[0] == t[1] && (|u| > 1 ==> u[1] == t[2]);
  }

  lemma SuffixIsFree(s: string, k: nat, pat: string)
    requires k <= |s| && !Contains(s, pat)
    ensures !Contains(s[k..], pat)
  {
    assert s == s[..k] + s[k..] + "";
    PartIsFree(s[..k], s[k..], "", pat);
  }

  lemma PrefixIsFree(s: string, k: nat, pat: string)
    requires k <= |s| && !Contains(s, pat)
    ensures !Contains(s[..k], pat)
  {
    assert s == "" + s[..k] + s[k..];
    PartIsFree("", s[..k], s[k..], pat);
  }

  lemma NoBreakAhead(c: char, s: string)
    requires !Contains(s, CRLF) && (c != '\r' || s == "" || s[0] != '\n')
    ensures !Contains([c] + s, CRLF)
  {
    assert CRLF[0] == '\r' && CRLF[1] == '\n' && (s != "" ==> ([c] + s)[1] == s[0]);
    forall j: nat
      ensures !At([c] + s, CRLF, j)
    {
      AtChars([c] + s, CRLF, j);
      if j > 0 {
        AtShift([c], s, CRLF, j - 1);
        assert !At(s, CRLF, j - 1);
      }
    }
  }

  lemma {:induction false} UnquotedIsFree(t: string)
    requires !Contains(t, CRLF) && !Contains(t, BENT)
    ensures !Contains(Unquoted(t), CRLF)
    decreases |t|
  {
    if t == "" || t[0] == '"' {
      assert Unquoted(t) == "";
    } else {
      var used := if t[0] == '\\' && |t| > 1 then 2 else 1;
      SuffixIsFree(t, used, CRLF);
      SuffixIsFree(t, used, BENT);
      UnquotedIsFree(t[used..]);
      SuffixIsFree(t, used - 1, CRLF);
      SuffixIsFree(t, used - 1, BENT);
      assert t[used - 1..][1..] == t[used..];
      if |t| > used && t[used - 1] == '\r' {
        HeadNotBreak(t[used - 1..]);
      }
      NoBreakAhead(t[used - 1], Unquoted(t[used..]));
    }
  }

  lemma {:induction false} BareIsFree(t: string)
    ensures '\r' !in Bare(t)
  {
    if t != "" && !EndsBare(t[0]) {
      BareIsFree(t[1..]);
    }
  }

  lemma ParamIsFree(s: string, key: string)
    requires !Contains(s, CRLF) && !Contains(s, BENT)
    ensures !Contains(Param(s, key), CRLF)
  {
    var found := Find(s, key + "=");
    if found.None? {
      FreeOfReturn("");
    } else {
      var t := s[found.value + |key + "="|..];
      SuffixIsFree(s, found.value + |key + "="|, CRLF);
      SuffixIsFree(s, found.value + |key + "="|, BENT);
      if t != "" && t[0] == '"' {
        SuffixIsFree(t, 1, CRLF);
        SuffixIsFree(t, 1, BENT);
        UnquotedIsFree(t[1..]);
      } else {
        BareIsFree(t);
        FreeOfReturn(Bare(t));
      }
    }
  }

  lemma FreeOfReturn(s: string)
    requires '\r' !in s
    ensures !Contains(s, CRLF) && !Contains(s, BENT)
  {
    forall k: nat
      ensures !At(s, CRLF, k) && !At(s, BENT, k)
    {
      AtChars(s, CRLF, k);
      AtChars(s, BENT, k);
      assert k < |s| ==> s[k] in s;
    }
  }

  // ----- what the header lines give -----

  /** Neither value that the headers give holds a line break. */
  ghost predicate FreeHeaders(h: Headers) {
    !Contains(h.disposition, CRLF) && !Contains(h.mime, CRLF)
  }

  lemma {:induction false} SkipBlankIsFree(s: string, pat: string)
    requires !Contains(s, pat)
    ensures !Contains(SkipBlank(s), pat)
  {
    SkipBlankLength(s);
    SuffixIsFree(s, |s| - |SkipBlank(s)|, pat);
  }

  lemma LineIsFree(line: string, h: Headers)
    requires !Contains(line, CRLF) && FreeHeaders(h)
    ensures FreeHeaders(ReadLine(line, h))
    ensures !Contains(line, BENT) && !Contains(h.disposition, BENT) ==> !Contains(ReadLine(line, h).disposition, BENT)
  {
    var colon := Find(line, ":");
    if colon.Some? {
      SuffixIsFree(line, colon.value + 1, CRLF);
      SkipBlankIsFree(line[colon.value + 1..], CRLF);
      if !Contains(line, BENT) {
        SuffixIsFree(line, colon.value + 1, BENT);
        SkipBlankIsFree(line[colon.value + 1..], BENT);
      }
    }
  }

  lemma FirstLineIsFree(text: string, nl: nat)
    requires Find(text, CRLF) == Some(nl)
    ensures !Contains(text[..nl], CRLF)
  {
    FindMeaning(text, CRLF);
    if k: nat :| At(text[..nl], CRLF, k) {
      assert text[..nl][k..k + 2] == text[k..k + 2];
      assert At(text, CRLF, k);
    }
  }

  lemma {:induction false} HeadersAreFree(text: string, h: Headers)
    requires FreeHeaders(h)
    ensures FreeHeaders(ReadHeaders(text, h))
    ensures !Contains(text, BENT) && !Contains(h.disposition, BENT)
            ==> !Contains(ReadHeaders(text, h).disposition, BENT)
    decreases |text|
  {
    hide ReadLine, FreeHeaders;
    FreeIsUnfound(text, CRLF);
    match Find(text, CRLF)
    case None => LineIsFree(text, h);
    case Some(nl) =>
      FirstLineIsFree(text, nl);
      LineIsFree(text[..nl], h);
      if !Contains(text, BENT) {
        PrefixIsFree(text, nl, BENT);
        SuffixIsFree(text, nl + 2, BENT);
      }
      HeadersAreFree(text[nl + 2..], ReadLine(text[..nl], h));
  }

  /** The last line is read after all others. */
  lemma {:induction false} LastLine(a: string, b: string, h: Headers)
    requires !Contains(b, CRLF)
    ensures ReadHeaders(a + CRLF + b, h) == ReadLine(b, ReadHeaders(a, h))
    decreases |a|
  {
    hide ReadLine;
    var all := a + CRLF + b;
    FreeIsUnfound(b, CRLF);
    FreeIsUnfound(a, CRLF);
    match Find(a, CRLF)
    case None =>
      assert CRLF + "" == CRLF && Starts(b, "");
      FindLine(a, b, "");
      assert all[..|a|] == a && all[|a| + 2..] == b;
    case Some(nl) =>
      FirstBreakStays(a, b, nl);
      assert all[..nl] == a[..nl] && all[nl + 2..] == a[nl + 2..] + CRLF + b;
      LastLine(a[nl + 2..], b, ReadLine(a[..nl], h));
  }

  lemma FirstBreakStays(a: string, b: string, nl: nat)
    requires Find(a, CRLF) == Some(nl)
    ensures Find(a + CRLF + b, CRLF) == Some(nl)
  {
    FindMeaning(a, CRLF);
    forall j: nat | j <= nl
      ensures At(a + CRLF + b, CRLF, j) == At(a, CRLF, j)
    {
      InsideData(a, b, CRLF, j);
    }
    FindIs(a + CRLF + b, CRLF, nl);
  }

  // ----- a broken header -----

  lemma QuotedHead(s: string, rest: string)
    ensures var t := Escape(s) + "\"" + rest;
            t[0] == '\\' ==> |t| > 1 && t[1] != '\n'
  {
    if s != "" {
      QuotedNext(s, rest);
    }
  }

  lemma {:induction false} EscapeNeverBent(s: string, rest: string, j: nat)
    requires j < |Escape(s)|
    ensures !At(Escape(s) + "\"" + rest, BENT, j)
  {
    var t, code, tail := Escape(s) + "\"" + rest, EscapeChar(s[0]), Escape(s[1..]) + "\"" + rest;
    QuotedNext(s, rest);
    AtChars(t, BENT, j);
    assert BENT[0] == '\r' && BENT[1] == '\\' && BENT[2] == '\n';
    if j >= |code| {
      AtShift(code, tail, BENT, j - |code|);
      EscapeNeverBent(s[1..], rest, j - |code|);
    } else {
      QuotedHead(s[1..], rest);
      assert |code| == 1 ==> t[1] == tail[0] && (|tail| > 1 ==> t[2] == tail[1]);
    }
  }

  lemma FindPastBentQuoted(s: string, rest: string)
    ensures Find(Escape(s) + "\"" + rest, BENT) == Shifted(|Escape(s)| + 1, Find(rest, BENT))
  {
    var tail := "\"" + rest;
    assert Escape(s) + "\"" + rest == Escape(s) + tail;
    forall j | 0 <= j < |Escape(s)|
      ensures !At(Escape(s) + tail, BENT, j)
    {
      EscapeNeverBent(s, rest, j);
    }
    FindPast(Escape(s), tail, BENT);
    FindPastFree("\"", rest, BENT);
  }

  lemma DispositionLineNotBent(e: Entry)
    ensures !Contains(DispositionLine(e), BENT)
  {
    hide Find, DispositionLine;
    FindPastBentQuoted(e.name, FilenameText(e));
    FilenameTextNotBent(e);
    FindInLine(e, BENT);
    FreeIsUnfound(DispositionLine(e), BENT);
  }

  lemma FilenameTextNotBent(e: Entry)
    ensures Find(FilenameText(e), BENT) == None
  {
    if e.isBlob {
      var tail := Escape(e.filename) + "\"" + "";
      assert FilenameText(e) == NEXT + tail;
      FindPastFree(NEXT, tail, BENT);
      FindPastBentQuoted(e.filename, "");
    }
  }

  lemma BreakNotBent(a: string)
    requires !Contains(a, BENT)
    ensures !Contains(a + CRLF, BENT)
  {
    if j: nat :| At(a + CRLF, BENT, j) {
      AtChars(a + CRLF, BENT, j);
      AtChars(a, BENT, j);
      assert !At(a, BENT, j);
      assert j + 2 == |a| ==> (a + CRLF)[j + 2] == '\r';
      assert j + 1 == |a| ==> (a + CRLF)[j + 1] == '\r';
    }
  }

  /** A beginning of the type line changes no disposition. */
  lemma TypeLineKeepsDisposition(e: Entry, k: nat, h: Headers)
    requires k <= |TypeLine(e)|
    ensures ReadLine(TypeLine(e)[..k], h).disposition == h.disposition
  {
    var line := TypeLine(e)[..k];
    if k <= 12 {
      assert line == "Content-Type"[..k];
      FreeOfColon(k);
    } else {
      var x := (" " + e.mime)[..k - 13];
      assert line == "Content-Type" + (":" + x);
      LowerNames();
      SplitAtColon("Content-Type", x);
    }
  }

  lemma FreeOfColon(k: nat)
    requires k <= 12
    ensures Find("Content-Type"[..k], ":") == None
  {
    var s := "Content-Type"[..k];
    assert ':' !in "Content-Type";
    assert s + "" == s;
    FindPastFree(s, "", ":");
  }

  /** Whatever beginning of the header lines is read, the disposition in it unescapes to no line break. */
  lemma DispositionNotBent(e: Entry, m: nat)
    requires m <= |Lines(e)| && (e.isBlob ==> !Contains(e.mime, CRLF))
    ensures !Contains(ReadHeaders(Lines(e)[..m], Headers("", "")).disposition, BENT)
  {
    var line, h := DispositionLine(e), Headers("", "");
    var n := |line|;
    FreeOfReturn("");
    DispositionLineNotBent(e);
    BreakNotBent(line);
    if m <= n + 2 {
      var head := line + CRLF;
      PrefixIsFree(head, m, BENT);
      assert Lines(e)[..m] == head[..m];
      HeadersAreFree(head[..m], h);
    } else {
      var k := m - n - 2;
      TypeLineIsFree(e);
      PrefixIsFree(TypeLine(e), k, CRLF);
      assert Lines(e)[..m] == line + CRLF + TypeLine(e)[..k];
      LastLine(line, TypeLine(e)[..k], h);
      TypeLineKeepsDisposition(e, k, ReadHeaders(line, h));
      HeadersAreFree(line, h);
    }
  }

  /** Values with a line break are not what the reader finds. */
  lemma BrokenHeaderIsLost(e: Entry, m: nat, data: string)
    requires m <= |Lines(e)| && !UnbrokenHeaders(e)
    ensures MakeEntry(ReadHeaders(Lines(e)[..m], Headers("", "")), data) != e
  {
    var h := ReadHeaders(Lines(e)[..m], Headers("", ""));
    FreeOfReturn("");
    HeadersAreFree(Lines(e)[..m], Headers("", ""));
    if !(e.isBlob && Contains(e.mime, CRLF)) {
      DispositionNotBent(e, m);
      ParamIsFree(h.disposition, "name");
      ParamIsFree(h.disposition, "filename");
    }
  }

  // ----- what one step reads -----

  /** A part that is read: the delimiter behind it was found at n, and the end of its headers at m. */
  lemma StepShape(e: Entry, boundary: string, rest: string, r: Entry, used: nat) returns (n: nat, m: nat)
    requires ReadStep(EntryText(e, boundary) + rest, "--" + boundary) == Part(r, used)
    ensures var body := PartText(e) + CRLF + rest;
            && Find(body, CRLF + ("--" + boundary)) == Some(n)
            && Find(body[..n], CRLF + CRLF) == Some(m)
            && r == MakeEntry(ReadHeaders(body[..n][..m], Headers("", "")), body[..n][m + 4..])
  {
    var body := PartText(e) + CRLF + rest;
    SplitEntry(e, boundary, rest);
    hide EntryText, PartText, MakeEntry, ReadHeaders, Find;
    assert (CRLF + body)[..2] == CRLF && (CRLF + body)[2..] == body;
    n := Find(body, CRLF + ("--" + boundary)).value;
    m := Find(body[..n], CRLF + CRLF).value;
  }

  lemma OccursInPrefix(s: string, n: nat, pat: string, k: nat)
    requires k + |pat| <= n <= |s|
    ensures At(s[..n], pat, k) == At(s, pat, k)
  {
    assert s[..n][k..k + |pat|] == s[k..k + |pat|];
  }

  /** The headers end where they were written to end, or earlier when a value ends them. */
  lemma HeadersEndInTime(e: Entry, rest: string, n: nat, m: nat)
    requires n <= |PartText(e) + CRLF + rest| && Find((PartText(e) + CRLF + rest)[..n], CRLF + CRLF) == Some(m)
    ensures m <= |Lines(e)| && m + 4 <= n && (PartText(e) + CRLF + rest)[..n][..m] == Lines(e)[..m]
    ensures UnbrokenHeaders(e) ==> m == |Lines(e)|
  {
    var body, pat, len := PartText(e) + CRLF + rest, CRLF + CRLF, |Lines(e)|;
    PartLines(e);
    hide PartText, Find, Lines;
    FindMeaning(body[..n], pat);
    assert body[len..len + 4] == pat;
    if len + 4 <= n {
      OccursInPrefix(body, n, pat, len);
    }
    assert body[..len] == Lines(e) && body[..n][..m] == body[..len][..m];
    if UnbrokenHeaders(e) {
      FindBlankLine(e);
      FindMeaning(PartText(e), pat);
      assert body[..|PartText(e)|] == PartText(e);
      OccursInPrefix(body, |PartText(e)|, pat, m);
      OccursInPrefix(body, n, pat, m);
    }
  }

  lemma MadeBytes(h: Headers, data: string)
    ensures |MakeEntry(h, data).bytes| <= |data|
  {
  }

  /** The delimiter in the data ends the part too early. */
  lemma DelimiterInData(e: Entry, d: string, rest: string) returns (k: nat)
    requires Starts(e.bytes, d) || Contains(e.bytes, CRLF + d)
    ensures At(PartText(e) + CRLF + rest, CRLF + d, k) && k < |Lines(e)| + 4 + |e.bytes|
    ensures k < |Lines(e)| + 4 ==> k == |Lines(e)| + 2
  {
    var body, head, tail := PartText(e) + CRLF + rest, Lines(e) + CRLF, e.bytes + CRLF + rest;
    PartLines(e);
    hide PartText, Lines;
    assert body == head + (CRLF + tail) && body == (head + CRLF) + tail;
    if Starts(e.bytes, d) {
      assert (CRLF + tail)[..2 + |d|] == CRLF + e.bytes[..|d|];
      AtShift(head, CRLF + tail, CRLF + d, 0);
      k := |head|;
    } else {
      var j: nat :| At(e.bytes, CRLF + d, j);
      InsideData(e.bytes, rest, CRLF + d, j);
      AtShift(head + CRLF, tail, CRLF + d, j);
      k := |head| + 2 + j;
    }
  }

  /** An entry that breaks its frame is not what one step reads, whatever follows it. */
  lemma UnframedIsLost(e: Entry, boundary: string, rest: string, used: nat)
    requires !Framed(e, boundary)
    ensures ReadStep(EntryText(e, boundary) + rest, "--" + boundary) != Part(e, used)
  {
    if ReadStep(EntryText(e, boundary) + rest, "--" + boundary) == Part(e, used) {
      var body := PartText(e) + CRLF + rest;
      var n, m := StepShape(e, boundary, rest, e, used);
      HeadersEndInTime(e, rest, n, m);
      if !UnbrokenHeaders(e) {
        BrokenHeaderIsLost(e, m, body[..n][m + 4..]);
      } else {
        var k := DelimiterInData(e, "--" + boundary, rest);
        FindMeaning(body, CRLF + ("--" + boundary));
        MadeBytes(ReadHeaders(body[..n][..m], Headers("", "")), body[..n][m + 4..]);
        assert false;
      }
    }
  }

  // ----- the whole form -----

  /** What the entry must be to come back. */
  ghost predicate Survives(e: Entry, boundary: string) {
    Framed(e, boundary) && Expressible(e) && HarmlessName(e)
  }

  lemma FirstSurvives(e: Entry, boundary: string, rest: string)
    requires GoodBoundary(boundary) && Starts(rest, "--" + boundary)
    ensures Survives(e, boundary)
            <==> ReadStep(EntryText(e, boundary) + rest, "--" + boundary) == Part(e, |EntryText(e, boundary)|)
    ensures !Survives(e, boundary)
            ==> forall used :: ReadStep(EntryText(e, boundary) + rest, "--" + boundary) != Part(e, used)
  {
    if Framed(e, boundary) {
      ReadEntry(e, boundary, rest);
      ExpressibleIsNormal(e);
    } else {
      forall used
        ensures ReadStep(EntryText(e, boundary) + rest, "--" + boundary) != Part(e, used)
      {
        UnframedIsLost(e, boundary, rest, used);
      }
    }
  }

  lemma {:induction false} ReadsExactly(list: seq<Entry>, boundary: string)
    requires GoodBoundary(boundary)
    ensures ReadParts(Encoding(list, boundary), "--" + boundary) == Some(list)
            <==> forall k :: 0 <= k < |list| ==> Survives(list[k], boundary)
  {
    hide ReadStep, Survives, GoodBoundary;
    if list == [] {
      ReadClosing(boundary);
    } else {
      var e, rest := list[0], Encoding(list[1..], boundary);
      var all, d := Encoding(list, boundary), "--" + boundary;
      EncodingStarts(list[1..], boundary);
      FirstSurvives(e, boundary, rest);
      ReadsExactly(list[1..], boundary);
      AllOrRest(list, boundary);
      PrependIs(e, list, ReadParts(rest, d));
      assert all[|EntryText(e, boundary)|..] == rest;
      if !Survives(e, boundary) {
        NotFirst(all, d, list);
      }
    }
  }

  lemma AllOrRest(list: seq<Entry>, boundary: string)
    requires list != []
    ensures (forall k :: 0 <= k < |list| ==> Survives(list[k], boundary))
            <==> Survives(list[0], boundary) && forall k :: 0 <= k < |list[1..]| ==> Survives(list[1..][k], boundary)
  {
    hide Survives;
    assert forall k :: 1 <= k < |list| ==> list[k] == list[1..][k - 1];
  }

  lemma PrependIs(e: Entry, list: seq<Entry>, r: Option<seq<Entry>>)
    requires list != []
    ensures Prepend([e], r) == Some(list) <==> e == list[0] && r == Some(list[1..])
  {
    assert list == [list[0]] + list[1..];
    if r.Some? {
      assert ([e] + r.value)[0] == e && ([e] + r.value)[1..] == r.value;
    }
  }

  lemma NotFirst(s: string, delim: string, list: seq<Entry>)
    requires list != [] && forall used :: ReadStep(s, delim) != Part(list[0], used)
    ensures ReadParts(s, delim) != Some(list)
  {
    match ReadStep(s, delim)
    case Part(e, used) => PrependIs(e, list, ReadParts(s[used..], delim));
    case _ =>
  }

  /** For every form and every boundary without a carriage return: what is read back is the form itself
      if and only if every entry is one that survives. */
  lemma RoundTrip(list: seq<Entry>, boundary: string)
    requires GoodBoundary(boundary)
    ensures Parsing(Encoding(list, boundary), boundary) == Some(list)
            <==> forall k :: 0 <= k < |list| ==> Survives(list[k], boundary)
  {
    ReadsExactly(list, boundary);
    EncodingStarts(list, boundary);
  }

  // ----- the boundary travels in the content type -----

  lemma {:induction false} UntilEndAll(s: string)
    requires forall c :: c in s ==> !EndsBoundary(c)
    ensures UntilEnd(s) == s
  {
    if s != "" {
      assert s[0] in s;
      UntilEndAll(s[1..]);
    }
  }

  /** The receiver finds the sender's boundary in the content type, and with it the form, exactly when
      every entry survives. */
  lemma TransferRoundTrip(list: seq<Entry>, boundary: string)
    requires boundary != "" && (forall c :: c in boundary ==> !EndsBoundary(c))
    ensures Boundary("multipart/form-data; boundary=" + boundary) == boundary
    ensures Parsing(Encoding(list, boundary), Boundary("multipart/form-data; boundary=" + boundary)) == Some(list)
            <==> forall k :: 0 <= k < |list| ==> Survives(list[k], boundary)
  {
    BoundaryTravels(boundary);
    assert '\r' !in boundary by {
      assert EndsBoundary('\r');
    }
    RoundTrip(list, boundary);
  }

  lemma LowerHead()
    ensures Lower("multipart/form-data; boundary=") == "multipart/form-data; " + "boundary="
  {
  }

  lemma FindBoundary(boundary: string)
    ensures Find(Lower("multipart/form-data; boundary=" + boundary), "boundary=") == Some(21)
  {
    hide Lower, Find;
    var head, tail := "multipart/form-data; ", "boundary=" + Lower(boundary);
    LowerConcat("multipart/form-data; boundary=", boundary);
    LowerHead();
    assert (head + "boundary=") + Lower(boundary) == head + tail;
    FindPastFree(head, tail, "boundary=");
    AtChars(tail, "boundary=", 0);
    FindIs(tail, "boundary=", 0);
  }

  lemma BoundaryTravels(boundary: string)
    requires boundary != "" && (forall c :: c in boundary ==> !EndsBoundary(c))
    ensures Boundary("multipart/form-data; boundary=" + boundary) == boundary
  {
    FindBoundary(boundary);
    assert ("multipart/form-data; boundary=" + boundary)[30..] == boundary;
    assert boundary[0] in boundary;
    UntilEndAll(boundary);
  }
}
