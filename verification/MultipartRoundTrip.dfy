/** What a written form comes back as, and when it comes back unchanged. */
module MultipartRoundTrip {
  import opened Basics
  import opened Text
  import opened Multipart

  // ----- the conditions -----

  /** The boundary can be told from what it delimits. */
  predicate GoodBoundary(boundary: string) {
    boundary != "" && '\r' !in boundary
  }

  /** No header value ends its line. */
  ghost predicate UnbrokenHeaders(e: Entry) {
    !Contains(e.name, CRLF) && (e.isBlob ==> !Contains(e.filename, CRLF) && !Contains(e.mime, CRLF))
  }

  /** Nothing in the entry looks like the frame around it. */
  ghost predicate Framed(e: Entry, boundary: string) {
    UnbrokenHeaders(e) && !Starts(e.bytes, "--" + boundary) && !Contains(e.bytes, CRLF + ("--" + boundary))
  }

  /** The file name that is found when the name holds "filename=" and then rest: the reader takes the
      first occurrence, which is inside the name. */
  function Misread(rest: string, isBlob: bool): string {
    if rest != "" then Bare(Escape(rest) + "\"") else if isBlob then "; filename=" else ""
  }

  function FilenameRead(e: Entry): string {
    match Find(e.name, "filename=")
    case None => if e.isBlob then e.filename else ""
    case Some(p) => Misread(e.name[p + 9..], e.isBlob)
  }

  /** The name does not disturb the file name: it does not hold "filename=", or, in a string entry,
      nothing readable follows it there, or, in a blob, by chance the blob's own file name does. */
  predicate HarmlessName(e: Entry) {
    match Find(e.name, "filename=")
    case None => true
    case Some(p) =>
      var rest := e.name[p + 9..];
      if e.isBlob then e.filename == Misread(rest, true) else rest == "" || EndsBare(rest[0])
  }

  /** What the reader makes of a written entry. */
  function Normal(e: Entry): Entry {
    var mime := if e.isBlob then SkipBlank(e.mime) else "";
    if FilenameRead(e) != "" || mime != "" then Entry(e.name, e.bytes, mime, FilenameRead(e), true)
    else Entry(e.name, WithoutBom(e.bytes), "", "", false)
  }

  function NormalList(list: seq<Entry>): seq<Entry> {
    if list == [] then [] else [Normal(list[0])] + NormalList(list[1..])
  }

  /** The wire form can express the entry. */
  predicate Expressible(e: Entry) {
    if e.isBlob then (e.filename != "" || e.mime != "") && (e.mime == "" || !Blank(e.mime[0]))
    else e.mime == "" && e.filename == "" && !Starts(e.bytes, BOM)
  }

  lemma HarmlessIsRead(e: Entry)
    ensures HarmlessName(e) <==> FilenameRead(e) == if e.isBlob then e.filename else ""
  {
  }

  lemma ExpressibleIsNormal(e: Entry)
    ensures Normal(e) == e <==> Expressible(e) && HarmlessName(e)
  {
    hide HarmlessName, FilenameRead;
    HarmlessIsRead(e);
    SkipBlankLength(e.mime);
    if e.mime != "" && Blank(e.mime[0]) {
      SkipBlankLength(e.mime[1..]);
    }
  }

  // ----- quoting -----

  lemma {:induction false} UnquoteEscape(s: string, rest: string)
    ensures Unquoted(Escape(s) + "\"" + rest) == s
  {
    if s != "" {
      UnquoteEscape(s[1..], rest);
      var code, tail := EscapeChar(s[0]), Escape(s[1..]) + "\"" + rest;
      assert Escape(s) + "\"" + rest == code + tail;
      assert (code + tail)[|code|..] == tail;
    }
  }

  predicate Unquotable(pat: string) {
    '"' !in pat && '\\' !in pat
  }

  lemma {:induction false} EscapeStarts(s: string, rest: string, pat: string)
    requires Unquotable(pat) && Starts(Escape(s) + "\"" + rest, pat)
    ensures Starts(s, pat)
  {
    var t := Escape(s) + "\"" + rest;
    StartsChars(t, pat);
    StartsChars(s, pat);
    if pat != "" {
      assert pat[0] in pat;
      if s != "" {
        var tail := Escape(s[1..]) + "\"" + rest;
        assert t == EscapeChar(s[0]) + tail;
        assert t[0] == pat[0] && t == [s[0]] + tail;
        StartsChars(tail, pat[1..]);
        EscapeStarts(s[1..], rest, pat[1..]);
        StartsChars(s[1..], pat[1..]);
        assert forall i :: 1 <= i < |pat| ==> s[i] == s[1..][i - 1] && pat[i] == pat[1..][i - 1];
      }
    }
  }

  lemma QuotedNext(s: string, rest: string)
    requires s != ""
    ensures Escape(s) + "\"" + rest == EscapeChar(s[0]) + (Escape(s[1..]) + "\"" + rest)
    ensures |Escape(s)| == |EscapeChar(s[0])| + |Escape(s[1..])|
  {
  }

  lemma EscapeTake(s: string, i: nat)
    requires i < |s|
    ensures |Escape(s[..i + 1])| == |EscapeChar(s[0])| + |Escape(s[1..][..i])|
  {
    assert s[..i + 1][1..] == s[1..][..i];
  }

  /** The second character of an escape begins no text without quotes and backslashes. */
  lemma NotInsideEscape(s: string, tail: string, pat: string, j: nat)
    requires s != "" && pat != "" && Unquotable(pat) && At(EscapeChar(s[0]) + tail, pat, j) && j < |EscapeChar(s[0])|
    ensures j == 0
  {
    AtChars(EscapeChar(s[0]) + tail, pat, j);
    assert pat[0] in pat;
  }

  /** Text that occurs in a quoted value, and has no quote or backslash, occurs in the value, at the
      place that its escaping begins at. */
  lemma {:induction false} EscapeOccurs(s: string, rest: string, pat: string, j: nat) returns (k: nat)
    requires pat != "" && Unquotable(pat) && j < |Escape(s)| && At(Escape(s) + "\"" + rest, pat, j)
    ensures At(s, pat, k) && j == |Escape(s[..k])|
  {
    var code, tail := EscapeChar(s[0]), Escape(s[1..]) + "\"" + rest;
    if j < |code| {
      QuotedNext(s, rest);
      NotInsideEscape(s, tail, pat, j);
      EscapeStarts(s, rest, pat);
      k := 0;
    } else {
      hide At, Escape;
      QuotedNext(s, rest);
      AtShift(code, tail, pat, j - |code|);
      var i := EscapeOccurs(s[1..], rest, pat, j - |code|);
      k := OccursBehind(s, pat, i);
      EscapeTake(s, i);
    }
  }

  lemma OccursBehind(s: string, pat: string, i: nat) returns (k: nat)
    requires s != "" && pat != "" && At(s[1..], pat, i)
    ensures At(s, pat, k) && k == i + 1 && i < |s|
  {
    k := i + 1;
    assert s == s[..1] + s[1..];
    AtShift(s[..1], s[1..], pat, i);
  }

  lemma {:induction false} EscapeConcat(a: string, b: string)
    ensures Escape(a + b) == Escape(a) + Escape(b)
  {
    if a == "" {
      assert a + b == b;
    } else {
      EscapeConcat(a[1..], b);
      assert (a + b)[1..] == a[1..] + b;
    }
  }

  lemma EscapePlain(p: string, s: string)
    requires Unquotable(p)
    ensures Escape(p + s) == p + Escape(s)
  {
    EscapeConcat(p, s);
    PlainEscape(p);
  }

  lemma {:induction false} PlainEscape(p: string)
    requires Unquotable(p)
    ensures Escape(p) == p
  {
    if p != "" {
      assert p[0] in p;
      PlainEscape(p[1..]);
    }
  }

  lemma FindPastQuoted(s: string, rest: string, pat: string)
    requires pat != "" && Unquotable(pat) && !Contains(s, pat)
    ensures Find(Escape(s) + "\"" + rest, pat) == Shifted(|Escape(s)| + 1, Find(rest, pat))
  {
    assert pat[0] in pat;
    var tail := "\"" + rest;
    assert Escape(s) + "\"" + rest == Escape(s) + tail;
    forall j | 0 <= j < |Escape(s)|
      ensures !At(Escape(s) + tail, pat, j)
    {
      if At(Escape(s) + tail, pat, j) {
        var k := EscapeOccurs(s, rest, pat, j);
        assert false;
      }
    }
    FindPast(Escape(s), tail, pat);
    FindPastFree("\"", rest, pat);
  }

  // ----- the parameters of a disposition -----

  const HEAD: string := "form-data; "
  const NEXT: string := "; filename=\""

  function FilenameText(e: Entry): string {
    if e.isBlob then NEXT + Escape(e.filename) + "\"" else ""
  }

  lemma DispositionText(e: Entry)
    ensures Disposition(e) == HEAD + ("name=\"" + (Escape(e.name) + "\"" + FilenameText(e)))
  {
  }

  lemma QuotedParam(s: string, key: string, before: nat, value: string, rest: string)
    requires Find(s, key + "=") == Some(before)
    requires s[before + |key| + 1..] == "\"" + (Escape(value) + "\"" + rest)
    ensures Param(s, key) == value
  {
    UnquoteEscape(value, rest);
    assert ("\"" + (Escape(value) + "\"" + rest))[1..] == Escape(value) + "\"" + rest;
  }

  lemma NameParam(e: Entry)
    ensures Param(Disposition(e), "name") == e.name
  {
    var s, tail := Disposition(e), Escape(e.name) + "\"" + FilenameText(e);
    DispositionText(e);
    FindPastFree(HEAD, "name=\"" + tail, "name=");
    AtChars("name=\"" + tail, "name=", 0);
    FindIs("name=\"" + tail, "name=", 0);
    assert "name" + "=" == "name=";
    assert s[|HEAD| + 5..] == "\"" + tail;
    QuotedParam(s, "name", |HEAD|, e.name, FilenameText(e));
  }

  lemma FindFilename(tail: string)
    ensures Find(NEXT + tail, "filename=") == Some(2)
    ensures Find("", "filename=") == None
  {
    assert NEXT + tail == "; " + ("filename=\"" + tail);
    assert Find("", "filename=") == None;
    hide Find;
    FindPastFree("; ", "filename=\"" + tail, "filename=");
    AtChars("filename=\"" + tail, "filename=", 0);
    FindIs("filename=\"" + tail, "filename=", 0);
  }

  lemma FilenameInHead(tail: string)
    ensures Find(HEAD + ("name=\"" + tail), "filename=") == Shifted(|HEAD| + 6, Find(tail, "filename="))
  {
    var s := HEAD + ("name=\"" + tail);
    assert s == (HEAD + "name=\"") + tail;
    forall j | 0 <= j < |HEAD + "name=\""|
      ensures !At((HEAD + "name=\"") + tail, "filename=", j)
    {
      AtChars(s, "filename=", j);
      assert j == 0 ==> s[1] == 'o';
      assert s[j] == (HEAD + "name=\"")[j];
    }
    FindPast(HEAD + "name=\"", tail, "filename=");
  }

  lemma FindFilenameParam(e: Entry)
    requires !Contains(e.name, "filename=")
    ensures Find(Disposition(e), "filename=")
            == Shifted(|HEAD| + 6 + |Escape(e.name)| + 1, Find(FilenameText(e), "filename="))
  {
    DispositionText(e);
    FilenameInHead(Escape(e.name) + "\"" + FilenameText(e));
    FindPastQuoted(e.name, FilenameText(e), "filename=");
  }

  lemma FilenameOfBlob(e: Entry)
    requires e.isBlob && !Contains(e.name, "filename=")
    ensures Param(Disposition(e), "filename") == e.filename
  {
    var value := Escape(e.filename) + "\"";
    var at := |HEAD| + 6 + |Escape(e.name)| + 1 + 2;
    FindFilenameParam(e);
    FindFilename(value);
    BlobTail(e);
    hide Find, Escape, Disposition, FilenameText;
    assert value == value + "" && "filename" + "=" == "filename=";
    QuotedParam(Disposition(e), "filename", at, e.filename, "");
  }

  lemma BlobTail(e: Entry)
    requires e.isBlob
    ensures FilenameText(e) == NEXT + (Escape(e.filename) + "\"")
    ensures var at := |HEAD| + 6 + |Escape(e.name)| + 1 + 2 + 9;
            at <= |Disposition(e)| && Disposition(e)[at..] == "\"" + (Escape(e.filename) + "\"")
  {
    hide Escape;
    var value := Escape(e.filename) + "\"";
    DispositionText(e);
    NextIs(value);
    BehindFive(HEAD, "name=\"", Escape(e.name), "\"", "; filename=", "\"" + value);
  }

  lemma NextIs(value: string)
    ensures NEXT + value == "; filename=" + ("\"" + value)
  {
  }

  lemma BehindFive(a: string, b: string, c: string, d: string, x: string, y: string)
    ensures var all, n := a + (b + (c + d + (x + y))), |a| + |b| + |c| + |d| + |x|;
            n <= |all| && all[n..] == y
  {
    assert a + (b + (c + d + (x + y))) == (a + b + c + d + x) + y;
  }

  /** The first "filename=" of a quoted value is where the value has its first. */
  lemma FindInQuoted(s: string, rest: string, pat: string)
    requires pat != "" && Unquotable(pat) && Find(s, pat).Some?
    ensures Find(Escape(s) + "\"" + rest, pat) == Some(|Escape(s[..Find(s, pat).value])|)
  {
    hide Escape, Find;
    var p, t := Find(s, pat).value, Escape(s) + "\"" + rest;
    var at := |Escape(s[..p])|;
    FindMeaning(s, pat);
    assert s == s[..p] + s[p..] && s[p..] == pat + s[p + |pat|..];
    EscapeConcat(s[..p], s[p..]);
    EscapePlain(pat, s[p + |pat|..]);
    assert t[at..at + |pat|] == pat;
    forall j: nat | j < at
      ensures !At(t, pat, j)
    {
      if At(t, pat, j) {
        var k := EscapeOccurs(s, rest, pat, j);
        EscapeLonger(s, p, k);
        assert false;
      }
    }
    FindIs(t, pat, at);
  }

  lemma EscapeLonger(s: string, p: nat, k: nat)
    requires p <= k <= |s|
    ensures |Escape(s[..p])| <= |Escape(s[..k])|
  {
    EscapeConcat(s[..p], s[p..k]);
    assert s[..k] == s[..p] + s[p..k];
  }

  /** What stands behind the "filename=" that the reader finds inside the name. */
  lemma BehindMisread(e: Entry, p: nat)
    requires Find(e.name, "filename=") == Some(p)
    ensures var at := |HEAD| + 6 + |Escape(e.name[..p])|;
            && Find(Disposition(e), "filename=") == Some(at)
            && Disposition(e)[at + 9..] == Escape(e.name[p + 9..]) + "\"" + FilenameText(e)
  {
    hide Escape, Disposition, FilenameText;
    FindMeaning(e.name, "filename=");
    DispositionText(e);
    FilenameInHead(Escape(e.name) + "\"" + FilenameText(e));
    FindInQuoted(e.name, FilenameText(e), "filename=");
    NameAround(e, p);
  }

  lemma EscapeAround(s: string, pat: string, p: nat)
    requires Unquotable(pat) && At(s, pat, p)
    ensures Escape(s) == Escape(s[..p]) + pat + Escape(s[p + |pat|..])
  {
    var rest := s[p + |pat|..];
    assert s == s[..p] + (pat + rest);
    EscapeConcat(s[..p], pat + rest);
    EscapePlain(pat, rest);
  }

  lemma NameAround(e: Entry, p: nat)
    requires At(e.name, "filename=", p)
    ensures |HEAD| + 6 + |Escape(e.name[..p])| + 9 <= |Disposition(e)|
    ensures Disposition(e)[|HEAD| + 6 + |Escape(e.name[..p])| + 9..] == Escape(e.name[p + 9..]) + "\"" + FilenameText(e)
  {
    hide Escape, Disposition, FilenameText;
    EscapeAround(e.name, "filename=", p);
    DispositionText(e);
    Behind(HEAD, "name=\"", Escape(e.name[..p]), "filename=", Escape(e.name[p + 9..]), "\"", FilenameText(e));
  }

  lemma Behind(a: string, b: string, c: string, d: string, x: string, y: string, z: string)
    ensures var all := a + (b + (c + d + x + y + z));
            |a| + |b| + |c| + |d| <= |all| && all[|a| + |b| + |c| + |d|..] == x + y + z
  {
    assert a + (b + (c + d + x + y + z)) == (a + b + c + d) + (x + y + z);
  }

  lemma {:induction false} BareStops(a: string, b: string)
    requires b == "" || EndsBare(b[0])
    ensures Bare(a + b) == Bare(a)
  {
    if a == "" {
      assert a + b == b;
    } else {
      BareStops(a[1..], b);
      assert (a + b)[1..] == a[1..] + b;
    }
  }

  lemma MisreadParam(e: Entry, p: nat)
    requires Find(e.name, "filename=") == Some(p)
    ensures Param(Disposition(e), "filename") == Misread(e.name[p + 9..], e.isBlob)
  {
    var rest := e.name[p + 9..];
    var t := Escape(rest) + "\"" + FilenameText(e);
    BehindMisread(e, p);
    assert "filename" + "=" == "filename=";
    if rest != "" {
      BareStops(Escape(rest) + "\"", FilenameText(e));
      assert t[0] == Escape(rest)[0] != '"';
    } else {
      assert t[0] == '"' && t[1..] == FilenameText(e);
      UnquotedFilenameText(e);
    }
  }

  lemma UnquotePlain(p: string, rest: string)
    requires Unquotable(p)
    ensures Unquoted(p + "\"" + rest) == p
  {
    PlainEscape(p);
    UnquoteEscape(p, rest);
  }

  lemma UnquotedFilenameText(e: Entry)
    ensures Unquoted(FilenameText(e)) == if e.isBlob then "; filename=" else ""
  {
    if e.isBlob {
      hide Escape, Unquoted;
      var value := Escape(e.filename) + "\"";
      UnquotePlain("; filename=", value);
      assert FilenameText(e) == "; filename=" + "\"" + value;
    }
  }

  lemma FilenameParam(e: Entry)
    ensures Param(Disposition(e), "filename") == FilenameRead(e)
  {
    hide Find, Escape, Disposition, Misread;
    FreeIsUnfound(e.name, "filename=");
    match Find(e.name, "filename=")
    case Some(p) => MisreadParam(e, p);
    case None =>
      if e.isBlob {
        FilenameOfBlob(e);
      } else {
        FindFilenameParam(e);
        FindFilename("");
        assert "filename" + "=" == "filename=";
      }
  }

  // ----- header lines -----

  function DispositionLine(e: Entry): string {
    "Content-Disposition" + (":" + (" " + Disposition(e)))
  }

  function TypeLine(e: Entry): string {
    "Content-Type" + (":" + (" " + e.mime))
  }

  lemma SplitAtColon(name: string, value: string)
    requires ':' !in name
    ensures var line := name + (":" + value);
            Find(line, ":") == Some(|name|) && line[..|name|] == name && line[|name| + 1..] == value
  {
    var line := ":" + value;
    FindPastFree(name, line, ":");
    assert line[..1] == ":";
    FindIs(line, ":", 0);
  }

  lemma LowerNames()
    ensures Lower("Content-Disposition") == "content-disposition"
    ensures Lower("Content-Type") == "content-type"
  {
  }

  lemma ReadDispositionLine(e: Entry, h: Headers)
    ensures ReadLine(DispositionLine(e), h) == h.(disposition := Disposition(e))
  {
    LowerNames();
    SplitAtColon("Content-Disposition", " " + Disposition(e));
    DispositionBehindBlank(e);
  }

  lemma DispositionBehindBlank(e: Entry)
    ensures SkipBlank(" " + Disposition(e)) == Disposition(e)
  {
    assert !Blank(Disposition(e)[0]);
    assert (" " + Disposition(e))[1..] == Disposition(e);
  }

  lemma ReadTypeLine(e: Entry, h: Headers)
    ensures ReadLine(TypeLine(e), h) == h.(mime := SkipBlank(e.mime))
  {
    LowerNames();
    SplitAtColon("Content-Type", " " + e.mime);
    assert (" " + e.mime)[1..] == e.mime;
  }

  /** What begins with a carriage return is not found before the quoted name. */
  lemma FindInLine(e: Entry, pat: string)
    requires pat != "" && pat[0] == '\r' && Find(Escape(e.name) + "\"" + FilenameText(e), pat) == None
    ensures Find(DispositionLine(e), pat) == None
  {
    hide Find, Escape, Disposition;
    var d, tail := Disposition(e), Escape(e.name) + "\"" + FilenameText(e);
    FindPastFree("Content-Disposition", ":" + (" " + d), pat);
    FindPastFree(":", " " + d, pat);
    FindPastFree(" ", d, pat);
    DispositionText(e);
    FindPastFree(HEAD, "name=\"" + tail, pat);
    FindPastFree("name=\"", tail, pat);
  }

  lemma DispositionLineIsFree(e: Entry)
    requires !Contains(e.name, CRLF) && (e.isBlob ==> !Contains(e.filename, CRLF))
    ensures !Contains(DispositionLine(e), CRLF)
  {
    hide Find, DispositionLine;
    FindPastQuoted(e.name, FilenameText(e), CRLF);
    FilenameTextIsFree(e);
    FindInLine(e, CRLF);
    FreeIsUnfound(DispositionLine(e), CRLF);
  }

  lemma FilenameTextIsFree(e: Entry)
    requires e.isBlob ==> !Contains(e.filename, CRLF)
    ensures Find(FilenameText(e), CRLF) == None
  {
    if e.isBlob {
      var tail := Escape(e.filename) + "\"" + "";
      assert FilenameText(e) == NEXT + tail;
      FindPastFree(NEXT, tail, CRLF);
      FindPastQuoted(e.filename, "", CRLF);
    }
  }

  lemma TypeLineIsFree(e: Entry)
    requires !Contains(e.mime, CRLF)
    ensures !Contains(TypeLine(e), CRLF)
  {
    assert TypeLine(e) == "Content-Type: " + e.mime;
    FindPastFree("Content-Type: ", e.mime, CRLF);
    FreeIsUnfound(e.mime, CRLF);
    FreeIsUnfound(TypeLine(e), CRLF);
  }

  lemma LinesAreFree(e: Entry)
    requires UnbrokenHeaders(e)
    ensures !Contains(DispositionLine(e), CRLF)
    ensures HasTypeLine(e) ==> !Contains(TypeLine(e), CRLF)
  {
    DispositionLineIsFree(e);
    if e.isBlob {
      TypeLineIsFree(e);
    }
  }

  /** The header lines without the line break behind the last one. */
  function Lines(e: Entry): string {
    if HasTypeLine(e) then DispositionLine(e) + CRLF + TypeLine(e) else DispositionLine(e)
  }

  lemma ReadLines(e: Entry)
    requires UnbrokenHeaders(e)
    ensures ReadHeaders(Lines(e), Headers("", ""))
            == Headers(Disposition(e), if e.isBlob then SkipBlank(e.mime) else "")
  {
    var h := Headers(Disposition(e), "");
    LinesAreFree(e);
    ReadDispositionLine(e, Headers("", ""));
    if HasTypeLine(e) {
      ReadTypeLine(e, h);
      assert CRLF + "" == CRLF && Starts(TypeLine(e), "");
      FindLine(DispositionLine(e), TypeLine(e), "");
      FreeIsUnfound(TypeLine(e), CRLF);
      assert Lines(e)[..|DispositionLine(e)|] == DispositionLine(e);
      assert Lines(e)[|DispositionLine(e)| + 2..] == TypeLine(e);
    } else {
      FreeIsUnfound(DispositionLine(e), CRLF);
    }
  }

  // ----- a part -----

  lemma PartLines(e: Entry)
    ensures PartText(e) == Lines(e) + CRLF + (CRLF + e.bytes)
    ensures HasTypeLine(e) ==> PartText(e) == DispositionLine(e) + CRLF + (TypeLine(e) + CRLF + (CRLF + e.bytes))
  {
    HeaderIsLines(e);
    if HasTypeLine(e) {
      var tail := CRLF + e.bytes;
      assert Lines(e) + CRLF + tail == DispositionLine(e) + CRLF + (TypeLine(e) + CRLF + tail);
    }
  }

  lemma HeaderIsLines(e: Entry)
    ensures HeaderText(e) == Lines(e) + CRLF
  {
    assert "Content-Disposition: " + Disposition(e) == DispositionLine(e);
    if HasTypeLine(e) {
      assert "Content-Type: " + e.mime == TypeLine(e);
      assert Lines(e) + CRLF == DispositionLine(e) + CRLF + (TypeLine(e) + CRLF);
    }
  }

  lemma FindBlankLine(e: Entry)
    requires UnbrokenHeaders(e)
    ensures Find(PartText(e), CRLF + CRLF) == Some(|Lines(e)|)
  {
    PartLines(e);
    LinesAreFree(e);
    assert (CRLF + e.bytes)[..2] == CRLF;
    if HasTypeLine(e) {
      FindLine(DispositionLine(e), TypeLine(e) + CRLF + (CRLF + e.bytes), CRLF);
      FindLine(TypeLine(e), CRLF + e.bytes, CRLF);
      StartsChars(TypeLine(e) + CRLF + (CRLF + e.bytes), CRLF);
    } else {
      FindLine(DispositionLine(e), CRLF + e.bytes, CRLF);
    }
  }

  lemma ReadWrittenPart(e: Entry)
    requires UnbrokenHeaders(e)
    ensures ReadPart(PartText(e)) == Some(Normal(e))
  {
    FindBlankLine(e);
    PartLines(e);
    ReadLines(e);
    NameParam(e);
    FilenameParam(e);
    assert PartText(e)[..|Lines(e)|] == Lines(e);
    assert PartText(e)[|Lines(e)| + 4..] == e.bytes;
  }

  /** A written part reads back unchanged exactly when the wire form can express its entry and the name
      does not disturb the file name. */
  lemma ReadsBackExactly(e: Entry)
    requires UnbrokenHeaders(e)
    ensures ReadPart(PartText(e)) == Some(e) <==> Expressible(e) && HarmlessName(e)
  {
    ReadWrittenPart(e);
    ExpressibleIsNormal(e);
  }

  // ----- the delimiter behind a part -----

  /** Behind the headers, the delimiter is first met where the data ends. */
  lemma FindBehindData(data: string, rest: string, d: string)
    requires '\r' !in d && d != "" && d[0] == '-' && Starts(rest, d)
    requires !Starts(data, d) && !Contains(data, CRLF + d)
    ensures var tail := CRLF + data + CRLF + rest;
            Find(tail, CRLF + d) == Some(2 + |data|) && !Starts(tail, d)
  {
    var all := data + CRLF + rest;
    assert CRLF + data + CRLF + rest == CRLF + all;
    FindEnd(data, rest, d);
    StartsBefore(data, rest, d);
    FindBreak(all, d);
    StartsChars(CRLF + all, d);
  }

  lemma FindBehindTypeLine(e: Entry, u: string, d: string, k: nat)
    requires !Contains(TypeLine(e), CRLF) && d != "" && d[0] == '-' && Find(u, CRLF + d) == Some(k) && !Starts(u, d)
    ensures var all := TypeLine(e) + CRLF + u;
            Find(all, CRLF + d) == Some(|TypeLine(e)| + 2 + k) && !Starts(all, d)
  {
    FindLine(TypeLine(e), u, d);
    StartsChars(TypeLine(e) + CRLF + u, d);
  }

  /** No line break before the end of the part is followed by the delimiter. */
  lemma FindNextDelimiter(e: Entry, boundary: string, rest: string)
    requires GoodBoundary(boundary) && Framed(e, boundary) && Starts(rest, "--" + boundary)
    ensures Find(PartText(e) + CRLF + rest, CRLF + ("--" + boundary)) == Some(|PartText(e)|)
  {
    var d, tail := "--" + boundary, CRLF + e.bytes + CRLF + rest;
    LinesAreFree(e);
    FindBehindData(e.bytes, rest, d);
    PartBefore(e, rest);
    FindBehindHeaders(e, tail, d, 2 + |e.bytes|);
  }

  lemma FindBehindHeaders(e: Entry, u: string, d: string, k: nat)
    requires !Contains(DispositionLine(e), CRLF) && (HasTypeLine(e) ==> !Contains(TypeLine(e), CRLF))
    requires d != "" && d[0] == '-' && Find(u, CRLF + d) == Some(k) && !Starts(u, d)
    ensures Find(DispositionLine(e) + CRLF + (if HasTypeLine(e) then TypeLine(e) + CRLF + u else u), CRLF + d)
            == Some(|DispositionLine(e)| + (if HasTypeLine(e) then 2 + |TypeLine(e)| else 0) + 2 + k)
  {
    if HasTypeLine(e) {
      FindBehindTypeLine(e, u, d, k);
      FindLine(DispositionLine(e), TypeLine(e) + CRLF + u, d);
    } else {
      FindLine(DispositionLine(e), u, d);
    }
  }

  lemma PartBefore(e: Entry, rest: string)
    ensures var tail := CRLF + e.bytes + CRLF + rest;
            PartText(e) + CRLF + rest
            == DispositionLine(e) + CRLF + if HasTypeLine(e) then TypeLine(e) + CRLF + tail else tail
    ensures |PartText(e)| == |DispositionLine(e)| + (if HasTypeLine(e) then 2 + |TypeLine(e)| else 0) + 4 + |e.bytes|
  {
    PartLines(e);
  }

  // ----- the whole body -----

  lemma SplitEntry(e: Entry, boundary: string, rest: string)
    ensures var s, d := EntryText(e, boundary) + rest, "--" + boundary;
            && |s| >= |d| && s[..|d|] == d && s[|d|..] == CRLF + (PartText(e) + CRLF + rest)
  {
    var d, t := "--" + boundary, PartText(e);
    assert d + CRLF + t + CRLF + rest == d + (CRLF + (t + CRLF + rest));
  }

  lemma ReadEntry(e: Entry, boundary: string, rest: string)
    requires GoodBoundary(boundary) && Framed(e, boundary) && Starts(rest, "--" + boundary)
    ensures ReadStep(EntryText(e, boundary) + rest, "--" + boundary) == Part(Normal(e), |EntryText(e, boundary)|)
  {
    var body := PartText(e) + CRLF + rest;
    SplitEntry(e, boundary, rest);
    assert (CRLF + body)[..2] == CRLF && (CRLF + body)[2..] == body && body[..|PartText(e)|] == PartText(e);
    FindNextDelimiter(e, boundary, rest);
    ReadWrittenPart(e);
  }

  lemma ReadClosing(boundary: string)
    ensures ReadStep("--" + boundary + "--" + CRLF, "--" + boundary) == End
  {
    var d, s := "--" + boundary, "--" + boundary + "--" + CRLF;
    assert s == d + ("--" + CRLF) && s[..|d|] == d && s[|d|..] == "--" + CRLF;
    assert ("--" + CRLF)[..2] == "--" && s[|d| + 2..] == CRLF && CRLF[..2] == CRLF;
  }

  lemma EncodingStarts(list: seq<Entry>, boundary: string)
    ensures Starts(Encoding(list, boundary), "--" + boundary)
  {
    var d := "--" + boundary;
    if list == [] {
      assert Encoding(list, boundary)[..|d|] == d;
    } else {
      assert Encoding(list, boundary)[..|d|] == EntryText(list[0], boundary)[..|d|] == d;
    }
  }

  lemma {:induction false} ReadEncoding(list: seq<Entry>, boundary: string)
    requires GoodBoundary(boundary) && forall e :: e in list ==> Framed(e, boundary)
    ensures ReadParts(Encoding(list, boundary), "--" + boundary) == Some(NormalList(list))
  {
    if list == [] {
      ReadClosing(boundary);
    } else {
      var rest := Encoding(list[1..], boundary);
      EncodingStarts(list[1..], boundary);
      ReadEntry(list[0], boundary, rest);
      ReadEncoding(list[1..], boundary);
      assert Encoding(list, boundary)[|EntryText(list[0], boundary)|..] == rest;
    }
  }

  /** A written form is read back entry by entry, each in its normal form. */
  lemma ReadsNormalForm(list: seq<Entry>, boundary: string)
    requires GoodBoundary(boundary) && forall e :: e in list ==> Framed(e, boundary)
    ensures Parsing(Encoding(list, boundary), boundary) == Some(NormalList(list))
  {
    ReadEncoding(list, boundary);
    EncodingStarts(list, boundary);
  }
}
