/** The bodies that are read as a form, whoever wrote them, and what they are read as. */
module MultipartGrammar {
  import opened Basics
  import opened Text
  import opened Multipart
  import opened MultipartRoundTrip

  // ----- blanks -----

  predicate Blanks(s: string) {
    forall c :: c in s ==> Blank(c)
  }

  /** What may stand behind the closing delimiter: blanks, and then nothing or one line break. */
  ghost predicate Closing(tail: string) {
    Blanks(tail) || (|tail| >= 2 && Blanks(tail[..|tail| - 2]) && tail[|tail| - 2..] == CRLF)
  }

  /** The blanks that are skipped, and that nothing else is. */
  lemma {:induction false} Skipped(s: string) returns (pad: string)
    ensures s == pad + SkipBlank(s) && Blanks(pad)
    ensures SkipBlank(s) == "" || !Blank(SkipBlank(s)[0])
  {
    pad := "";
    if s != "" && Blank(s[0]) {
      var more := Skipped(s[1..]);
      pad := [s[0]] + more;
      assert [s[0]] + more + SkipBlank(s) == [s[0]] + (more + SkipBlank(s)) == s;
    } else {
      assert pad + s == s;
    }
  }

  /** The end is accepted exactly behind blanks and at most one line break. */
  lemma EndIs(tail: string)
    ensures ReadEnd(tail) == if Closing(tail) then End else Fail
  {
    if Closing(tail) {
      ClosingEnds(tail);
    } else if ReadEnd(tail) == End {
      EndHasShape(tail);
    }
  }

  lemma ClosingEnds(tail: string)
    requires Closing(tail)
    ensures ReadEnd(tail) == End
  {
    if Blanks(tail) {
      assert tail + "" == tail;
      SkipBlanks(tail, "");
    } else {
      assert tail == tail[..|tail| - 2] + CRLF && CRLF[..2] == CRLF;
      SkipBlanks(tail[..|tail| - 2], CRLF);
    }
  }

  lemma EndHasShape(tail: string)
    requires ReadEnd(tail) == End
    ensures Closing(tail)
  {
    var pad := Skipped(tail);
    hide SkipBlank;
    var t := SkipBlank(tail);
    if t == "" {
      assert tail == pad;
    } else {
      assert t == CRLF;
      assert tail[..|tail| - 2] == pad && tail[|tail| - 2..] == CRLF;
    }
  }

  // ----- framed bodies -----

  /** Parts in a frame: blanks may stand behind each delimiter, and tail behind the closing one. */
  function Frame(d: string, pads: seq<string>, parts: seq<string>, tail: string): string
    requires |pads| == |parts|
    decreases |parts|
  {
    if parts == [] then d + ("--" + tail)
    else d + (pads[0] + (CRLF + (parts[0] + (CRLF + Frame(d, pads[1..], parts[1..], tail)))))
  }

  /** The delimiter behind the part is the first one. */
  ghost predicate Clear(part: string, d: string) {
    forall k :: 0 <= k < |part| ==> !At(part + CRLF + d, CRLF + d, k)
  }

  /** Parts that can be framed, with the entries that they are read as. */
  ghost predicate Framing(d: string, pads: seq<string>, parts: seq<string>, list: seq<Entry>) {
    && |pads| == |parts| == |list|
    && forall k :: 0 <= k < |list| ==> Blanks(pads[k]) && Clear(parts[k], d) && ReadPart(parts[k]) == Some(list[k])
  }

  lemma FrameStarts(d: string, pads: seq<string>, parts: seq<string>, tail: string)
    requires |pads| == |parts|
    ensures |d| <= |Frame(d, pads, parts, tail)| && Frame(d, pads, parts, tail)[..|d|] == d
  {
  }

  /** Behind a clear part the delimiter is found where the part ends. */
  lemma FindDelimiter(part: string, rest: string, d: string)
    requires Clear(part, d) && Starts(rest, d)
    ensures Find(part + (CRLF + rest), CRLF + d) == Some(|part|)
  {
    var s, short, pat := part + (CRLF + rest), part + CRLF + d, CRLF + d;
    assert rest == d + rest[|d|..];
    assert s == short + rest[|d|..];
    forall j: nat | j < |part|
      ensures !At(s, pat, j)
    {
      assert !At(short, pat, j);
      assert s[j..j + |pat|] == short[j..j + |pat|];
    }
    assert s[|part|..|part| + |pat|] == pat;
    FindIs(s, pat, |part|);
  }

  lemma NotClosing(pad: string, s: string)
    requires Blanks(pad)
    ensures !Starts(pad + (CRLF + s), "--")
  {
    if pad == "" {
      assert (pad + (CRLF + s))[0] == '\r';
    } else {
      assert pad[0] in pad && (pad + (CRLF + s))[0] == pad[0];
    }
    StartsChars(pad + (CRLF + s), "--");
  }

  /** One step over a framed part. */
  lemma StepOver(d: string, pad: string, part: string, rest: string, e: Entry)
    requires Blanks(pad) && Clear(part, d) && ReadPart(part) == Some(e) && Starts(rest, d)
    ensures var s := d + (pad + (CRLF + (part + (CRLF + rest))));
            && ReadStep(s, d) == Part(e, |d| + |pad| + 2 + |part| + 2)
            && s[|d| + |pad| + 2 + |part| + 2..] == rest
  {
    var t := part + (CRLF + rest);
    var behind := pad + (CRLF + t);
    var s := d + behind;
    assert s[..|d|] == d && s[|d|..] == behind;
    NotClosing(pad, t);
    SkipBlanks(pad, CRLF + t);
    assert (CRLF + t)[..2] == CRLF && (CRLF + t)[2..] == t && t[..|part|] == part;
    FindDelimiter(part, rest, d);
  }

  lemma StepToEnd(d: string, tail: string)
    ensures ReadStep(d + ("--" + tail), d) == if Closing(tail) then End else Fail
  {
    var s := d + ("--" + tail);
    assert s[..|d|] == d && s[|d|..] == "--" + tail && ("--" + tail)[..2] == "--" && s[|d| + 2..] == tail;
    EndIs(tail);
  }

  /** A framed body is read as its entries, whatever blanks follow its delimiters; only what stands
      behind the closing delimiter can spoil it. */
  lemma {:induction false} ReadsFrame(d: string, pads: seq<string>, parts: seq<string>, list: seq<Entry>, tail: string)
    requires Framing(d, pads, parts, list)
    ensures ReadParts(Frame(d, pads, parts, tail), d) == if Closing(tail) then Some(list) else None
    decreases |parts|
  {
    hide ReadStep, Clear, Closing, ReadPart;
    if list == [] {
      StepToEnd(d, tail);
    } else {
      var rest := Frame(d, pads[1..], parts[1..], tail);
      FrameStarts(d, pads[1..], parts[1..], tail);
      StepOver(d, pads[0], parts[0], rest, list[0]);
      ReadsFrame(d, pads[1..], parts[1..], list[1..], tail);
      assert list == [list[0]] + list[1..];
    }
  }

  /** What a step that reads a part has found. */
  lemma PartHasShape(s: string, d: string, e: Entry, used: nat) returns (pad: string, part: string)
    requires ReadStep(s, d) == Part(e, used)
    ensures Blanks(pad) && Clear(part, d) && ReadPart(part) == Some(e)
    ensures 0 < used <= |s| && s == d + (pad + (CRLF + (part + (CRLF + s[used..]))))
  {
    hide ReadBody, ReadPart, Clear;
    var behind := s[|d|..];
    assert s == d + behind;
    var rest;
    pad, part, rest := BodyHasShape(behind, d, |d|, e, used);
    assert s[used..] == rest;
  }

  lemma BodyHasShape(s: string, d: string, before: nat, e: Entry, used: nat) returns (pad: string, part: string, rest: string)
    requires ReadBody(s, d, before) == Part(e, used)
    ensures Blanks(pad) && Clear(part, d) && ReadPart(part) == Some(e)
    ensures s == pad + (CRLF + (part + (CRLF + rest))) && used == before + |pad| + 2 + |part| + 2
  {
    pad := Skipped(s);
    hide ReadPart, Find, SkipBlank, Clear;
    var u := SkipBlank(s)[2..];
    assert SkipBlank(s) == CRLF + u;
    var next := Find(u, CRLF + d).value;
    part := u[..next];
    rest := DelimiterFound(u, d, next);
    assert |s| - |SkipBlank(s)| == |pad|;
  }

  lemma DelimiterFound(u: string, d: string, next: nat) returns (rest: string)
    requires Find(u, CRLF + d) == Some(next)
    ensures next <= |u| && u == u[..next] + (CRLF + rest) && Clear(u[..next], d)
  {
    FindMeaning(u, CRLF + d);
    hide Find;
    ClearBefore(u, d, next);
    rest := u[next + 2..];
    assert u[next..next + 2] == u[next..next + 2 + |d|][..2] == CRLF;
  }

  lemma ClearBefore(u: string, d: string, next: nat)
    requires At(u, CRLF + d, next) && forall j: nat :: j < next ==> !At(u, CRLF + d, j)
    ensures next <= |u| && Clear(u[..next], d)
  {
    var short, pat := u[..next] + CRLF + d, CRLF + d;
    assert u[next..next + |pat|] == pat && short == u[..next + |pat|];
    forall k | 0 <= k < next
      ensures !At(short, pat, k)
    {
      assert !At(u, pat, k);
      assert short[k..k + |pat|] == u[k..k + |pat|];
    }
  }

  lemma EndOfFrame(s: string, d: string) returns (tail: string)
    requires ReadStep(s, d) == End
    ensures Closing(tail) && s == d + ("--" + tail)
  {
    tail := s[|d| + 2..];
    EndIs(tail);
    assert s[|d|..][..2] == "--";
    assert s == s[..|d|] + (s[|d|..][..2] + tail);
  }

  /** Only framed bodies are read. */
  lemma {:induction false} OnlyFramesAreRead(s: string, d: string, list: seq<Entry>)
    returns (pads: seq<string>, parts: seq<string>, tail: string)
    requires ReadParts(s, d) == Some(list)
    ensures Framing(d, pads, parts, list) && Closing(tail) && s == Frame(d, pads, parts, tail)
    decreases |s|
  {
    hide ReadStep, Clear, Closing, ReadPart;
    match ReadStep(s, d)
    case End =>
      tail := EndOfFrame(s, d);
      pads, parts := [], [];
    case Part(e, used) =>
      var pad, part := PartHasShape(s, d, e, used);
      var rest := ReadParts(s[used..], d).value;
      pads, parts, tail := OnlyFramesAreRead(s[used..], d, rest);
      FrameMore(d, pad, pads, part, parts, e, rest, tail);
      pads, parts := [pad] + pads, [part] + parts;
  }

  lemma FrameMore(d: string, pad: string, pads: seq<string>, part: string, parts: seq<string>,
                  e: Entry, list: seq<Entry>, tail: string)
    requires Framing(d, pads, parts, list) && Blanks(pad) && Clear(part, d) && ReadPart(part) == Some(e)
    ensures Framing(d, [pad] + pads, [part] + parts, [e] + list)
    ensures Frame(d, [pad] + pads, [part] + parts, tail) == d + (pad + (CRLF + (part + (CRLF + Frame(d, pads, parts, tail)))))
  {
    hide Clear, ReadPart, Blanks;
    assert ([pad] + pads)[1..] == pads && ([part] + parts)[1..] == parts;
  }

  ghost predicate FramedAs(s: string, d: string, list: seq<Entry>, pads: seq<string>, parts: seq<string>, tail: string) {
    Framing(d, pads, parts, list) && Closing(tail) && s == Frame(d, pads, parts, tail)
  }

  /** The language of forms: a body is read as a list of entries if and only if it is a frame around
      parts that are read as them. */
  lemma ReadsExactlyFrames(body: string, boundary: string, list: seq<Entry>)
    requires boundary != "" && body != ""
    ensures Parsing(body, boundary) == Some(list) <==> exists pads, parts, tail :: FramedAs(body, "--" + boundary, list, pads, parts, tail)
  {
    var d := "--" + boundary;
    if Parsing(body, boundary) == Some(list) {
      var pads, parts, tail := OnlyFramesAreRead(body, d, list);
      assert FramedAs(body, d, list, pads, parts, tail);
    }
    if pads, parts, tail :| FramedAs(body, d, list, pads, parts, tail) {
      ReadsFrame(d, pads, parts, list, tail);
    }
  }

  /** An empty body is an empty form, and without a boundary nothing is read. */
  lemma EmptyBody(body: string, boundary: string)
    ensures boundary != "" ==> Parsing("", boundary) == Some([])
    ensures Parsing(body, "") == None
    ensures boundary != "" && body != "" && !Starts(body, "--" + boundary) ==> Parsing(body, boundary) == None
  {
  }

  // ----- what does not matter -----

  lemma {:induction false} FrameEnds(d: string, pads: seq<string>, parts: seq<string>, tail: string) returns (front: string)
    requires |pads| == |parts|
    ensures forall other :: Frame(d, pads, parts, other) == front + "--" + other
    decreases |parts|
  {
    if parts == [] {
      front := d;
      assert forall other :: d + ("--" + other) == d + "--" + other;
    } else {
      var rest := FrameEnds(d, pads[1..], parts[1..], tail);
      var before := d + (pads[0] + (CRLF + (parts[0] + CRLF)));
      front := before + rest;
      forall other
        ensures Frame(d, pads, parts, other) == front + "--" + other
      {
        assert Frame(d, pads, parts, other) == before + (rest + "--" + other) == front + "--" + other;
      }
    }
  }

  /** What a body ends with tells what stands behind its closing delimiter. */
  lemma TailEnd(front: string, tail: string)
    requires Closing(tail)
    ensures var c := (front + "--" + tail)[|front + "--" + tail| - 1];
            || (tail == "" && c == '-')
            || (Blanks(tail) && tail != "" && Blank(c))
            || (|tail| >= 2 && c == '\n' && Blanks(tail[..|tail| - 2]) && tail[|tail| - 2..] == CRLF)
  {
    var s := front + "--" + tail;
    if tail == "" {
      assert s[|s| - 1] == '-';
    } else {
      assert s[|s| - 1] == tail[|tail| - 1] && tail[|tail| - 1] in tail;
      if !Blanks(tail) {
        assert tail[|tail| - 1] == tail[|tail| - 2..][1];
      }
    }
  }

  lemma WithoutBreak(front: string, tail: string, v: string)
    requires Closing(tail) && front + "--" + tail == v + "--" + CRLF
    ensures |tail| >= 2 && Closing(tail[..|tail| - 2]) && front + "--" + tail[..|tail| - 2] == v + "--"
  {
    var s := front + "--" + tail;
    assert s[|s| - 1] == '\n';
    TailEnd(front, tail);
    assert front + "--" + tail[..|tail| - 2] == s[..|s| - 2] == v + "--";
  }

  lemma WithBreak(front: string, tail: string, v: string)
    requires Closing(tail) && front + "--" + tail == v + "--"
    ensures Closing(tail + CRLF) && front + "--" + (tail + CRLF) == v + "--" + CRLF
  {
    var s := front + "--" + tail;
    assert s[|s| - 1] == '-';
    TailEnd(front, tail);
    assert (tail + CRLF)[..0] == "" && (tail + CRLF)[0..] == CRLF;
    assert front + "--" + (tail + CRLF) == front + "--" + tail + CRLF;
  }

  /** The last line break of a body that ends with two hyphens does not matter. */
  lemma LastBreakIsOptional(v: string, d: string)
    ensures ReadParts(v + "--" + CRLF, d) == ReadParts(v + "--", d)
  {
    hide ReadParts, Closing;
    var long, short := v + "--" + CRLF, v + "--";
    if ReadParts(long, d).Some? {
      var list := ReadParts(long, d).value;
      var pads, parts, tail := OnlyFramesAreRead(long, d, list);
      var front := FrameEnds(d, pads, parts, tail);
      WithoutBreak(front, tail, v);
      ReadsFrameTo(d, pads, parts, list, tail[..|tail| - 2]);
    } else if ReadParts(short, d).Some? {
      var list := ReadParts(short, d).value;
      var pads, parts, tail := OnlyFramesAreRead(short, d, list);
      var front := FrameEnds(d, pads, parts, tail);
      WithBreak(front, tail, v);
      ReadsFrameTo(d, pads, parts, list, tail + CRLF);
    }
  }

  lemma ReadsFrameTo(d: string, pads: seq<string>, parts: seq<string>, list: seq<Entry>, tail: string)
    requires Framing(d, pads, parts, list) && Closing(tail)
    ensures ReadParts(Frame(d, pads, parts, tail), d) == Some(list)
  {
    ReadsFrame(d, pads, parts, list, tail);
  }

  lemma {:induction false} EncodingEnds(list: seq<Entry>, boundary: string) returns (v: string)
    ensures Encoding(list, boundary) == v + "--" + CRLF
  {
    if list == [] {
      v := "--" + boundary;
    } else {
      var rest := EncodingEnds(list[1..], boundary);
      v := EntryText(list[0], boundary) + rest;
      assert EntryText(list[0], boundary) + (rest + "--" + CRLF) == v + "--" + CRLF;
    }
  }

  /** For every list, framed or not: a form without its last line break is read as the form. */
  lemma EncodingWithoutBreak(list: seq<Entry>, boundary: string)
    requires boundary != ""
    ensures |Encoding(list, boundary)| > 2
    ensures Parsing(Encoding(list, boundary)[..|Encoding(list, boundary)| - 2], boundary) == Parsing(Encoding(list, boundary), boundary)
  {
    hide ReadParts, Encoding;
    var v := EncodingEnds(list, boundary);
    var s := Encoding(list, boundary);
    assert s[..|s| - 2] == v + "--";
    LastBreakIsOptional(v, "--" + boundary);
  }

  /** Blanks behind a delimiter change nothing, unless they part it from two hyphens: those no longer
      close the body then. */
  lemma BlanksBehindDelimiter(d: string, pad: string, s: string)
    requires Blanks(pad)
    ensures !Starts(s, "--") ==> ReadParts(d + (pad + s), d) == ReadParts(d + s, d)
    ensures Starts(s, "--") && pad != "" ==> ReadParts(d + (pad + s), d) == None
  {
    var padded, plain := d + (pad + s), d + s;
    assert padded[..|d|] == d && padded[|d|..] == pad + s && plain[..|d|] == d && plain[|d|..] == s;
    if pad == "" {
      assert pad + s == s;
    } else {
      assert pad[0] in pad && (pad + s)[0] == pad[0];
      StartsChars(pad + s, "--");
      var skip := Skipped(s);
      var t := SkipBlank(s);
      SkipMore(pad, skip, t, s);
      if Starts(s, "--") {
        StartsChars(s, "--");
        StartsChars(t, CRLF);
      } else {
        SameBody(d, pad, s);
      }
    }
  }

  lemma SkipMore(pad: string, skip: string, t: string, s: string)
    requires Blanks(pad) && Blanks(skip) && s == skip + t && (t == "" || !Blank(t[0]))
    ensures SkipBlank(pad + s) == t == SkipBlank(s)
  {
    assert pad + s == (pad + skip) + t;
    SkipBlanks(pad + skip, t);
    SkipBlanks(skip, t);
  }

  /** What is read of s from its first step on. */
  function After(step: Step, s: string, d: string): Option<seq<Entry>> {
    match step
    case Fail => None
    case End => Some([])
    case Part(e, used) => if used <= |s| then Prepend([e], ReadParts(s[used..], d)) else None
  }

  function Later(step: Step, n: nat): Step {
    match step case Part(e, used) => Part(e, used + n) case other => other
  }

  lemma BehindDelimiter(d: string, s: string)
    requires !Starts(s, "--")
    ensures ReadParts(d + s, d) == After(ReadBody(s, d, |d|), d + s, d)
  {
    hide ReadBody;
    assert (d + s)[..|d|] == d && (d + s)[|d|..] == s;
    assert ReadStep(d + s, d) == ReadBody(s, d, |d|);
  }

  lemma SameBody(d: string, pad: string, s: string)
    requires SkipBlank(pad + s) == SkipBlank(s) && !Starts(s, "--") && !Starts(pad + s, "--")
    ensures ReadParts(d + (pad + s), d) == ReadParts(d + s, d)
  {
    BehindDelimiter(d, s);
    BehindDelimiter(d, pad + s);
    LaterBody(pad, s, d);
    hide ReadBody, ReadParts, After, Later, SkipBlank, Starts;
    SameAfter(ReadBody(s, d, |d|), d, pad, s);
  }

  lemma SameAfter(step: Step, d: string, pad: string, s: string)
    requires step.Part? ==> |d| <= step.used
    ensures After(Later(step, |pad|), d + (pad + s), d) == After(step, d + s, d)
  {
    hide ReadParts;
    if step.Part? && step.used <= |d + s| {
      assert (d + (pad + s))[step.used + |pad|..] == (d + s)[step.used..];
    }
  }

  lemma LaterBody(pad: string, s: string, d: string)
    requires SkipBlank(pad + s) == SkipBlank(s)
    ensures ReadBody(pad + s, d, |d|) == Later(ReadBody(s, d, |d|), |pad|)
  {
    hide ReadPart, Find, SkipBlank, Starts;
  }

  // ----- header lines in any letter case -----

  /** A header line counts by its name in lower case and its value behind the blanks. */
  lemma HeaderLine(name: string, pad: string, value: string, h: Headers)
    requires ':' !in name && Blanks(pad) && (value == "" || !Blank(value[0]))
    ensures ReadLine(name + (":" + (pad + value)), h)
            == if Lower(name) == "content-disposition" then h.(disposition := value)
               else if Lower(name) == "content-type" then h.(mime := value)
               else h
  {
    SplitAtColon(name, pad + value);
    SkipBlanks(pad, value);
  }

  /** Header lines, each but the last ended by a line break. */
  function Lined(lines: seq<string>): string {
    if lines == [] then "" else if |lines| == 1 then lines[0] else lines[0] + CRLF + Lined(lines[1..])
  }

  ghost function ReadAll(lines: seq<string>, h: Headers): Headers
    decreases |lines|
  {
    if lines == [] then h else ReadAll(lines[1..], ReadLine(lines[0], h))
  }

  lemma FirstLine(line: string, rest: string, h: Headers)
    requires !Contains(line, CRLF)
    ensures ReadHeaders(line + CRLF + rest, h) == ReadHeaders(rest, ReadLine(line, h))
  {
    hide ReadLine;
    FindLine(line, rest, "");
    assert CRLF + "" == CRLF && rest[..0] == "";
    assert (line + CRLF + rest)[..|line|] == line && (line + CRLF + rest)[|line| + 2..] == rest;
  }

  /** The headers are read line by line, in order. */
  lemma {:induction false} HeadersLineByLine(lines: seq<string>, h: Headers)
    requires lines != [] && forall line :: line in lines ==> !Contains(line, CRLF)
    ensures ReadHeaders(Lined(lines), h) == ReadAll(lines, h)
    decreases |lines|
  {
    hide ReadLine;
    assert lines[0] in lines;
    if |lines| == 1 {
      FreeIsUnfound(lines[0], CRLF);
    } else {
      FirstLine(lines[0], Lined(lines[1..]), h);
      HeadersLineByLine(lines[1..], ReadLine(lines[0], h));
    }
  }

  /** The same header: the name may differ in letter case, and the blanks before the value may too. */
  ghost predicate SameHeader(a: string, b: string) {
    a == b || exists m, n, p, q, value :: SpeltAs(a, m, p, value) && SpeltAs(b, n, q, value) && Lower(m) == Lower(n)
  }

  ghost predicate SpeltAs(line: string, name: string, pad: string, value: string) {
    line == name + (":" + (pad + value)) && ':' !in name && Blanks(pad) && (value == "" || !Blank(value[0]))
  }

  lemma SameHeaderReadsSame(a: string, b: string, h: Headers)
    requires SameHeader(a, b)
    ensures ReadLine(a, h) == ReadLine(b, h)
  {
    if a != b {
      var m, n, p, q, value :| SpeltAs(a, m, p, value) && SpeltAs(b, n, q, value) && Lower(m) == Lower(n);
      HeaderLine(m, p, value, h);
      HeaderLine(n, q, value, h);
    }
  }

  lemma {:induction false} ReadAllSame(a: seq<string>, b: seq<string>, h: Headers)
    requires |a| == |b| && forall k :: 0 <= k < |a| ==> SameHeader(a[k], b[k])
    ensures ReadAll(a, h) == ReadAll(b, h)
    decreases |a|
  {
    hide ReadLine, SameHeader;
    if a != [] {
      SameHeaderReadsSame(a[0], b[0], h);
      ReadAllSame(a[1..], b[1..], ReadLine(a[0], h));
    }
  }

  /** Header names are read the same in any letter case, in every part. */
  lemma HeaderCase(a: seq<string>, b: seq<string>, h: Headers)
    requires |a| == |b| > 0 && forall k :: 0 <= k < |a| ==> SameHeader(a[k], b[k])
    requires (forall line :: line in a ==> !Contains(line, CRLF)) && forall line :: line in b ==> !Contains(line, CRLF)
    ensures ReadHeaders(Lined(a), h) == ReadHeaders(Lined(b), h)
  {
    hide SameHeader;
    HeadersLineByLine(a, h);
    HeadersLineByLine(b, h);
    ReadAllSame(a, b, h);
  }

  // ----- the forms that the encoder writes, loosely -----

  function PartsOf(list: seq<Entry>): seq<string> {
    seq(|list|, k requires 0 <= k < |list| => PartText(list[k]))
  }

  lemma {:induction false} NormalAt(list: seq<Entry>, k: nat)
    requires k < |list|
    ensures |NormalList(list)| == |list| && NormalList(list)[k] == Normal(list[k])
  {
    if |list| > 1 {
      NormalAt(list[1..], if k == 0 then 0 else k - 1);
    }
  }

  lemma WrittenPartIsClear(e: Entry, boundary: string)
    requires GoodBoundary(boundary) && Framed(e, boundary)
    ensures Clear(PartText(e), "--" + boundary)
  {
    hide PartText, Framed, Find;
    var d := "--" + boundary;
    assert d[..|d|] == d;
    FindNextDelimiter(e, boundary, d);
    FindMeaning(PartText(e) + CRLF + d, CRLF + d);
  }

  /** The parts of a written form keep their meaning in any frame: blanks behind the delimiters and a
      missing or spaced last line change nothing, and anything else behind the closing delimiter is an
      error. */
  lemma LooseForm(list: seq<Entry>, boundary: string, pads: seq<string>, tail: string)
    requires GoodBoundary(boundary) && forall e :: e in list ==> Framed(e, boundary)
    requires |pads| == |list| && forall pad :: pad in pads ==> Blanks(pad)
    ensures Parsing(Frame("--" + boundary, pads, PartsOf(list), tail), boundary) == if Closing(tail) then Some(NormalList(list)) else None
  {
    hide PartText, Framed, Clear, Blanks, Closing, Normal, ReadPart, NormalList;
    var d, parts := "--" + boundary, PartsOf(list);
    if list == [] {
      NormalNothing();
    }
    forall k | 0 <= k < |list|
      ensures |NormalList(list)| == |list| && Blanks(pads[k]) && Clear(parts[k], d) && ReadPart(parts[k]) == Some(NormalList(list)[k])
    {
      assert list[k] in list && pads[k] in pads;
      WrittenPartIsClear(list[k], boundary);
      FramedUnbroken(list[k], boundary);
      ReadWrittenPart(list[k]);
      NormalAt(list, k);
    }
    FrameStarts(d, pads, parts, tail);
    ReadsFrame(d, pads, parts, NormalList(list), tail);
  }

  lemma NormalNothing()
    ensures NormalList([]) == []
  {
  }

  lemma FramedUnbroken(e: Entry, boundary: string)
    requires Framed(e, boundary)
    ensures UnbrokenHeaders(e)
  {
  }

  // ----- parameters, however they are written -----

  lemma {:induction false} BareIs(value: string, rest: string)
    requires (forall c :: c in value ==> !EndsBare(c)) && (rest == "" || EndsBare(rest[0]))
    ensures Bare(value + rest) == value
  {
    if value == "" {
      assert value + rest == rest;
    } else {
      assert value[0] in value && (value + rest)[1..] == value[1..] + rest;
      BareIs(value[1..], rest);
    }
  }

  /** A parameter without quotes goes up to the first semicolon, space or line break. */
  lemma BareParam(s: string, key: string, before: nat, value: string, rest: string)
    requires Find(s, key + "=") == Some(before) && s[before + |key| + 1..] == value + rest
    requires (forall c :: c in value ==> c !in {';', ' ', '\r', '\n'}) && (rest == "" || rest[0] in {';', ' ', '\r', '\n'})
    requires value == "" || value[0] != '"'
    ensures Param(s, key) == value
  {
    BareIs(value, rest);
    assert value != "" ==> (value + rest)[0] == value[0];
    assert value == "" ==> value + rest == rest;
  }

  /** In a quoted parameter a backslash stands for the character behind it, whichever that is. */
  lemma EscapedChar(c: char, t: string)
    ensures Unquoted("\\" + ([c] + t)) == [c] + Unquoted(t)
  {
    var s := "\\" + ([c] + t);
    assert s[2..] == t && s[1] == c;
  }

  lemma {:induction false} UntilEndIs(value: string, rest: string)
    requires (forall c :: c in value ==> !EndsBoundary(c)) && (rest == "" || EndsBoundary(rest[0]))
    ensures UntilEnd(value + rest) == value
  {
    if value == "" {
      assert value + rest == rest;
    } else {
      assert value[0] in value && (value + rest)[1..] == value[1..] + rest;
      UntilEndIs(value[1..], rest);
    }
  }

  lemma OnlyLast(i: nat)
    requires i < 8
    ensures "boundary="[i] != '=' && "boundary="[8] == '='
  {
  }

  /** No occurrence of the key begins before it and ends inside it. */
  lemma FindKey(head: string, tail: string)
    requires !Contains(head, "boundary=")
    ensures Find(head + ("boundary=" + tail), "boundary=") == Some(|head|)
  {
    var key, s := "boundary=", head + ("boundary=" + tail);
    forall j: nat | j < |head|
      ensures !At(s, key, j)
    {
      if j + 9 <= |head| {
        assert !At(head, key, j);
        assert s[j..j + 9] == head[j..j + 9];
      } else {
        AtChars(s, key, j);
        OnlyLast(j + 8 - |head|);
        assert s[j + 8] == key[j + 8 - |head|];
      }
    }
    assert s[|head|..|head| + 9] == key;
    FindIs(s, key, |head|);
  }

  /** The boundary is found whatever parameters precede it, its name in any letter case, quoted or not,
      and it ends at the first quote, semicolon, space or line break. */
  lemma BoundaryIs(head: string, key: string, value: string, rest: string)
    requires !Contains(Lower(head), "boundary=") && Lower(key) == "boundary="
    requires (forall c :: c in value ==> c !in {';', '"', ' ', '\r', '\n'})
    requires rest == "" || rest[0] in {';', '"', ' ', '\r', '\n'}
    ensures Boundary(head + (key + ("\"" + (value + rest)))) == value
    ensures value != "" ==> Boundary(head + (key + (value + rest))) == value
  {
    hide Find, Lower, UntilEnd, Contains;
    BoundaryAt(head, key, "\"" + (value + rest));
    BoundaryAt(head, key, value + rest);
    UntilEndIs(value, rest);
    assert ("\"" + (value + rest))[1..] == value + rest;
    if value != "" {
      assert value[0] in value && (value + rest)[0] == value[0];
    }
  }

  lemma BoundaryAt(head: string, key: string, t: string)
    requires !Contains(Lower(head), "boundary=") && Lower(key) == "boundary="
    ensures Boundary(head + (key + t)) == UntilEnd(if t != [] && t[0] == '"' then t[1..] else t)
  {
    hide Find, UntilEnd, Contains;
    var s := head + (key + t);
    assert |key| == |Lower(key)| == 9 && |Lower(head)| == |head|;
    LowerConcat(head, key + t);
    LowerConcat(key, t);
    FindKey(Lower(head), Lower(t));
    assert s[|head| + 9..] == t;
  }
}
