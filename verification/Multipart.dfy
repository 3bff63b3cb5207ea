/** multipart/form-data: writing a list of entries and reading it back. */
module Multipart {
  import opened Basics
  import opened Text

  /** One entry of a form; a blob entry has a type and a file name, a string entry has neither. */
  datatype Entry = Entry(name: string, bytes: string, mime: string, filename: string, isBlob: bool)

  // ----- writing -----

  predicate Quoted(c: char) {
    c == '"' || c == '\\'
  }

  function EscapeChar(c: char): string {
    if Quoted(c) then ['\\', c] else [c]
  }

  function Escape(s: string): string {
    if s == [] then [] else EscapeChar(s[0]) + Escape(s[1..])
  }

  method EscapeText(s: string) returns (r: string)
    ensures r == Escape(s)
  {
    r := [];
    assert s[0..] == s;
    for i := 0 to |s|
      invariant r + Escape(s[i..]) == Escape(s)
    {
      assert s[i..][1..] == s[i + 1..];
      r := PushEscaped(r, s[i], Escape(s[i + 1..]));
    }
  }

  method PushEscaped(out: string, c: char, ghost rest: string) returns (r: string)
    ensures r + rest == out + (EscapeChar(c) + rest)
  {
    r := out;
    if c == '"' || c == '\\' {
      r := r + ['\\'];
    }
    r := r + [c];
    assert r == out + EscapeChar(c);
  }

  function Disposition(e: Entry): string {
    "form-data; name=\"" + Escape(e.name) + "\"" + if e.isBlob then "; filename=\"" + Escape(e.filename) + "\"" else ""
  }

  predicate HasTypeLine(e: Entry) {
    e.isBlob && e.mime != []
  }

  /** The header lines of an entry, without the empty line that ends them. */
  function HeaderText(e: Entry): string {
    "Content-Disposition: " + Disposition(e) + CRLF + if HasTypeLine(e) then "Content-Type: " + e.mime + CRLF else ""
  }

  function PartText(e: Entry): string {
    HeaderText(e) + CRLF + e.bytes
  }

  function EntryText(e: Entry, boundary: string): string {
    "--" + boundary + CRLF + PartText(e) + CRLF
  }

  function Encoding(list: seq<Entry>, boundary: string): string {
    if list == [] then "--" + boundary + "--" + CRLF
    else EntryText(list[0], boundary) + Encoding(list[1..], boundary)
  }

  method EncodeMultipart(list: seq<Entry>, boundary: string) returns (out: string)
    ensures out == Encoding(list, boundary)
  {
    out := [];
    assert list[0..] == list;
    for i := 0 to |list|
      invariant out + Encoding(list[i..], boundary) == Encoding(list, boundary)
    {
      assert list[i..][1..] == list[i + 1..];
      out := PushEntry(out, list[i], boundary, Encoding(list[i + 1..], boundary));
    }
    out := out + ("--" + boundary + "--" + CRLF);
  }

  method PushEntry(out: string, e: Entry, boundary: string, ghost rest: string) returns (r: string)
    ensures r + rest == out + (EntryText(e, boundary) + rest)
  {
    var text := "--" + boundary + CRLF;
    ghost var head := text;
    var name := EscapeText(e.name);
    var disposition := "form-data; name=\"" + name + "\"";
    if e.isBlob {
      var filename := EscapeText(e.filename);
      disposition := disposition + ("; filename=\"" + filename + "\"");
    }
    assert disposition == Disposition(e);
    var header := "Content-Disposition: " + disposition + CRLF;
    if e.isBlob && e.mime != [] {
      header := header + ("Content-Type: " + e.mime + CRLF);
    }
    assert header == HeaderText(e);
    var part := header + CRLF + e.bytes;
    text := text + part + CRLF;
    r := out + text;
  }

  // ----- reading one parameter -----

  /** The text up to the closing quote, with escapes undone. */
  function Unquoted(t: string): string {
    if t == [] || t[0] == '"' then []
    else if t[0] == '\\' && |t| > 1 then [t[1]] + Unquoted(t[2..])
    else [t[0]] + Unquoted(t[1..])
  }

  predicate EndsBare(c: char) {
    c == ';' || c == ' ' || c == '\r' || c == '\n'
  }

  function Bare(t: string): string {
    if t == [] || EndsBare(t[0]) then [] else [t[0]] + Bare(t[1..])
  }

  function Param(s: string, key: string): string {
    var k := key + "=";
    match Find(s, k)
    case None => ""
    case Some(p) =>
      var t := s[p + |k|..];
      if t != [] && t[0] == '"' then Unquoted(t[1..]) else Bare(t)
  }

  method ParseDispositionParam(s: string, key: string) returns (r: string)
    ensures r == Param(s, key)
  {
    var k := key + "=";
    var found := Find(s, k);
    if found.None? {
      return "";
    }
    var i := found.value + |k|;
    ghost var t := s[i..];
    if i < |s| && s[i] == '"' {
      assert s[i + 1..] == t[1..];
      r := ReadQuoted(s, i + 1);
    } else {
      r := ReadBare(s, i);
    }
  }

  method ReadQuoted(s: string, from: nat) returns (out: string)
    requires from <= |s|
    ensures out == Unquoted(s[from..])
  {
    out := [];
    var i := from;
    while i < |s| && s[i] != '"'
      invariant from <= i <= |s| && out + Unquoted(s[i..]) == Unquoted(s[from..])
    {
      UnquotedStep(out, s, i);
      if s[i] == '\\' && i + 1 < |s| {
        i := i + 1;
      }
      out := out + [s[i]];
      i := i + 1;
    }
  }

  lemma UnquotedStep(out: string, s: string, i: nat)
    requires i < |s| && s[i] != '"'
    ensures out + Unquoted(s[i..])
            == if s[i] == '\\' && i + 1 < |s| then out + [s[i + 1]] + Unquoted(s[i + 2..])
               else out + [s[i]] + Unquoted(s[i + 1..])
  {
    assert s[i..][1..] == s[i + 1..];
    if i + 1 < |s| {
      assert s[i..][2..] == s[i + 2..];
    }
  }

  lemma BareStep(s: string, from: nat, e: nat)
    requires from <= e <= |s|
    ensures if e < |s| && !EndsBare(s[e]) then s[from..e] + Bare(s[e..]) == s[from..e + 1] + Bare(s[e + 1..])
            else Bare(s[e..]) == []
  {
    if e < |s| {
      assert s[e..][1..] == s[e + 1..];
    }
  }

  method ReadBare(s: string, from: nat) returns (r: string)
    requires from <= |s|
    ensures r == Bare(s[from..])
  {
    hide Bare;
    var e := from;
    BareStep(s, from, e);
    while e < |s| && !EndsBare(s[e])
      invariant from <= e <= |s| && s[from..e] + Bare(s[e..]) == Bare(s[from..])
    {
      BareStep(s, from, e);
      e := e + 1;
    }
    BareStep(s, from, e);
    r := s[from..e];
  }

  // ----- reading the headers of a part -----

  datatype Headers = Headers(disposition: string, mime: string)

  function ReadLine(line: string, h: Headers): Headers {
    match Find(line, ":")
    case None => h
    case Some(colon) =>
      var name, value := Lower(line[..colon]), SkipBlank(line[colon + 1..]);
      if name == "content-disposition" then h.(disposition := value)
      else if name == "content-type" then h.(mime := value)
      else h
  }

  function ReadHeaders(text: string, h: Headers): Headers {
    match Find(text, CRLF)
    case None => ReadLine(text, h)
    case Some(nl) => ReadHeaders(text[nl + 2..], ReadLine(text[..nl], h))
  }

  method ParseHeaders(text: string) returns (h: Headers)
    ensures h == ReadHeaders(text, Headers("", ""))
  {
    h := Headers("", "");
    ghost var all := ReadHeaders(text, h);
    var hs, more := 0, true;
    assert text[0..] == text;
    while more
      invariant hs <= |text| && if more then ReadHeaders(text[hs..], h) == all else h == all
      decreases more, |text| - hs
    {
      h, hs, more := ParseHeader(text, hs, h);
    }
  }

  /** One line; more says whether a line break ended it. */
  method ParseHeader(text: string, hs: nat, h: Headers) returns (r: Headers, next: nat, more: bool)
    requires hs <= |text|
    ensures if more then hs < next <= |text| && ReadHeaders(text[next..], r) == ReadHeaders(text[hs..], h)
            else next == hs && r == ReadHeaders(text[hs..], h)
  {
    hide ReadHeaders, ReadLine, Find;
    HeaderStep(text, hs, h);
    var nl := Find(text[hs..], CRLF);
    if nl.None? {
      r := ParseLine(text[hs..], h);
      return r, hs, false;
    }
    r := ParseLine(text[hs..hs + nl.value], h);
    return r, hs + nl.value + 2, true;
  }

  lemma HeaderStep(text: string, hs: nat, h: Headers)
    requires hs <= |text|
    ensures match Find(text[hs..], CRLF)
            case None => ReadHeaders(text[hs..], h) == ReadLine(text[hs..], h)
            case Some(nl) =>
              && hs + nl + 2 <= |text|
              && ReadHeaders(text[hs..], h) == ReadHeaders(text[hs + nl + 2..], ReadLine(text[hs..hs + nl], h))
  {
    hide ReadLine, Find;
    var nl := Find(text[hs..], CRLF);
    if nl.Some? {
      assert text[hs..][..nl.value] == text[hs..hs + nl.value];
      assert text[hs..][nl.value + 2..] == text[hs + nl.value + 2..];
    }
  }

  method ParseLine(line: string, h: Headers) returns (r: Headers)
    ensures r == ReadLine(line, h)
  {
    r := h;
    var colon := Find(line, ":");
    if colon.Some? {
      var name := line[..colon.value];
      var value := line[colon.value + 1..];
      while value != [] && Blank(value[0])
        invariant SkipBlank(value) == SkipBlank(line[colon.value + 1..])
      {
        value := value[1..];
      }
      name := ToLower(name);
      if name == "content-disposition" {
        r := r.(disposition := value);
      } else if name == "content-type" {
        r := r.(mime := value);
      }
    }
  }

  // ----- reading a part -----

  const BOM: string := "\U{EF}\U{BB}\U{BF}"

  function WithoutBom(s: string): string {
    if Starts(s, BOM) then s[3..] else s
  }

  function MakeEntry(h: Headers, data: string): Entry {
    var name, filename := Param(h.disposition, "name"), Param(h.disposition, "filename");
    if filename != "" || h.mime != "" then Entry(name, data, h.mime, filename, true)
    else Entry(name, WithoutBom(data), "", filename, false)
  }

  function ReadPart(part: string): Option<Entry> {
    match Find(part, CRLF + CRLF)
    case None => None
    case Some(end) => Some(MakeEntry(ReadHeaders(part[..end], Headers("", "")), part[end + 4..]))
  }

  method StripBom(data: string) returns (r: string)
    ensures r == WithoutBom(data)
  {
    r := data;
    if |data| >= 3 && data[0] == '\U{EF}' && data[1] == '\U{BB}' && data[2] == '\U{BF}' {
      r := data[3..];
    }
  }

  method ParsePart(part: string) returns (r: Option<Entry>)
    ensures r == ReadPart(part)
  {
    var end := Find(part, CRLF + CRLF);
    if end.None? {
      return None;
    }
    var data := part[end.value + 4..];
    var h := ParseHeaders(part[..end.value]);
    var name := ParseDispositionParam(h.disposition, "name");
    var filename := ParseDispositionParam(h.disposition, "filename");
    if filename != "" || h.mime != "" {
      r := Some(Entry(name, data, h.mime, filename, true));
    } else {
      data := StripBom(data);
      r := Some(Entry(name, data, "", filename, false));
    }
  }

  // ----- reading the body -----

  /** What stands at the start of a body: nothing valid, the end, or a part and `used` characters up
      to the next delimiter. */
  datatype Step = Fail | End | Part(entry: Entry, used: nat)

  function ReadEnd(s: string): Step {
    var t := SkipBlank(s);
    if (if Starts(t, CRLF) then t[2..] else t) == [] then End else Fail
  }

  /** s follows a delimiter, and `used` characters were read before it. */
  function ReadBody(s: string, delim: string, used: nat): (r: Step)
    ensures r.Part? ==> used < r.used <= used + |s|
  {
    var t := SkipBlank(s);
    SkipBlankLength(s);
    if !Starts(t, CRLF) then Fail
    else
      match Find(t[2..], CRLF + delim)
      case None => Fail
      case Some(next) =>
        match ReadPart(t[2..][..next])
        case None => Fail
        case Some(e) => Part(e, used + |s| - |t| + 2 + next + 2)
  }

  function ReadStep(s: string, delim: string): (r: Step)
    ensures r.Part? ==> 0 < r.used <= |s|
  {
    if !Starts(s, delim) then Fail
    else if Starts(s[|delim|..], "--") then ReadEnd(s[|delim| + 2..])
    else ReadBody(s[|delim|..], delim, |delim|)
  }

  function Prepend(list: seq<Entry>, r: Option<seq<Entry>>): Option<seq<Entry>> {
    if r.None? then None else Some(list + r.value)
  }

  function ReadParts(s: string, delim: string): Option<seq<Entry>>
    decreases |s|
  {
    match ReadStep(s, delim)
    case Fail => None
    case End => Some([])
    case Part(e, used) => Prepend([e], ReadParts(s[used..], delim))
  }

  function Parsing(body: string, boundary: string): Option<seq<Entry>> {
    if boundary == "" then None
    else if body == "" then Some([])
    else ReadParts(body, "--" + boundary)
  }

  method SkipPadding(body: string, from: nat) returns (p: nat)
    requires from <= |body|
    ensures from <= p <= |body| && body[p..] == SkipBlank(body[from..])
  {
    p := from;
    while p < |body| && (body[p] == ' ' || body[p] == '\t')
      invariant from <= p <= |body| && SkipBlank(body[p..]) == SkipBlank(body[from..])
    {
      assert body[p..][1..] == body[p + 1..];
      p := p + 1;
    }
  }

  lemma AtIsStarts(s: string, pat: string, k: nat)
    requires k <= |s|
    ensures At(s, pat, k) == Starts(s[k..], pat)
    ensures At(s, pat, k) ==> s[k..][|pat|..] == s[k + |pat|..]
  {
    if k + |pat| <= |s| {
      assert s[k..][..|pat|] == s[k..k + |pat|];
    }
  }

  method ParseEnd(body: string, from: nat) returns (ok: bool)
    requires from <= |body|
    ensures ReadEnd(body[from..]) == if ok then End else Fail
  {
    var pos := SkipPadding(body, from);
    AtIsStarts(body, CRLF, pos);
    if At(body, CRLF, pos) {
      pos := pos + 2;
    }
    ok := pos == |body|;
  }

  method ParseBody(body: string, start: nat, from: nat, delim: string) returns (r: Step)
    requires start <= from <= |body|
    ensures r == ReadBody(body[from..], delim, from - start)
  {
    var pos := SkipPadding(body, from);
    AtIsStarts(body, CRLF, pos);
    if !At(body, CRLF, pos) {
      return Fail;
    }
    pos := pos + 2;
    var next := Find(body[pos..], CRLF + delim);
    if next.None? {
      return Fail;
    }
    assert body[pos..][..next.value] == body[pos..pos + next.value];
    var e := ParsePart(body[pos..pos + next.value]);
    if e.None? {
      return Fail;
    }
    r := Part(e.value, pos + next.value + 2 - start);
  }

  method ParseStep(body: string, start: nat, delim: string) returns (r: Step)
    requires start <= |body|
    ensures r == ReadStep(body[start..], delim)
  {
    hide ReadEnd, ReadBody, Starts;
    AtIsStarts(body, delim, start);
    if !At(body, delim, start) {
      return Fail;
    }
    var pos := start + |delim|;
    AtIsStarts(body, "--", pos);
    if At(body, "--", pos) {
      var ok := ParseEnd(body, pos + 2);
      assert body[start..][|delim| + 2..] == body[pos + 2..];
      return if ok then End else Fail;
    }
    r := ParseBody(body, start, pos, delim);
  }

  method ParseMultipart(body: string, boundary: string) returns (r: Option<seq<Entry>>)
    ensures r == Parsing(body, boundary)
  {
    if boundary == "" {
      return None;
    }
    if body == "" {
      return Some([]);
    }
    r := ParseParts(body, "--" + boundary);
  }

  method ParseParts(body: string, delim: string) returns (r: Option<seq<Entry>>)
    ensures r == ReadParts(body, delim)
  {
    hide ReadParts;
    var list: seq<Entry> := [];
    var pos := 0;
    ghost var all := ReadParts(body, delim);
    ghost var left := all;
    assert body[0..] == body;
    PrependNothing(list, left);
    while true
      invariant pos <= |body| && left == ReadParts(body[pos..], delim)
      invariant Prepend(list, left) == all
      decreases |body| - pos
    {
      var step, rest := TakeStep(body, pos, delim, left);
      if step.Fail? {
        return None;
      }
      if step.End? {
        PrependNothing(list, left);
        return Some(list);
      }
      PrependOne(list, step.entry, rest);
      list := list + [step.entry];
      pos, left := pos + step.used, rest;
    }
  }

  method TakeStep(body: string, pos: nat, delim: string, ghost left: Option<seq<Entry>>)
    returns (step: Step, ghost rest: Option<seq<Entry>>)
    requires pos <= |body| && left == ReadParts(body[pos..], delim)
    ensures step.Fail? ==> left == None
    ensures step.End? ==> left == Some([])
    ensures step.Part? ==> pos < pos + step.used <= |body| && rest == ReadParts(body[pos + step.used..], delim)
                           && left == Prepend([step.entry], rest)
  {
    step := ParseStep(body, pos, delim);
    rest := None;
    if step.Part? {
      rest := ReadParts(body[pos + step.used..], delim);
      assert body[pos..][step.used..] == body[pos + step.used..];
    }
  }

  lemma PrependNothing(list: seq<Entry>, r: Option<seq<Entry>>)
    ensures list == [] ==> Prepend(list, r) == r
    ensures r == Some([]) ==> Prepend(list, r) == Some(list)
  {
    if r.Some? && list == [] {
      assert list + r.value == r.value;
    }
    assert list + [] == list;
  }

  lemma PrependOne(list: seq<Entry>, e: Entry, r: Option<seq<Entry>>)
    ensures Prepend(list, Prepend([e], r)) == Prepend(list + [e], r)
  {
    if r.Some? {
      assert list + ([e] + r.value) == list + [e] + r.value;
    }
  }

  // ----- the boundary parameter of a content type -----

  predicate EndsBoundary(c: char) {
    c == ';' || c == '"' || c == ' ' || c == '\r' || c == '\n'
  }

  function UntilEnd(t: string): string {
    if t == [] || EndsBoundary(t[0]) then [] else [t[0]] + UntilEnd(t[1..])
  }

  function Boundary(contentType: string): string {
    match Find(Lower(contentType), "boundary=")
    case None => ""
    case Some(p) =>
      var t := contentType[p + 9..];
      UntilEnd(if t != [] && t[0] == '"' then t[1..] else t)
  }

  method ExtractBoundary(contentType: string) returns (r: string)
    ensures r == Boundary(contentType)
  {
    var lower := ToLower(contentType);
    var p := Find(lower, "boundary=");
    if p.None? {
      return "";
    }
    var b := p.value + 9;
    ghost var t := contentType[b..];
    if b < |contentType| && contentType[b] == '"' {
      b := b + 1;
      assert contentType[b..] == t[1..];
    }
    r := ReadUntilEnd(contentType, b);
  }

  lemma UntilEndStep(s: string, from: nat, e: nat)
    requires from <= e <= |s|
    ensures if e < |s| && !EndsBoundary(s[e]) then s[from..e] + UntilEnd(s[e..]) == s[from..e + 1] + UntilEnd(s[e + 1..])
            else UntilEnd(s[e..]) == []
  {
    if e < |s| {
      assert s[e..][1..] == s[e + 1..];
    }
  }

  method ReadUntilEnd(s: string, from: nat) returns (r: string)
    requires from <= |s|
    ensures r == UntilEnd(s[from..])
  {
    hide UntilEnd;
    var e := from;
    UntilEndStep(s, from, e);
    while e < |s| && !EndsBoundary(s[e])
      invariant from <= e <= |s| && s[from..e] + UntilEnd(s[e..]) == UntilEnd(s[from..])
    {
      UntilEndStep(s, from, e);
      e := e + 1;
    }
    UntilEndStep(s, from, e);
    r := s[from..e];
  }
}
