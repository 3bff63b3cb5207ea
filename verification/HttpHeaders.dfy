/** Header lists: guards, combined values, and the sorted view. */
module HttpHeaders {
  import opened Basics
  import opened Bytes
  import opened Pairs
  import opened StableSort
  import opened Text

  datatype Guard = Unguarded | Request | RequestNoCors | Response | Immutable

  const COOKIE: ByteString := "set-cookie"

  // ----- forbidden fields -----

  predicate IsMethodOverride(name: ByteString) {
    name == "x-http-method-override" || name == "x-http-method" || name == "x-method-override"
  }

  predicate IsForbiddenResponse(name: ByteString) {
    name == COOKIE || name == "set-cookie2"
  }

  predicate IsSafelisted(name: ByteString) {
    name == "accept" || name == "accept-language" || name == "content-language" || name == "content-type"
  }

  function TrimEnd(s: string): string {
    if s != [] && Blank(s[|s| - 1]) then TrimEnd(s[..|s| - 1]) else s
  }

  predicate IsForbiddenMethod(part: string) {
    var p := Lower(TrimEnd(SkipBlank(part)));
    p == "trace" || p == "track" || p == "connect"
  }

  lemma {:induction false} TrimsBlanks(s: string, pad: string)
    requires (forall c :: c in pad ==> Blank(c)) && (s == "" || !Blank(s[|s| - 1]))
    ensures TrimEnd(s + pad) == s
    decreases |pad|
  {
    if pad == "" {
      assert s + pad == s;
    } else {
      var n := |pad| - 1;
      assert pad[n] in pad && (s + pad)[..|s| + n] == s + pad[..n];
      TrimsBlanks(s, pad[..n]);
    }
  }

  /** A forbidden method is recognized in any letter case and between any blanks. */
  lemma MethodSpelling(before: string, word: string, after: string)
    requires word != "" && !Blank(word[0]) && !Blank(word[|word| - 1])
    requires (forall c :: c in before ==> Blank(c)) && forall c :: c in after ==> Blank(c)
    ensures IsForbiddenMethod(before + (word + after)) <==> Lower(word) in {"trace", "track", "connect"}
  {
    assert (word + after)[0] == word[0];
    SkipBlanks(before, word + after);
    TrimsBlanks(word, after);
  }

  /** value[i..j] is one item of the comma-separated list. */
  predicate Item(value: string, i: nat, j: nat) {
    i <= j <= |value| && (i == 0 || value[i - 1] == ',') && (j == |value| || value[j] == ',') && ',' !in value[i..j]
  }

  ghost predicate NamesForbiddenMethod(value: string) {
    exists i: nat, j: nat :: Item(value, i, j) && IsForbiddenMethod(value[i..j])
  }

  ghost predicate Forbidden(guard: Guard, name: ByteString, value: ByteString) {
    || (guard == Request && IsMethodOverride(name) && NamesForbiddenMethod(value))
    || (guard == RequestNoCors && !IsSafelisted(name))
    || (guard == Response && IsForbiddenResponse(name))
  }

  /** What the guards keep out: nothing without a guard, and nothing by this check from an immutable list,
      which refuses every change before it; from a response the two cookie fields; from a request an
      override by a forbidden method; from a request without CORS all but the four safelisted names. */
  lemma GuardMeaning(name: ByteString, value: ByteString)
    ensures !Forbidden(Unguarded, name, value) && !Forbidden(Immutable, name, value)
    ensures Forbidden(Response, name, value) <==> name in {"set-cookie", "set-cookie2"}
    ensures Forbidden(RequestNoCors, name, value)
            <==> name !in {"accept", "accept-language", "content-language", "content-type"}
    ensures Forbidden(Request, name, value)
            <==> name in {"x-http-method-override", "x-http-method", "x-method-override"} && NamesForbiddenMethod(value)
  {
  }

  /** check_part: trims from both ends, lowers, and compares. */
  method CheckPart(part: string) returns (hit: bool)
    ensures hit == IsForbiddenMethod(part)
  {
    var p := part;
    while p != [] && Blank(p[0])
      invariant SkipBlank(p) == SkipBlank(part)
    {
      p := p[1..];
    }
    while p != [] && Blank(p[|p| - 1])
      invariant TrimEnd(p) == TrimEnd(SkipBlank(part))
    {
      p := p[..|p| - 1];
    }
    p := ToLower(p);
    hit := p == "trace" || p == "track" || p == "connect";
  }

  /** Splits at commas, one character at a time. */
  method HasForbiddenMethod(value: ByteString) returns (hit: bool)
    ensures hit == NamesForbiddenMethod(value)
  {
    var part: string := [];
    ghost var start := 0;
    for i := 0 to |value|
      invariant start <= i && part == value[start..i] && ',' !in part && (start == 0 || value[start - 1] == ',')
      invariant forall a: nat, b: nat :: b < i && Item(value, a, b) ==> !IsForbiddenMethod(value[a..b])
    {
      ItemEnd(value, start, i);
      if value[i] == ',' {
        hit := CheckPart(part);
        if hit {
          assert Item(value, start, i);
          return;
        }
        part := [];
        start := i + 1;
      } else {
        part := part + [value[i]];
      }
    }
    hit := CheckPart(part);
    ItemEnd(value, start, |value|);
    assert hit ==> Item(value, start, |value|);
  }

  /** Only one item can end at i: the one that begins behind the last comma. */
  lemma ItemEnd(value: string, start: nat, i: nat)
    requires start <= i <= |value| && ',' !in value[start..i] && (start == 0 || value[start - 1] == ',')
    ensures forall a: nat :: Item(value, a, i) ==> a == start
  {
  }

  // ----- combined values -----

  function Joined(values: seq<ByteString>): ByteString
    requires values != []
  {
    if |values| == 1 then values[0] else Joined(values[..|values| - 1]) + ", " + values[|values| - 1]
  }

  /** The values stand in order with a comma and a space between them. */
  lemma {:induction false} JoinedConcat(a: seq<ByteString>, b: seq<ByteString>)
    requires a != [] && b != []
    ensures Joined(a + b) == Joined(a) + ", " + Joined(b)
    decreases |b|
  {
    var n := |b| - 1;
    assert (a + b)[..|a + b| - 1] == a + b[..n];
    if n == 0 {
      assert a + b[..n] == a;
    } else {
      JoinedConcat(a, b[..n]);
      assert Joined(a) + ", " + Joined(b) == Joined(a) + ", " + Joined(b[..n]) + ", " + b[n];
    }
  }

  function Combined(list: seq<Pair>, name: ByteString): Option<ByteString> {
    if GetAll(list, name) == [] then None else Some(Joined(GetAll(list, name)))
  }

  function Visible(guard: Guard, list: seq<Pair>, name: ByteString): Option<ByteString> {
    if guard == Response && IsForbiddenResponse(name) then None else Combined(list, name)
  }

  lemma GetAllNext(list: seq<Pair>, k: nat, name: ByteString)
    requires k < |list|
    ensures GetAll(list[..k + 1], name)
            == if list[k].0 == name then GetAll(list[..k], name) + [list[k].1] else GetAll(list[..k], name)
  {
    assert list[..k + 1] == list[..k] + [list[k]];
    GetAllConcat(list[..k], [list[k]], name);
    assert GetAll(list[..k], name) + [] == GetAll(list[..k], name);
  }

  // ----- the sorted view -----

  function MergeOne(m: seq<Pair>, p: Pair): seq<Pair> {
    if p.0 == COOKIE || m == [] || m[|m| - 1].0 != p.0 then m + [p]
    else m[|m| - 1 := (p.0, m[|m| - 1].1 + ", " + p.1)]
  }

  function Merged(s: seq<Pair>): seq<Pair> {
    if s == [] then [] else MergeOne(Merged(s[..|s| - 1]), s[|s| - 1])
  }

  function SortedView(list: seq<Pair>): seq<Pair> {
    Merged(Sort(list, KeyLess))
  }

  /** Names ascend, and only set-cookie may repeat. */
  ghost predicate Ascending(m: seq<Pair>) {
    forall i, j :: 0 <= i < j < |m| ==> Less(m[i].0, m[j].0) || (m[i].0 == m[j].0 == COOKIE)
  }

  ghost function Names(list: seq<Pair>): set<ByteString> {
    set p | p in list :: p.0
  }

  /** What the merged list says about the sorted list s it came from. */
  ghost predicate Summarizes(m: seq<Pair>, s: seq<Pair>) {
    && Ascending(m) && Names(m) == Names(s)
    && (s != [] ==> m != [] && m[|m| - 1].0 == s[|s| - 1].0)
    && CombinesAll(m, s) && GetAll(m, COOKIE) == GetAll(s, COOKIE)
  }

  ghost predicate CombinesAll(m: seq<Pair>, s: seq<Pair>) {
    forall k :: 0 <= k < |m| && m[k].0 != COOKIE ==> Combined(s, m[k].0) == Some(m[k].1)
  }

  lemma JoinedNext(values: seq<ByteString>, v: ByteString)
    ensures Joined(values + [v]) == if values == [] then v else Joined(values) + ", " + v
  {
    assert (values + [v])[..|values|] == values;
  }

  lemma {:induction false} GetAllAbsent(list: seq<Pair>, name: ByteString)
    ensures GetAll(list, name) == [] <==> name !in Names(list)
  {
    if list != [] {
      GetAllAbsent(list[1..], name);
      assert list == [list[0]] + list[1..];
    }
  }

  lemma CombinedNext(s: seq<Pair>, p: Pair)
    ensures p.0 in Names(s) ==> Combined(s, p.0).Some?
    ensures Combined(s + [p], p.0)
            == Some(if p.0 in Names(s) then Combined(s, p.0).value + ", " + p.1 else p.1)
  {
    GetAllConcat(s, [p], p.0);
    GetAllAbsent(s, p.0);
    JoinedNext(GetAll(s, p.0), p.1);
  }

  lemma CombinedOther(s: seq<Pair>, p: Pair, name: ByteString)
    requires name != p.0
    ensures Combined(s + [p], name) == Combined(s, name)
  {
    GetAllConcat(s, [p], name);
    assert GetAll(s, name) + [] == GetAll(s, name);
  }

  lemma NamesNext(s: seq<Pair>, p: Pair)
    ensures Names(s + [p]) == Names(s) + {p.0}
  {
  }

  lemma Climb(a: ByteString, b: ByteString, c: ByteString)
    requires (Less(a, b) || a == b) && !Less(c, b)
    ensures Less(a, c) || a == b == c
    ensures !Less(a, a)
  {
    LessTotal(b, c);
    LessOrder(b, c, b);
    LessOrder(a, c, b);
    LessOrder(a, a, a);
  }

  /** A name not below the last one ascends, or repeats it. */
  lemma AppendAscends(m: seq<Pair>, p: Pair)
    requires Ascending(m) && (m != [] ==> !Less(p.0, m[|m| - 1].0))
    requires p.0 == COOKIE || m == [] || m[|m| - 1].0 != p.0
    ensures Ascending(m + [p])
    ensures p.0 != COOKIE ==> p.0 !in Names(m)
  {
    forall i | 0 <= i < |m|
      ensures Less(m[i].0, p.0) || (m[i].0 == p.0 == COOKIE)
      ensures p.0 != COOKIE ==> m[i].0 != p.0
    {
      Climb(m[i].0, m[|m| - 1].0, p.0);
    }
  }

  /** One more pair, not below the last name. */
  lemma MergeAppends(m: seq<Pair>, s: seq<Pair>, p: Pair)
    requires Summarizes(m, s) && (s != [] ==> !Less(p.0, s[|s| - 1].0))
    requires p.0 == COOKIE || m == [] || m[|m| - 1].0 != p.0
    ensures Summarizes(m + [p], s + [p])
  {
    NamesNext(s, p);
    NamesNext(m, p);
    GetAllConcat(m, [p], COOKIE);
    GetAllConcat(s, [p], COOKIE);
    AppendAscends(m, p);
    AppendCombines(m, s, p);
  }

  lemma AppendCombines(m: seq<Pair>, s: seq<Pair>, p: Pair)
    requires CombinesAll(m, s) && Names(m) == Names(s) && (p.0 != COOKIE ==> p.0 !in Names(m))
    ensures CombinesAll(m + [p], s + [p])
  {
    forall k | 0 <= k < |m + [p]| && (m + [p])[k].0 != COOKIE
      ensures Combined(s + [p], (m + [p])[k].0) == Some((m + [p])[k].1)
    {
      if k < |m| {
        assert m[k] in m && m[k].0 in Names(m);
        CombinedOther(s, p, m[k].0);
      } else {
        CombinedNext(s, p);
      }
    }
  }

  lemma LastUpdated(m: seq<Pair>, p: Pair)
    requires m != [] && m[|m| - 1].0 == p.0 != COOKIE
    ensures var u := m[|m| - 1 := p];
            Names(u) == Names(m) && GetAll(u, COOKIE) == GetAll(m, COOKIE)
  {
    var n := |m| - 1;
    var u := m[n := p];
    assert m == m[..n] + [m[n]] && u == m[..n] + [p];
    NamesNext(m[..n], m[n]);
    NamesNext(m[..n], p);
    GetAllConcat(m[..n], [m[n]], COOKIE);
    GetAllConcat(m[..n], [p], COOKIE);
  }

  /** One more value of the last name. */
  lemma MergeUpdates(m: seq<Pair>, s: seq<Pair>, p: Pair)
    requires Summarizes(m, s) && m != [] && m[|m| - 1].0 == p.0 != COOKIE
    ensures Summarizes(m[|m| - 1 := (p.0, m[|m| - 1].1 + ", " + p.1)], s + [p])
  {
    var n := |m| - 1;
    var u := m[n := (p.0, m[n].1 + ", " + p.1)];
    LastUpdated(m, (p.0, m[n].1 + ", " + p.1));
    NamesNext(s, p);
    GetAllConcat(s, [p], COOKIE);
    UpdateCombines(m, s, p);
  }

  lemma UpdateCombines(m: seq<Pair>, s: seq<Pair>, p: Pair)
    requires CombinesAll(m, s) && Ascending(m) && Names(m) == Names(s) && m != [] && m[|m| - 1].0 == p.0 != COOKIE
    ensures CombinesAll(m[|m| - 1 := (p.0, m[|m| - 1].1 + ", " + p.1)], s + [p])
  {
    var n := |m| - 1;
    var u := m[n := (p.0, m[n].1 + ", " + p.1)];
    LessOrder(p.0, p.0, p.0);
    assert m[n].0 in Names(m) && Combined(s, m[n].0) == Some(m[n].1);
    forall k | 0 <= k < |u| && u[k].0 != COOKIE
      ensures Combined(s + [p], u[k].0) == Some(u[k].1)
    {
      if k < n {
        assert Less(m[k].0, m[n].0) && Combined(s, m[k].0) == Some(m[k].1);
        CombinedOther(s, p, m[k].0);
      } else {
        CombinedNext(s, p);
      }
    }
  }

  lemma {:induction false} MergedSummarizes(s: seq<Pair>)
    requires Sorted(s, KeyLess)
    ensures Summarizes(Merged(s), s)
  {
    if s != [] {
      var n := |s| - 1;
      var t, p := s[..n], s[n];
      MergedSummarizes(t);
      assert s == t + [p];
      assert t != [] ==> !KeyLess(p, s[n - 1]);
      if p.0 == COOKIE || Merged(t) == [] || Merged(t)[|Merged(t)| - 1].0 != p.0 {
        MergeAppends(Merged(t), t, p);
      } else {
        MergeUpdates(Merged(t), t, p);
      }
    }
  }

  lemma SortKeepsNames(list: seq<Pair>)
    ensures Names(Sort(list, KeyLess)) == Names(list)
  {
    SortMeaning(list, []);
    assert forall p :: p in Sort(list, KeyLess) <==> p in multiset(Sort(list, KeyLess));
    assert forall p :: p in list <==> p in multiset(list);
  }

  /** The sorted view and get agree, whatever the list went through: every name appears, once and
      in ascending order, with the value get gives; set-cookie keeps one entry a value, in order. */
  lemma SortedViewAgrees(list: seq<Pair>)
    ensures Ascending(SortedView(list)) && Names(SortedView(list)) == Names(list)
    ensures forall k :: 0 <= k < |SortedView(list)| && SortedView(list)[k].0 != COOKIE
              ==> Combined(list, SortedView(list)[k].0) == Some(SortedView(list)[k].1)
    ensures GetAll(SortedView(list), COOKIE) == GetAll(list, COOKIE)
  {
    var s := Sort(list, KeyLess);
    SortMeaning(list, COOKIE);
    SortKeepsNames(list);
    MergedSummarizes(s);
    forall k | 0 <= k < |Merged(s)| && Merged(s)[k].0 != COOKIE
      ensures Combined(list, Merged(s)[k].0) == Some(Merged(s)[k].1)
    {
      SortMeaning(list, Merged(s)[k].0);
    }
  }

  /** No field that the guard forbids is in the list. */
  ghost predicate Admissible(guard: Guard, list: seq<Pair>) {
    forall p :: p in list ==> !Forbidden(guard, p.0, p.1)
  }

  /** Against get itself the view has one exception: a response shows set-cookie2 and get hides it. */
  lemma SortedViewAgainstGet(guard: Guard, list: seq<Pair>, k: nat)
    requires k < |SortedView(list)| && SortedView(list)[k].0 != COOKIE
    ensures Visible(guard, list, SortedView(list)[k].0) == Some(SortedView(list)[k].1)
            <==> !(guard == Response && SortedView(list)[k].0 == "set-cookie2")
  {
    SortedViewAgrees(list);
  }

  lemma NameOfMember(list: seq<Pair>, name: ByteString) returns (p: Pair)
    requires name in Names(list)
    ensures p in list && p.0 == name
  {
    p :| p in list && p.0 == name;
  }

  /** A list that holds nothing its guard forbids never meets the exception, and under the response
      guard it has no set-cookie either: there get and the view agree on every entry. */
  lemma AdmissibleViewAgrees(guard: Guard, list: seq<Pair>, k: nat)
    requires Admissible(guard, list) && k < |SortedView(list)|
    ensures SortedView(list)[k].0 != COOKIE ==> Visible(guard, list, SortedView(list)[k].0) == Some(SortedView(list)[k].1)
    ensures guard == Response ==> SortedView(list)[k].0 != COOKIE
  {
    var name := SortedView(list)[k].0;
    SortedViewAgrees(list);
    assert SortedView(list)[k] in SortedView(list) && name in Names(SortedView(list));
    var p := NameOfMember(list, name);
    if name != COOKIE {
      SortedViewAgainstGet(guard, list, k);
    }
  }

  // ----- the object -----

  class Headers {
    var guard: Guard
    var list: seq<Pair>

    constructor (guard: Guard)
      ensures this.guard == guard && list == []
    {
      this.guard := guard;
      list := [];
    }

    ghost predicate Clean()
      reads this
    {
      Admissible(guard, list)
    }

    /** The new guard is not applied to what is in the list already: fields that it forbids stay. A
        guard that forbids nothing leaves every list clean. */
    method SetGuard(g: Guard)
      modifies this`guard
      ensures guard == g && Clean() == Admissible(g, list)
      ensures g == Unguarded || g == Immutable ==> Clean()
    {
      guard := g;
    }

    method IsForbidden(name: ByteString, value: ByteString) returns (r: bool)
      ensures r == Forbidden(guard, name, value)
    {
      if guard == Request && IsMethodOverride(name) {
        r := HasForbiddenMethod(value);
        if r {
          return;
        }
      }
      if guard == RequestNoCors && !IsSafelisted(name) {
        return true;
      }
      r := guard == Response && IsForbiddenResponse(name);
    }

    method Append(name: ByteString, value: ByteString) returns (r: Result<(), ()>)
      modifies this`list
      ensures r.Err? <==> guard == Immutable
      ensures list == if r.Err? || Forbidden(guard, name, value) then old(list) else old(list) + [(name, value)]
      ensures old(Clean()) ==> Clean()
    {
      if guard == Immutable {
        return Err(());
      }
      r := Ok(());
      var skip := IsForbidden(name, value);
      if skip {
        return;
      }
      list := list + [(name, value)];
    }

    method SetValue(name: ByteString, value: ByteString) returns (r: Result<(), ()>)
      modifies this`list
      ensures r.Err? <==> guard == Immutable
      ensures list == if r.Err? || Forbidden(guard, name, value) then old(list) else Erase(old(list), name) + [(name, value)]
      ensures r.Ok? && !Forbidden(guard, name, value) ==> Combined(list, name) == Some(value)
      ensures forall other :: other != name ==> GetAll(list, other) == GetAll(old(list), other)
      ensures old(Clean()) ==> Clean()
    {
      if guard == Immutable {
        return Err(());
      }
      r := Ok(());
      var skip := IsForbidden(name, value);
      if skip {
        return;
      }
      SetReads(list, name, value);
      EraseAll(name);
      list := list + [(name, value)];
    }

    method Delete(name: ByteString) returns (r: Result<(), ()>)
      modifies this`list
      ensures r.Err? <==> guard == Immutable
      ensures list == if r.Err? || Forbidden(guard, name, []) then old(list) else Erase(old(list), name)
      ensures r.Ok? && !Forbidden(guard, name, []) ==> Combined(list, name) == None
      ensures forall other :: other != name ==> GetAll(list, other) == GetAll(old(list), other)
      ensures old(Clean()) ==> Clean()
    {
      if guard == Immutable {
        return Err(());
      }
      r := Ok(());
      var skip := IsForbidden(name, []);
      if skip {
        return;
      }
      SetReads(list, name, []);
      EraseAll(name);
    }

    method EraseAll(name: ByteString)
      modifies this`list
      ensures list == Erase(old(list), name)
      ensures forall p :: p in list <==> p in old(list) && p.0 != name
    {
      EraseMembers(list, name);
      list := Erase(list, name);
    }

    method Has(name: ByteString) returns (r: bool)
      ensures r == Visible(guard, list, name).Some?
    {
      if guard == Response && IsForbiddenResponse(name) {
        return false;
      }
      for i := 0 to |list|
        invariant GetAll(list[..i], name) == []
      {
        GetAllNext(list, i, name);
        if list[i].0 == name {
          GetAllConcat(list[..i + 1], list[i + 1..], name);
          assert list[..i + 1] + list[i + 1..] == list;
          return true;
        }
      }
      assert list[..|list|] == list;
      r := false;
    }

    method Get(name: ByteString) returns (r: Option<ByteString>)
      ensures r == Visible(guard, list, name)
    {
      if guard == Response && IsForbiddenResponse(name) {
        return None;
      }
      var out: ByteString := [];
      var first := true;
      for i := 0 to |list|
        invariant first == (GetAll(list[..i], name) == [])
        invariant out == if first then [] else Joined(GetAll(list[..i], name))
      {
        GetAllNext(list, i, name);
        if list[i].0 == name {
          out := PushValue(out, list[i].1, first, GetAll(list[..i], name));
          first := false;
        }
      }
      assert list[..|list|] == list;
      r := if first then None else Some(out);
    }

    method GetSetCookie() returns (out: seq<ByteString>)
      ensures out == GetAll(list, COOKIE)
    {
      out := [];
      for i := 0 to |list|
        invariant out == GetAll(list[..i], COOKIE)
      {
        GetAllNext(list, i, COOKIE);
        if list[i].0 == COOKIE {
          out := out + [list[i].1];
        }
      }
      assert list[..|list|] == list;
    }

    method SortedEntries() returns (merged: seq<Pair>)
      ensures merged == SortedView(list)
    {
      var out := Sort(list, KeyLess);
      merged := [];
      for i := 0 to |out|
        invariant merged == Merged(out[..i])
      {
        assert out[..i + 1][..i] == out[..i];
        var p := out[i];
        if p.0 == COOKIE {
          merged := merged + [p];
        } else if merged == [] || merged[|merged| - 1].0 != p.0 {
          merged := merged + [p];
        } else {
          merged := merged[|merged| - 1 := (p.0, merged[|merged| - 1].1 + ", " + p.1)];
        }
      }
      assert out[..|out|] == out;
    }
  }

  /** A response's headers are filled before the guard is set, so the exception is met: a set-cookie2
      field shows in the sorted view, and get and has deny it. */
  method FillThenGuard(value: ByteString) returns (h: Headers)
    ensures fresh(h) && h.guard == Response && !h.Clean() && h.list == [("set-cookie2", value)]
    ensures SortedView(h.list) == [("set-cookie2", value)] && Visible(h.guard, h.list, "set-cookie2") == None
  {
    h := new Headers(Unguarded);
    var r := h.Append("set-cookie2", value);
    h.SetGuard(Response);
    ViewOfOne("set-cookie2", value);
    assert h.list[0] in h.list;
  }

  lemma ViewOfOne(name: ByteString, value: ByteString)
    ensures SortedView([(name, value)]) == [(name, value)]
  {
    var p: Pair := (name, value);
    var none: seq<Pair>, list := [], [p];
    assert list[..0] == none && none + list == list;
    assert Sort(list, KeyLess) == Insert(Sort(none, KeyLess), p, KeyLess) == none + [p];
    assert Merged(list) == MergeOne(Merged(none), p) == none + [p];
  }

  method PushValue(out: ByteString, value: ByteString, first: bool, ghost values: seq<ByteString>) returns (r: ByteString)
    requires first == (values == []) && out == if first then [] else Joined(values)
    ensures r == Joined(values + [value])
  {
    JoinedNext(values, value);
    r := out;
    if !first {
      r := r + ", ";
    }
    r := r + value;
  }

  lemma SetReads(list: seq<Pair>, name: ByteString, value: ByteString)
    ensures GetAll(Erase(list, name), name) == [] && GetAll(Erase(list, name) + [(name, value)], name) == [value]
    ensures forall other :: other != name ==>
              && GetAll(Erase(list, name), other) == GetAll(list, other)
              && GetAll(Erase(list, name) + [(name, value)], other) == GetAll(list, other)
  {
    forall other
      ensures GetAll(Erase(list, name), other) == if other == name then [] else GetAll(list, other)
      ensures GetAll(Erase(list, name) + [(name, value)], other)
              == GetAll(Erase(list, name), other) + if other == name then [value] else []
    {
      EraseMeaning(list, name, other);
      GetAllConcat(Erase(list, name), [(name, value)], other);
    }
  }

  lemma {:induction false} EraseMembers(list: seq<Pair>, name: ByteString)
    ensures forall p :: p in Erase(list, name) <==> p in list && p.0 != name
  {
    if list != [] {
      EraseMembers(list[1..], name);
      assert list == [list[0]] + list[1..];
    }
  }
}
