/** URL search parameters that stay in step with the URL they came from. */
module UrlRecord {
  import opened Basics
  import opened Bytes
  import opened Pairs
  import opened UrlEncoded
  import opened StableSort

  // ----- operations on the list -----

  /** Overwrites the first pair of that name, drops the later ones, and appends when
      there is none. */
  function SetPair(list: seq<Pair>, name: ByteString, value: ByteString, replaced: bool): seq<Pair> {
    if list == [] then if replaced then [] else [(name, value)]
    else if list[0].0 != name then [list[0]] + SetPair(list[1..], name, value, replaced)
    else if replaced then SetPair(list[1..], name, value, true)
    else [(name, value)] + SetPair(list[1..], name, value, true)
  }

  /** After set, the name has exactly that value and every other pair is kept in order. */
  lemma {:induction false} SetMeaning(list: seq<Pair>, name: ByteString, value: ByteString, replaced: bool)
    ensures GetAll(SetPair(list, name, value, replaced), name) == if replaced then [] else [value]
    ensures Erase(SetPair(list, name, value, replaced), name) == Erase(list, name)
  {
    if list != [] {
      SetMeaning(list[1..], name, value, replaced || list[0].0 == name);
    }
  }

  /** The pair that is overwritten keeps its place: what precedes it is untouched. */
  lemma {:induction false} SetKeepsPrefix(list: seq<Pair>, name: ByteString, value: ByteString, k: nat)
    requires k <= |list| && forall j :: 0 <= j < k ==> list[j].0 != name
    ensures SetPair(list, name, value, false) == list[..k] + SetPair(list[k..], name, value, false)
  {
    if k > 0 {
      SetKeepsPrefix(list[1..], name, value, k - 1);
      assert list[..k] == [list[0]] + list[1..][..k - 1];
      assert list[1..][k - 1..] == list[k..];
    }
  }

  // ----- runs -----

  function SearchOf(query: Option<ByteString>): ByteString {
    if query.Some? then ['?'] + query.value else []
  }

  /** The query that is written back for a list. */
  function Written(list: seq<Pair>): Option<ByteString> {
    if list == [] then None else Some(ToQuery(list))
  }

  function Typed(v: ByteString): Option<ByteString> {
    var q := if v != [] && v[0] == '?' then v[1..] else v;
    if q == [] then None else Some(q)
  }

  /** Assigning search: one leading question mark is dropped, and nothing else; nothing left means no query. */
  lemma TypedIs(q: ByteString)
    ensures Typed(['?'] + q) == if q == [] then None else Some(q)
    ensures q != [] && q[0] != '?' ==> Typed(q) == Some(q)
    ensures Typed([]) == None && Typed(SearchOf(Some(q))) == if q == [] then None else Some(q)
  {
    assert (['?'] + q)[1..] == q;
  }

  /** An empty list is written back as no query at all, any other as its query string, and a second list is
      not written the same. */
  lemma WrittenIs(a: seq<Pair>, b: seq<Pair>)
    ensures Written(a).None? <==> a == []
    ensures Written(a) == Written(b) ==> a == b
    ensures SearchOf(Written(a)) == if a == [] then [] else ['?'] + ToQuery(a)
  {
    RoundTrip(a);
    RoundTrip(b);
  }

  /** A URL's query and its cached parameters, once they were asked for. */
  datatype State = State(query: Option<ByteString>, cached: Option<seq<Pair>>)

  datatype Event =
    | GetParams
    | AppendPair(name: ByteString, value: ByteString)
    | DeleteName(name: ByteString)
    | SetName(name: ByteString, value: ByteString)
    | SortNames
    | AssignSearch(v: ByteString)
    | AssignHref(parsed: Result<Option<ByteString>, ()>)

  function Edited(list: seq<Pair>, e: Event): seq<Pair> {
    match e
    case AppendPair(name, value) => list + [(name, value)]
    case DeleteName(name) => Erase(list, name)
    case SetName(name, value) => SetPair(list, name, value, false)
    case SortNames => Sort(list, KeyLess)
    case _ => list
  }

  function Requery(s: State, query: Option<ByteString>): State {
    State(query, if s.cached.None? then None else Some(FromQuery(SearchOf(query))))
  }

  function Apply(s: State, e: Event): State {
    match e
    case GetParams => if s.cached.Some? then s else s.(cached := Some(FromQuery(SearchOf(s.query))))
    case AssignSearch(v) => Requery(s, Typed(v))
    case AssignHref(parsed) => if parsed.Ok? then Requery(s, parsed.value) else s
    case _ =>
      if s.cached.None? then s
      else
        var list := Edited(s.cached.value, e);
        State(Written(list), Some(list))
  }

  function Exec(s: State, run: seq<Event>): State {
    if run == [] then s else Apply(Exec(s, run[..|run| - 1]), run[|run| - 1])
  }

  /** What each event leaves in the query: an assignment what was assigned, an edit through the cached list
      that list written out, and asking for the list, or an error, what was there. */
  lemma QueryFollows(s: State, e: Event)
    ensures e.AssignSearch? ==> Apply(s, e).query == Typed(e.v)
    ensures e.AssignHref? && e.parsed.Ok? ==> Apply(s, e).query == e.parsed.value
    ensures e.AssignHref? && e.parsed.Err? ==> Apply(s, e) == s
    ensures e.GetParams? ==> Apply(s, e).query == s.query && Apply(s, e).cached.Some?
    ensures !e.GetParams? && !e.AssignSearch? && !e.AssignHref? && s.cached.Some? ==>
              Apply(s, e).cached.Some? && Apply(s, e).query == Written(Apply(s, e).cached.value)
  {
  }

  lemma WrittenReadsBack(list: seq<Pair>)
    ensures FromQuery(SearchOf(Written(list))) == list
  {
    RoundTrip(list);
  }

  predicate IsCoherent(s: State) {
    s.cached.Some? ==> s.cached.value == FromQuery(SearchOf(s.query))
  }

  lemma ApplyCoherent(s: State, e: Event)
    requires IsCoherent(s)
    ensures IsCoherent(Apply(s, e))
  {
    if s.cached.Some? {
      WrittenReadsBack(Edited(s.cached.value, e));
    }
  }

  /** Whatever mix of edits and assignments is run, the cached list is what the query says. */
  lemma {:induction false} AlwaysCoherent(query: Option<ByteString>, run: seq<Event>)
    ensures IsCoherent(Exec(State(query, None), run))
  {
    if run != [] {
      var n := |run| - 1;
      AlwaysCoherent(query, run[..n]);
      ApplyCoherent(Exec(State(query, None), run[..n]), run[n]);
    }
  }

  // ----- the objects -----

  /** A search-parameter list; owner is the URL it is attached to. */
  class SearchParams {
    var list: seq<Pair>
    var owner: Url?

    constructor (list: seq<Pair>)
      ensures this.list == list && owner == null
    {
      this.list := list;
      owner := null;
    }

    ghost predicate Attached()
      reads this, owner
    {
      owner != null ==> owner.sp == this && owner.Coherent()
    }

    /** The URL's side of this list, as a state of the runs above. */
    ghost function View(): State
      reads this, owner
    {
      State(if owner == null then Written(list) else owner.query, Some(list))
    }

    ghost function Footprint(): set<object>
      reads this
    {
      if owner == null then {this} else {this, owner}
    }

    method NotifyChange()
      requires owner != null ==> owner.sp == this
      modifies if owner == null then {} else {owner}
      ensures owner != null ==> owner.sp == this
      ensures Attached()
      ensures owner != null ==> owner.query == Written(list)
    {
      if owner != null {
        var q := FormEncode(list);
        owner.SetSearchRaw(q);
        RoundTrip(list);
      }
    }

    method Append(name: ByteString, value: ByteString)
      requires Attached()
      modifies Footprint()
      ensures Attached() && owner == old(owner) && list == old(list) + [(name, value)]
      ensures View() == Apply(old(View()), AppendPair(name, value))
    {
      list := list + [(name, value)];
      NotifyChange();
    }

    method Delete(name: ByteString)
      requires Attached()
      modifies Footprint()
      ensures Attached() && owner == old(owner) && list == Erase(old(list), name)
      ensures View() == Apply(old(View()), DeleteName(name))
    {
      list := Erase(list, name);
      NotifyChange();
    }

    method SetValue(name: ByteString, value: ByteString)
      requires Attached()
      modifies Footprint()
      ensures Attached() && owner == old(owner) && list == SetPair(old(list), name, value, false)
      ensures View() == Apply(old(View()), SetName(name, value))
    {
      Overwrite(name, value);
      NotifyChange();
    }

    static lemma SetNothing(name: ByteString, value: ByteString)
      ensures SetPair([], name, value, true) == [] && SetPair([], name, value, false) == [(name, value)]
    {
    }

    /** What one round of the loop leaves to do, whichever branch it takes. */
    static lemma SetStep(list: seq<Pair>, i: nat, name: ByteString, value: ByteString, replaced: bool)
      requires i < |list|
      ensures var goal := list[..i] + SetPair(list[i..], name, value, replaced);
              if list[i].0 != name then goal == list[..i + 1] + SetPair(list[i + 1..], name, value, replaced)
              else if replaced then
                var cut := list[..i] + list[i + 1..];
                goal == cut[..i] + SetPair(cut[i..], name, value, true)
              else
                var put := list[i := (name, value)];
                goal == put[..i + 1] + SetPair(put[i + 1..], name, value, true)
    {
      ghost var rest := list[i..];
      assert rest[1..] == list[i + 1..] && list[..i + 1] == list[..i] + [list[i]];
      ghost var put, cut := list[i := (name, value)], list[..i] + list[i + 1..];
      assert put[i + 1..] == rest[1..] && put[..i + 1] == list[..i] + [(name, value)];
      assert cut[..i] == list[..i] && cut[i..] == rest[1..];
    }

    /** The in-place loop: overwrite, erase, or move on. */
    method Overwrite(name: ByteString, value: ByteString)
      modifies this`list
      ensures list == SetPair(old(list), name, value, false)
    {
      ghost var goal := SetPair(list, name, value, false);
      var replaced := false;
      var i := 0;
      assert list[0..] == list;
      SetNothing(name, value);
      hide SetPair;
      while i < |list|
        invariant i <= |list| && goal == list[..i] + SetPair(list[i..], name, value, replaced)
        decreases |list| - i
      {
        SetStep(list, i, name, value, replaced);
        if list[i].0 == name {
          if !replaced {
            list := list[i := (name, value)];
            replaced := true;
            i := i + 1;
          } else {
            list := list[..i] + list[i + 1..];
          }
        } else {
          i := i + 1;
        }
      }
      if !replaced {
        list := list + [(name, value)];
      }
    }

    method SortKeys()
      requires Attached()
      modifies Footprint()
      ensures Attached() && owner == old(owner) && list == Sort(old(list), KeyLess)
      ensures View() == Apply(old(View()), SortNames)
    {
      list := Sort(list, KeyLess);
      NotifyChange();
    }
  }

  /** A URL, reduced to its query component, kept verbatim, and its cached parameters. */
  class Url {
    var query: Option<ByteString>
    var sp: SearchParams?

    constructor (query: Option<ByteString>)
      ensures this.query == query && sp == null
    {
      this.query := query;
      sp := null;
    }

    function Search(): ByteString
      reads this
    {
      SearchOf(query)
    }

    ghost function View(): State
      reads this, sp
    {
      State(query, if sp == null then None else Some(sp.list))
    }

    /** The cached parameters are what the query string says. */
    ghost predicate Coherent()
      reads this, sp
    {
      sp != null ==> sp.owner == this && sp.list == FromQuery(Search())
    }

    method SetSearchRaw(q: ByteString)
      modifies this
      ensures sp == old(sp) && query == if q == [] then None else Some(q)
    {
      query := if q == [] then None else Some(q);
    }

    method SyncSearchParams()
      requires sp != null ==> sp.owner == this
      modifies sp
      ensures Coherent() && (sp != null ==> sp.owner == this)
    {
      if sp != null {
        var list := Parse(Search());
        sp.list := list;
      }
    }

    method SetSearch(v: ByteString)
      requires Coherent()
      modifies this, sp
      ensures Coherent() && sp == old(sp)
      ensures View() == Apply(old(View()), AssignSearch(v))
    {
      var s := v;
      if s != [] && s[0] == '?' {
        s := s[1..];
      }
      if s == [] {
        query := None;
      } else {
        query := Some(s);
      }
      SyncSearchParams();
    }

    /** The parser's verdict is a parameter: an error leaves everything as it was. */
    method SetHref(parsed: Result<Option<ByteString>, ()>) returns (ok: bool)
      requires Coherent()
      modifies this, sp
      ensures Coherent() && sp == old(sp) && ok == parsed.Ok?
      ensures View() == Apply(old(View()), AssignHref(parsed))
    {
      if parsed.Err? {
        return false;
      }
      query := parsed.value;
      SyncSearchParams();
      ok := true;
    }

    /** The same object every time. */
    method GetSearchParams() returns (p: SearchParams)
      requires Coherent()
      modifies this
      ensures Coherent() && sp == p && View() == Apply(old(View()), GetParams)
      ensures old(sp) != null ==> p == old(sp)
      ensures p.Attached() && p.owner == this && p.list == FromQuery(Search())
    {
      if sp == null {
        var list := Parse(Search());
        p := new SearchParams(list);
        p.owner := this;
        sp := p;
      } else {
        p := sp;
      }
    }
  }
}
