/** application/x-www-form-urlencoded: key-value lists and their query strings. */
module UrlEncoded {
  import opened Bytes
  import opened Pairs

  // ----- searching -----

  /** The first position of c, or the length. */
  function IndexOf(s: ByteString, c: Byte): (k: nat)
    ensures k <= |s|
  {
    if s == [] || s[0] == c then 0 else 1 + IndexOf(s[1..], c)
  }

  lemma {:induction false} IndexOfMeaning(s: ByteString, c: Byte)
    ensures forall k :: 0 <= k < IndexOf(s, c) ==> s[k] != c
    ensures IndexOf(s, c) < |s| ==> s[IndexOf(s, c)] == c
  {
    if s != [] && s[0] != c {
      IndexOfMeaning(s[1..], c);
    }
  }

  lemma {:induction false} IndexOfAfter(a: ByteString, c: Byte, b: ByteString)
    requires forall k :: 0 <= k < |a| ==> a[k] != c
    ensures IndexOf(a, c) == |a|
    ensures IndexOf(a + [c] + b, c) == |a|
  {
    if a != [] {
      IndexOfAfter(a[1..], c, b);
      assert (a + [c] + b)[1..] == a[1..] + [c] + b;
    }
  }

  /** find from a position. */
  method Find(s: ByteString, c: Byte, from: nat) returns (k: nat)
    requires from <= |s|
    ensures from <= k <= |s| && k == from + IndexOf(s[from..], c)
  {
    k := from;
    while k < |s| && s[k] != c
      invariant from <= k <= |s| && from + IndexOf(s[from..], c) == k + IndexOf(s[k..], c)
    {
      assert s[k..][1..] == s[k + 1..];
      k := k + 1;
    }
  }

  // ----- writing -----

  function Item(p: Pair): ByteString {
    PercentEncode(p.0, true) + ['='] + PercentEncode(p.1, true)
  }

  function ToQuery(list: seq<Pair>): ByteString {
    if list == [] then []
    else if |list| == 1 then Item(list[0])
    else Item(list[0]) + ['&'] + ToQuery(list[1..])
  }

  lemma {:induction false} ToQueryAppend(list: seq<Pair>, p: Pair)
    ensures ToQuery(list + [p]) == if list == [] then Item(p) else ToQuery(list) + ['&'] + Item(p)
  {
    if list == [] {
      assert list + [p] == [p];
    } else {
      assert (list + [p])[1..] == list[1..] + [p];
      ToQueryAppend(list[1..], p);
    }
  }

  method FormEncode(list: seq<Pair>) returns (out: ByteString)
    ensures out == ToQuery(list)
  {
    out := [];
    var first := true;
    for i := 0 to |list|
      invariant out == ToQuery(list[..i]) && first == (i == 0)
    {
      assert list[..i + 1] == list[..i] + [list[i]];
      ToQueryAppend(list[..i], list[i]);
      if !first {
        out := out + ['&'];
      }
      first := false;
      out := PushItem(out, list[i]);
    }
    assert list[..|list|] == list;
  }

  method PushItem(out: ByteString, p: Pair) returns (r: ByteString)
    ensures r == out + Item(p)
  {
    var key := Encode(p.0, true);
    var value := Encode(p.1, true);
    r := out + key;
    r := r + ['='];
    r := r + value;
  }

  // ----- reading -----

  function ReadItem(item: ByteString): seq<Pair> {
    if item == [] then []
    else
      var eq := IndexOf(item, '=');
      [(PercentDecode(item[..eq], true), if eq == |item| then [] else PercentDecode(item[eq + 1..], true))]
  }

  function ReadItems(q: ByteString): seq<Pair> {
    var amp := IndexOf(q, '&');
    ReadItem(q[..amp]) + if amp == |q| then [] else ReadItems(q[amp + 1..])
  }

  function FromQuery(q: ByteString): seq<Pair> {
    ReadItems(if q != [] && q[0] == '?' then q[1..] else q)
  }

  method Parse(query: ByteString) returns (list: seq<Pair>)
    ensures list == FromQuery(query)
  {
    var q := query;
    if q != [] && q[0] == '?' {
      q := q[1..];
    }
    list := ParseItems(q);
  }

  method ParseItems(q: ByteString) returns (list: seq<Pair>)
    ensures list == ReadItems(q)
  {
    list := [];
    var pos := 0;
    assert q[0..] == q;
    ghost var rest := ReadItems(q);
    var more := true;
    while more
      invariant pos <= |q| && list + rest == ReadItems(q)
      invariant rest == if more then ReadItems(q[pos..]) else []
      decreases more, |q| - pos
    {
      var amp := Find(q, '&', pos);
      ReadStep(q, pos, amp);
      var pairs := ParseItem(q[pos..amp]);
      rest := if amp == |q| then [] else ReadItems(q[amp + 1..]);
      list := Extend(list, pairs, rest);
      if amp == |q| {
        more := false;
      } else {
        pos := amp + 1;
      }
    }
  }

  method Extend(list: seq<Pair>, pairs: seq<Pair>, ghost rest: seq<Pair>) returns (r: seq<Pair>)
    ensures r == list + pairs && r + rest == list + (pairs + rest)
  {
    r := list + pairs;
  }

  lemma ReadStep(q: ByteString, pos: nat, amp: nat)
    requires pos <= amp <= |q| && amp == pos + IndexOf(q[pos..], '&')
    ensures ReadItems(q[pos..]) == ReadItem(q[pos..amp]) + if amp == |q| then [] else ReadItems(q[amp + 1..])
  {
    hide ReadItem, IndexOf;
    var rest := q[pos..];
    assert q[pos..amp] == rest[..amp - pos];
    if amp < |q| {
      assert rest[amp - pos + 1..] == q[amp + 1..];
    }
  }

  /** One key-value item; an empty item gives nothing. */
  method ParseItem(item: ByteString) returns (pairs: seq<Pair>)
    ensures pairs == ReadItem(item)
  {
    if item == [] {
      return [];
    }
    var eq := Find(item, '=', 0);
    assert item[0..] == item;
    var key := Decode(item[..eq], true);
    var value: ByteString := [];
    if eq != |item| {
      value := Decode(item[eq + 1..], true);
    }
    pairs := [(key, value)];
  }

  // ----- what is read of any query -----

  /** An item goes up to the next ampersand and is split at its first equals sign; without one it is a
      name with an empty value; and an empty item is nothing. */
  lemma ReadsItem(k: ByteString, v: ByteString, rest: ByteString)
    requires '&' !in k && '=' !in k && '&' !in v
    ensures ReadItems(k + ['='] + v + ['&'] + rest) == [(PercentDecode(k, true), PercentDecode(v, true))] + ReadItems(rest)
    ensures k != [] ==> ReadItems(k + ['&'] + rest) == [(PercentDecode(k, true), [])] + ReadItems(rest)
    ensures ReadItems(['&'] + rest) == ReadItems(rest) && ReadItems([]) == []
  {
    hide PercentDecode;
    var item := k + ['='] + v;
    IndexOfAfter(item, '&', rest);
    IndexOfAfter(k, '&', rest);
    IndexOfAfter(k, '=', v);
    assert (item + ['&'] + rest)[..|item|] == item && (item + ['&'] + rest)[|item| + 1..] == rest;
    assert (k + ['&'] + rest)[..|k|] == k && (k + ['&'] + rest)[|k| + 1..] == rest;
    assert item[..|k|] == k && item[|k| + 1..] == v && k[..|k|] == k;
    assert (['&'] + rest)[1..] == rest && [] + ReadItems(rest) == ReadItems(rest);
  }

  /** The last item needs no ampersand behind it, and one leading question mark is no part of the list. */
  lemma ReadsLast(k: ByteString, v: ByteString, q: ByteString)
    requires '&' !in k && '=' !in k && '&' !in v
    ensures ReadItems(k + ['='] + v) == [(PercentDecode(k, true), PercentDecode(v, true))]
    ensures FromQuery(['?'] + q) == ReadItems(q)
  {
    var item := k + ['='] + v;
    IndexOfAfter(item, '&', []);
    IndexOfAfter(k, '=', v);
    assert item[..|item|] == item && item[..|k|] == k && item[|k| + 1..] == v;
    assert (['?'] + q)[1..] == q;
  }

  // ----- the round trip -----

  lemma WrittenItemIsPlain(p: Pair)
    ensures forall k :: 0 <= k < |Item(p)| ==> Item(p)[k] != '&' && Item(p)[k] != '?'
  {
    EncodeIsPlain(p.0, true);
    EncodeIsPlain(p.1, true);
  }

  lemma ReadWrittenItem(p: Pair)
    ensures Item(p) != [] && ReadItem(Item(p)) == [p]
  {
    var k, v, item := PercentEncode(p.0, true), PercentEncode(p.1, true), Item(p);
    EncodeIsPlain(p.0, true);
    IndexOfAfter(k, '=', v);
    DecodeEncode(p.0, true);
    DecodeEncode(p.1, true);
    assert item[..|k|] == k && item[|k| + 1..] == v;
  }

  lemma {:induction false} ReadItemsWritten(list: seq<Pair>)
    ensures ReadItems(ToQuery(list)) == list
  {
    if list != [] {
      var item, q := Item(list[0]), ToQuery(list);
      ReadWrittenItem(list[0]);
      WrittenItemIsPlain(list[0]);
      if |list| == 1 {
        IndexOfAfter(item, '&', []);
        assert item[..|item|] == item;
      } else {
        var rest := ToQuery(list[1..]);
        IndexOfAfter(item, '&', rest);
        assert q[..|item|] == item && q[|item| + 1..] == rest;
        ReadItemsWritten(list[1..]);
      }
    }
  }

  /** Every list of byte-string pairs survives being written and read. */
  lemma RoundTrip(list: seq<Pair>)
    ensures FromQuery(ToQuery(list)) == list
    ensures FromQuery(['?'] + ToQuery(list)) == list
    ensures ToQuery(list) == [] <==> list == []
  {
    ReadItemsWritten(list);
    if list != [] {
      ReadWrittenItem(list[0]);
      WrittenItemIsPlain(list[0]);
      assert ToQuery(list)[0] == Item(list[0])[0];
    }
    assert (['?'] + ToQuery(list))[1..] == ToQuery(list);
  }
}
