/** The query string of a page URL as the browser's `URLSearchParams` sees it: an
    ordered list of key/value pairs in which a key may repeat. Percent-encoding is
    not modelled, so keys never hold `=` or `&` and values never hold `&`. */
module SearchParams {
  import opened Wrappers

  datatype Param = Param(key: string, value: string)

  type Query = seq<Param>

  /** `params.get(key)`: the value of the FIRST pair with that key, `null` when there is none. */
  function Get(q: Query, key: string): (r: Option<string>)
    ensures r.Some? <==> exists i :: 0 <= i < |q| && q[i].key == key
    ensures r.Some? ==> exists i :: 0 <= i < |q| && q[i].key == key && q[i].value == r.value
                                    && forall j :: 0 <= j < i ==> q[j].key != key
  {
    if q == [] then None
    else if q[0].key == key then Some(q[0].value)
    else
      var r := Get(q[1..], key);
      assert forall i :: 1 <= i < |q| ==> q[i] == q[1..][i - 1];
      r
  }

  /** No key occurs twice. */
  predicate UniqueKeys(q: Query) {
    forall i, j :: 0 <= i < |q| && 0 <= j < |q| && q[i].key == q[j].key ==> i == j
  }

  /** Every pair can be written as `key=value` without encoding. */
  predicate Clean(q: Query) {
    forall i :: 0 <= i < |q| ==> CleanKey(q[i].key) && CleanValue(q[i].value)
  }

  predicate CleanKey(k: string) {
    forall i :: 0 <= i < |k| ==> k[i] != '=' && k[i] != '&'
  }

  predicate CleanValue(v: string) {
    forall i :: 0 <= i < |v| ==> v[i] != '&'
  }

  /** With unique keys, `get` returns the pair's own value. */
  lemma {:induction false} GetUnique(q: Query, i: nat)
    requires UniqueKeys(q) && i < |q|
    ensures Get(q, q[i].key) == Some(q[i].value)
  {
    var r := Get(q, q[i].key);
    var k :| 0 <= k < |q| && q[k].key == q[i].key && q[k].value == r.value;
  }

  /** The pairs whose key is not `key`, in order. */
  function Drop(q: Query, key: string): (r: Query)
    ensures forall p :: p in r <==> p in q && p.key != key
    ensures |r| <= |q|
  {
    if q == [] then []
    else (if q[0].key == key then [] else [q[0]]) + Drop(q[1..], key)
  }

  /** Position of the first `c` in `s`, or `|s|` when there is none. */
  function IndexOf(s: string, c: char): (r: nat)
    ensures r <= |s|
    ensures r < |s| ==> s[r] == c
    ensures forall i :: 0 <= i < r ==> s[i] != c
  {
    if s == [] then 0 else if s[0] == c then 0 else 1 + IndexOf(s[1..], c)
  }

  lemma IndexOfSplit(a: string, c: char, b: string)
    requires forall i :: 0 <= i < |a| ==> a[i] != c
    ensures IndexOf(a + [c] + b, c) == |a|
  {
    var s := a + [c] + b;
    var r := IndexOf(s, c);
    assert s[|a|] == c;
    assert forall i :: 0 <= i < |a| ==> s[i] == a[i];
  }

  lemma IndexOfAbsent(a: string, c: char)
    requires forall i :: 0 <= i < |a| ==> a[i] != c
    ensures IndexOf(a, c) == |a|
  {
  }

  /** The `application/x-www-form-urlencoded` reading of a query string (without
      percent-decoding): split at `&`, skip empty pieces, split each piece at its
      first `=`; a piece without `=` is a key with the empty value. Every pair it
      yields can be written back without encoding. */
  function Decode(s: string): (r: Query)
    ensures Clean(r)
    ensures |r| <= |s|
    decreases |s|
  {
    if s == [] then []
    else
      var j := IndexOf(s, '&');
      ReadPiece(s[..j]) + (if j == |s| then [] else Decode(s[j + 1..]))
  }

  /** One `&`-free piece of a query string. */
  function ReadPiece(piece: string): (r: Query)
    requires CleanValue(piece)
    ensures Clean(r) && |r| <= |piece|
  {
    if piece == [] then []
    else
      var e := IndexOf(piece, '=');
      [Param(piece[..e], if e < |piece| then piece[e + 1..] else "")]
  }

  function Pair(p: Param): string {
    p.key + "=" + p.value
  }

  /** `params.toString()` without percent-encoding: the pairs joined by `&`. Only
      the empty query gives the empty text. */
  function Serialize(q: Query): (r: string)
    ensures r == "" <==> q == []
  {
    if q == [] then ""
    else if |q| == 1 then Pair(q[0])
    else Pair(q[0]) + "&" + Serialize(q[1..])
  }

  /** A clean pair has no `&` and reads back as itself. */
  lemma ReadPair(k: string, v: string)
    requires CleanKey(k) && CleanValue(v)
    ensures forall i :: 0 <= i < |k + "=" + v| ==> (k + "=" + v)[i] != '&'
    ensures ReadPiece(k + "=" + v) == [Param(k, v)]
  {
    var kv := k + "=" + v;
    forall i | 0 <= i < |kv| ensures kv[i] != '&' {
      if i < |k| { assert kv[i] == k[i]; } else if i > |k| { assert kv[i] == v[i - |k| - 1]; }
    }
    assert kv == k + ['='] + v;
    IndexOfSplit(k, '=', v);
    assert kv[..|k|] == k && kv[|k| + 1..] == v;
  }

  /** One clean pair followed by `&` and more text reads back as that pair first. */
  lemma DecodeCons(k: string, v: string, t: string)
    requires CleanKey(k) && CleanValue(v)
    ensures Decode(k + "=" + v + "&" + t) == [Param(k, v)] + Decode(t)
  {
    var s := k + "=" + v + "&" + t;
    var kv := k + "=" + v;
    ReadPair(k, v);
    assert s == kv + ['&'] + t;
    IndexOfSplit(kv, '&', t);
    assert s[..|kv|] == kv;
    assert s[|kv| + 1..] == t;
  }

  /** A clean pair alone reads back as itself. */
  lemma DecodeLast(k: string, v: string)
    requires CleanKey(k) && CleanValue(v)
    ensures Decode(k + "=" + v) == [Param(k, v)]
  {
    var kv := k + "=" + v;
    ReadPair(k, v);
    IndexOfAbsent(kv, '&');
    assert kv[..|kv|] == kv;
  }

  /** Serializing a clean query and reading it back gives the same pairs. */
  lemma {:induction false} SerializeRoundTrip(q: Query)
    requires Clean(q)
    ensures Decode(Serialize(q)) == q
  {
    if q == [] {
    } else if |q| == 1 {
      DecodeLast(q[0].key, q[0].value);
    } else {
      assert Clean(q[1..]) by {
        forall i | 0 <= i < |q[1..]| ensures CleanKey(q[1..][i].key) && CleanValue(q[1..][i].value) {
          assert q[1..][i] == q[i + 1];
        }
      }
      SerializeRoundTrip(q[1..]);
      DecodeCons(q[0].key, q[0].value, Serialize(q[1..]));
      assert Pair(q[0]) + "&" + Serialize(q[1..]) == q[0].key + "=" + q[0].value + "&" + Serialize(q[1..]);
      assert [q[0]] + q[1..] == q;
    }
  }

  /** A serialized non-empty query followed by `&` and more text reads back as the
      query's pairs first. */
  lemma {:induction false} SerializeAppend(q: Query, t: string)
    requires Clean(q) && q != []
    ensures Decode(Serialize(q) + "&" + t) == q + Decode(t)
  {
    if |q| == 1 {
      DecodeCons(q[0].key, q[0].value, t);
      assert Serialize(q) == q[0].key + "=" + q[0].value;
    } else {
      CleanTail(q);
      SerializeAppend(q[1..], t);
      SerializeCons(q, t);
      DecodeCons(q[0].key, q[0].value, Serialize(q[1..]) + "&" + t);
      SeqCons(q, Decode(t));
    }
  }

  lemma SeqCons(q: Query, d: Query)
    requires q != []
    ensures [q[0]] + (q[1..] + d) == q + d
  {
    assert q == [q[0]] + q[1..];
  }

  lemma SerializeCons(q: Query, t: string)
    requires |q| > 1
    ensures Serialize(q) + "&" + t == q[0].key + "=" + q[0].value + "&" + (Serialize(q[1..]) + "&" + t)
  {
    var tail := Serialize(q[1..]);
    var head := Pair(q[0]) + "&";
    assert Serialize(q) == head + tail;
    Assoc4(head, tail, "&", t);
  }

  lemma Assoc4(a: string, b: string, c: string, d: string)
    ensures ((a + b) + c) + d == a + ((b + c) + d)
  {
  }

  lemma CleanTail(q: Query)
    requires Clean(q) && q != []
    ensures Clean(q[1..])
  {
    forall i | 0 <= i < |q[1..]| ensures CleanKey(q[1..][i].key) && CleanValue(q[1..][i].value) {
      assert q[1..][i] == q[i + 1];
    }
  }

  /** Dropping a key that does not occur changes nothing. */
  lemma {:induction false} DropAbsent(q: Query, key: string)
    requires forall i :: 0 <= i < |q| ==> q[i].key != key
    ensures Drop(q, key) == q
  {
    if q != [] {
      DropAbsent(q[1..], key);
      assert [q[0]] + q[1..] == q;
    }
  }

  /** Dropping distributes over concatenation. */
  lemma {:induction false} DropAppend(a: Query, b: Query, key: string)
    ensures Drop(a + b, key) == Drop(a, key) + Drop(b, key)
  {
    if a != [] {
      assert (a + b)[1..] == a[1..] + b;
      DropAppend(a[1..], b, key);
    } else {
      assert a + b == b;
    }
  }
}
