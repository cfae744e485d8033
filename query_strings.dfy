/**
 * The parts of `urlparse`, `parse_qs` and `urlencode` the list views rely on,
 * on unencoded text: the query of a URL, its `&`-separated `key=value`
 * pieces, and the flat dict that keeps the last value of each key.
 */
module QueryStrings {
  import opened Wrappers
  import opened Text

  type Pairs = seq<(string, string)>

  /** `s.split(c, 1)`: the text before the first `c` and, when there is one, the text after it. */
  function SplitOnce(s: string, c: char): (r: (string, Option<string>))
    ensures r.1.None? ==> r.0 == s && c !in s
    ensures r.1.Some? ==> s == r.0 + [c] + r.1.value && c !in r.0
  {
    if s == [] then ("", None)
    else if s[0] == c then ("", Some(s[1..]))
    else
      var t := SplitOnce(s[1..], c);
      ([s[0]] + t.0, t.1)
  }

  /** Splitting at the first `c` finds the `c` placed after a prefix that has none. */
  lemma {:induction false} SplitOnceAt(a: string, c: char, b: string)
    requires c !in a
    ensures SplitOnce(a + [c] + b, c) == (a, Some(b))
  {
    if a == [] {
      assert a + [c] + b == [c] + b;
    } else {
      SplitOnceAt(a[1..], c, b);
      assert (a + [c] + b)[1..] == a[1..] + [c] + b;
      assert a[0] != c && (a + [c] + b)[0] == a[0];
      assert [a[0]] + a[1..] == a;
    }
  }

  /** `urlparse(url).query`: the text after the first "?" of the part before the first "#". */
  function UrlQuery(url: string): string
  {
    SplitOnce(SplitOnce(url, '#').0, '?').1.GetOr("")
  }

  /**
   * A URL without "?" has no query; a path without "?" or "#" followed by
   * "?" and a query without "#" has exactly that query.
   */
  lemma UrlQueryOf(path: string, query: string)
    requires '?' !in path && '#' !in path && '#' !in query
    ensures UrlQuery(path) == ""
    ensures UrlQuery(path + "?" + query) == query
  {
    var url := path + "?" + query;
    assert '#' !in url by {
      forall k | 0 <= k < |url| ensures url[k] != '#' {
        if k >= |path| + 1 { assert url[k] == query[k - |path| - 1]; }
      }
    }
    SplitOnceAt(path, '?', query);
  }

  /** The pairs `parse_qsl` yields from pieces: split at the first "=", without blank values. */
  function QueryPairs(pieces: seq<string>): Pairs
  {
    if pieces == [] then []
    else
      var kv := SplitOnce(pieces[0], '=');
      var rest := QueryPairs(pieces[1..]);
      if kv.1.None? || kv.1.value == "" then rest else [(kv.0, kv.1.value)] + rest
  }

  /**
   * `parse_qsl(query)` with blank values dropped: a piece without "=" (an
   * empty one included) or with an empty value yields nothing.
   */
  function ParseQsl(query: string): Pairs
  {
    QueryPairs(Split(query, '&'))
  }

  /** `urlencode(pairs)`, without percent-encoding. */
  function Urlencode(ps: Pairs): string
  {
    if ps == [] then ""
    else if |ps| == 1 then ps[0].0 + "=" + ps[0].1
    else ps[0].0 + "=" + ps[0].1 + "&" + Urlencode(ps[1..])
  }

  /** An encoded query string is empty exactly when there are no pairs. */
  lemma UrlencodeEmptyIff(ps: Pairs)
    ensures Urlencode(ps) == "" <==> ps == []
  {
    if ps != [] {
      assert Urlencode(ps)[|ps[0].0|] == '=';
    }
  }

  /** A character other than "=" and "&" occurs in an encoded string only if some key or value has it. */
  lemma {:induction false} UrlencodeAvoids(ps: Pairs, ch: char)
    requires ch != '=' && ch != '&'
    requires forall pr :: pr in ps ==> ch !in pr.0 && ch !in pr.1
    ensures ch !in Urlencode(ps)
  {
    if ps != [] {
      assert ps[0] in ps;
      var head := ps[0].0 + "=" + ps[0].1;
      assert ch !in head by {
        forall i | 0 <= i < |head| ensures head[i] != ch {
          if i < |ps[0].0| { assert head[i] == ps[0].0[i]; }
          else if i > |ps[0].0| { assert head[i] == ps[0].1[i - |ps[0].0| - 1]; }
        }
      }
      if |ps| > 1 {
        UrlencodeAvoids(ps[1..], ch);
        var u := Urlencode(ps);
        var tail := Urlencode(ps[1..]);
        assert u == head + "&" + tail;
        forall i | 0 <= i < |u| ensures u[i] != ch {
          if i < |head| { assert u[i] == head[i]; }
          else if i > |head| { assert u[i] == tail[i - |head| - 1]; }
        }
      }
    }
  }

  /** Pairs that `urlencode` can write without escaping and `parse_qsl` reads back. */
  predicate Plain(ps: Pairs)
  {
    forall pr :: pr in ps ==> pr.1 != "" && '=' !in pr.0 && '&' !in pr.0 && '&' !in pr.1
  }

  /** `s.split(sep)` of a string without `sep`, then of one with it after such a prefix. */
  lemma {:induction false} SplitAfter(a: string, sep: char, b: string)
    requires sep !in a
    ensures Split(a, sep) == [a]
    ensures Split(a + [sep] + b, sep) == [a] + Split(b, sep)
  {
    if a != [] {
      SplitAfter(a[1..], sep, b);
      assert (a + [sep] + b)[1..] == a[1..] + [sep] + b;
      assert [a[0]] + a[1..] == a;
    }
  }

  /** A `key=value` piece with an "="-free key and a non-empty value reads back as that pair. */
  lemma PieceReadsBack(k: string, v: string, rest: seq<string>)
    requires '=' !in k && v != ""
    ensures QueryPairs([k + "=" + v] + rest) == [(k, v)] + QueryPairs(rest)
  {
    SplitOnceAt(k, '=', v);
    assert ([k + "=" + v] + rest)[1..] == rest;
  }

  /** `parse_qsl(urlencode(pairs)) == pairs` for plain pairs. */
  lemma {:induction false} ParseQslUrlencode(ps: Pairs)
    requires Plain(ps)
    ensures ParseQsl(Urlencode(ps)) == ps
  {
    if ps == [] {
      assert Split("", '&') == [""];
      assert SplitOnce("", '=').1.None?;
    } else {
      var k, v := ps[0].0, ps[0].1;
      assert ps[0] in ps;
      var piece := k + "=" + v;
      assert '&' !in piece by {
        forall i | 0 <= i < |piece| ensures piece[i] != '&' {
          if i < |k| { assert piece[i] == k[i]; }
          else if i > |k| { assert piece[i] == v[i - |k| - 1]; }
        }
      }
      if |ps| == 1 {
        SplitAfter(piece, '&', "");
        PieceReadsBack(k, v, []);
      } else {
        assert Plain(ps[1..]) by {
          forall pr | pr in ps[1..] ensures pr in ps { }
        }
        ParseQslUrlencode(ps[1..]);
        assert Urlencode(ps) == piece + "&" + Urlencode(ps[1..]);
        SplitAfter(piece, '&', Urlencode(ps[1..]));
        PieceReadsBack(k, v, Split(Urlencode(ps[1..]), '&'));
      }
    }
  }

  /** `{k: v[-1] for k, v in parse_qs(query).items()}`: the last value of each key. */
  function Flat(ps: Pairs): map<string, string>
  {
    if ps == [] then map[] else Flat(ps[..|ps| - 1])[ps[|ps| - 1].0 := ps[|ps| - 1].1]
  }

  /** A key is in the flat dict iff some pair has it, and it maps to the value of its last pair. */
  lemma {:induction false} FlatLastWins(ps: Pairs, i: nat)
    requires i < |ps| && forall j :: i < j < |ps| ==> ps[j].0 != ps[i].0
    ensures ps[i].0 in Flat(ps) && Flat(ps)[ps[i].0] == ps[i].1
  {
    if i < |ps| - 1 {
      FlatLastWins(ps[..|ps| - 1], i);
    }
  }

  /** The keys of the flat dict are exactly the keys of the pairs. */
  lemma {:induction false} FlatKeys(ps: Pairs)
    ensures forall k :: k in Flat(ps) <==> exists pr :: pr in ps && pr.0 == k
  {
    if ps != [] {
      var init := ps[..|ps| - 1];
      FlatKeys(init);
      assert ps == init + [ps[|ps| - 1]];
    }
  }

  /** A key whose every pair carries the same value maps to that value. */
  lemma {:induction false} FlatValue(ps: Pairs, k: string, v: string)
    requires (k, v) in ps && forall pr :: pr in ps && pr.0 == k ==> pr.1 == v
    ensures k in Flat(ps) && Flat(ps)[k] == v
  {
    var init := ps[..|ps| - 1];
    assert ps == init + [ps[|ps| - 1]];
    if ps[|ps| - 1].0 != k {
      FlatValue(init, k, v);
    }
  }
}
