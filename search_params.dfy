/**
 * Reading a URL's query string as the browser's `URLSearchParams` does:
 * pairs are separated by `&`, a name is separated from its value by the
 * first `=`, `+` stands for a space, and `get` returns the first match.
 * Percent escapes are left as they are.
 */
module SearchParams {
  import opened Wrappers

  /** The index of the first `c` in `s`, or `|s|` when there is none. */
  function IndexOf(s: string, c: char): (i: nat)
    ensures i <= |s|
    ensures forall k :: 0 <= k < i ==> s[k] != c
    ensures i < |s| ==> s[i] == c
  {
    if s == [] then 0
    else if s[0] == c then 0
    else 1 + IndexOf(s[1..], c)
  }

  /** `+` read as a space. */
  function Decode(s: string): (r: string)
    ensures |r| == |s|
    ensures forall k :: 0 <= k < |s| ==> r[k] == if s[k] == '+' then ' ' else s[k]
  {
    if s == [] then [] else [if s[0] == '+' then ' ' else s[0]] + Decode(s[1..])
  }

  /**
   * The query of a URL as written in the link, without its `?`: what follows the
   * first `?` and precedes any `#`. The URL parser's clean-up of the link and its
   * percent-encoding of the query are not part of this.
   */
  function QueryOf(url: string): (q: string)
    ensures |q| <= |url|
    ensures '#' !in q
  {
    var beforeHash := url[..IndexOf(url, '#')];
    var j := IndexOf(beforeHash, '?');
    if j == |beforeHash| then [] else beforeHash[j + 1..]
  }

  /** A URL made of a path, `?` and a query without `#` has exactly that query. */
  lemma QueryOfPathAndQuery(path: string, query: string)
    requires '?' !in path && '#' !in path && '#' !in query
    ensures QueryOf(path + "?" + query) == query
  {
    var url := path + "?" + query;
    assert forall k :: 0 <= k < |url| ==> url[k] != '#' by {
      forall k | 0 <= k < |url| ensures url[k] != '#' {
        if k < |path| { assert url[k] == path[k]; }
        else if k > |path| { assert url[k] == query[k - |path| - 1]; }
      }
    }
    assert url[..IndexOf(url, '#')] == url;
    assert forall k :: 0 <= k < |path| ==> url[k] != '?' by {
      forall k | 0 <= k < |path| ensures url[k] != '?' { assert url[k] == path[k]; }
    }
    assert url[|path|] == '?';
    assert IndexOf(url, '?') == |path|;
    assert url[|path| + 1..] == query;
  }

  /** `new URLSearchParams(query).get(name)`. */
  function Get(query: string, name: string): (r: Option<string>)
    decreases |query|
  {
    var i := IndexOf(query, '&');
    var pair := query[..i];
    var eq := IndexOf(pair, '=');
    if pair != [] && Decode(pair[..eq]) == name then
      Some(Decode(if eq < |pair| then pair[eq + 1..] else []))
    else if i < |query| then Get(query[i + 1..], name)
    else None
  }

  /** Characters that a query value can carry unencoded and read back unchanged. */
  predicate IsPlainValueChar(c: char) {
    c != '&' && c != '#' && c != '+' && c != '%'
  }

  lemma DecodePlain(s: string)
    requires forall k :: 0 <= k < |s| ==> IsPlainValueChar(s[k])
    ensures Decode(s) == s
  {
  }

  /** A query string holding the single pair `name=value` yields `value` for `name`. */
  lemma {:induction false} GetSinglePair(name: string, value: string)
    requires name != [] && forall k :: 0 <= k < |name| ==> IsPlainValueChar(name[k]) && name[k] != '='
    requires forall k :: 0 <= k < |value| ==> IsPlainValueChar(value[k])
    ensures Get(name + "=" + value, name) == Some(value)
  {
    var q := name + "=" + value;
    PlainPairHasNoAmpersand(name, value);
    assert IndexOf(q, '&') == |q|;
    assert q[..|q|] == q;
    PlainPairSplits(name, value);
  }

  /** The first pair that carries `name` wins: whatever follows its `&` is not read. */
  lemma {:induction false} GetFirstPairWins(name: string, value: string, rest: string)
    requires name != [] && forall k :: 0 <= k < |name| ==> IsPlainValueChar(name[k]) && name[k] != '='
    requires forall k :: 0 <= k < |value| ==> IsPlainValueChar(value[k])
    ensures Get(name + "=" + value + "&" + rest, name) == Some(value)
  {
    var pair := name + "=" + value;
    PlainPairHasNoAmpersand(name, value);
    FirstPairSplits(pair, rest);
    PlainPairSplits(name, value);
  }

  /** A pair that does not carry `name` is skipped, and the search goes on after its `&`. */
  lemma {:induction false} GetSkipsOtherPair(pair: string, rest: string, name: string)
    requires forall k :: 0 <= k < |pair| ==> pair[k] != '&'
    requires pair == [] || Decode(pair[..IndexOf(pair, '=')]) != name
    ensures Get(pair + "&" + rest, name) == Get(rest, name)
  {
    FirstPairSplits(pair, rest);
  }

  /** `pair & rest` with no `&` in `pair` splits at that `&`. */
  lemma FirstPairSplits(pair: string, rest: string)
    requires forall k :: 0 <= k < |pair| ==> pair[k] != '&'
    ensures var q := pair + "&" + rest;
      IndexOf(q, '&') == |pair| && q[..|pair|] == pair && q[|pair| + 1..] == rest
  {
    var q := pair + "&" + rest;
    assert forall k :: 0 <= k < |pair| ==> q[k] != '&' by {
      forall k | 0 <= k < |pair| ensures q[k] != '&' { assert q[k] == pair[k]; }
    }
    assert q[|pair|] == '&';
  }

  /** A plain `name=value` carries no `&`. */
  lemma PlainPairHasNoAmpersand(name: string, value: string)
    requires forall k :: 0 <= k < |name| ==> IsPlainValueChar(name[k])
    requires forall k :: 0 <= k < |value| ==> IsPlainValueChar(value[k])
    ensures var q := name + "=" + value; forall k :: 0 <= k < |q| ==> q[k] != '&'
  {
    var q := name + "=" + value;
    forall k | 0 <= k < |q| ensures q[k] != '&' {
      if k < |name| { assert q[k] == name[k]; }
      else if k > |name| { assert q[k] == value[k - |name| - 1]; }
    }
  }

  /** A plain `name=value` splits at its first `=` into `name` and `value`, both read back as they are. */
  lemma PlainPairSplits(name: string, value: string)
    requires name != [] && forall k :: 0 <= k < |name| ==> IsPlainValueChar(name[k]) && name[k] != '='
    requires forall k :: 0 <= k < |value| ==> IsPlainValueChar(value[k])
    ensures var q := name + "=" + value; var eq := IndexOf(q, '=');
      eq == |name| && Decode(q[..eq]) == name && Decode(q[eq + 1..]) == value
  {
    var q := name + "=" + value;
    assert q[|name|] == '=';
    assert forall k :: 0 <= k < |name| ==> q[k] != '=' by {
      forall k | 0 <= k < |name| ensures q[k] != '=' { assert q[k] == name[k]; }
    }
    assert q[..|name|] == name;
    assert q[|name| + 1..] == value;
    DecodePlain(name);
    DecodePlain(value);
  }

}
