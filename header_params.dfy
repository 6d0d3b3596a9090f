/**
 * The parameters of a header line, from `mobius/www/utils.py`: `_parse_params`
 * and its pattern `PAT_HEADERPARAMS`, `;\s*([^=]+)="(.*?)"`, with the text a
 * list of parameters is written as and the round trip between the two.
 */
module HeaderParams {
  import opened Wrappers
  import opened Text
  import opened Dicts
  import opened HeaderPattern

  /**
   * `;\s*([^=]+)="` tried at `p`: the key runs from after the whitespace to the
   * first '=' (it is the last whitespace character when '=' follows the
   * whitespace directly), and `="` must follow. Gives the key and where '=' is.
   */
  function ParamKeyAt(s: string, p: nat): (r: Option<(string, nat)>)
    requires p < |s|
    ensures r.Some? ==> p + 1 < r.value.1 && r.value.1 + 1 < |s| && s[p] == ';'
    ensures r.Some? ==> s[r.value.1] == '=' && s[r.value.1 + 1] == '"'
    ensures r.Some? ==> r.value.0 != [] && forall j :: 0 <= j < |r.value.0| ==> r.value.0[j] != '='
  {
    if s[p] != ';' then None
    else
      var w := SpaceEnd(s, p + 1);
      var e := IndexOf(s, '=', w);
      if e == |s| || e == p + 1 || e + 1 == |s| || s[e + 1] != '"' then None
      else Some((if e > w then s[w..e] else s[e - 1..e], e))
  }

  /** `(.*?)"` at `q`: the shortest run up to a '"' that crosses no line end. Gives the run and where the match ends. */
  function QuotedValueAt(s: string, q: nat): (r: Option<(string, nat)>)
    requires q <= |s|
    ensures r.Some? ==> q < r.value.1 <= |s| && s[r.value.1 - 1] == '"' && r.value.0 == s[q..r.value.1 - 1]
    ensures r.Some? ==> forall j :: 0 <= j < |r.value.0| ==> r.value.0[j] != '"' && r.value.0[j] != '\n'
  {
    var j := IndexOf(s, '"', q);
    if j == |s| || IndexOf(s, '\n', q) < j then None
    else Some((s[q..j], j + 1))
  }

  /** One match of `PAT_HEADERPARAMS`, `;\s*([^=]+)="(.*?)"`, tried at `p`: key, value and where the match ends. */
  function MatchParamAt(s: string, p: nat): (r: Option<(string, string, nat)>)
    requires p < |s|
    ensures r.Some? ==> p < r.value.2 <= |s| && s[p] == ';'
    ensures r.Some? ==> r.value.0 != [] && forall j :: 0 <= j < |r.value.0| ==> r.value.0[j] != '='
    ensures r.Some? ==> forall j :: 0 <= j < |r.value.1| ==> r.value.1[j] != '"' && r.value.1[j] != '\n'
  {
    match ParamKeyAt(s, p)
    case None => None
    case Some((k, e)) =>
      match QuotedValueAt(s, e + 2)
      case None => None
      case Some((v, q)) => Some((k, v, q))
  }

  /** `PAT_HEADERPARAMS.findall(s[p:])`: left to right, resuming after each match or one character on. */
  function FindAllParams(s: string, p: nat): (found: seq<(string, string)>)
    requires p <= |s|
    decreases |s| - p
  {
    if p == |s| then []
    else match MatchParamAt(s, p)
      case Some((k, v, q)) => [(k, v)] + FindAllParams(s, q)
      case None => FindAllParams(s, p + 1)
  }

  /** `params[name] = value` for each pair in turn: a later pair for the same key replaces the earlier value. */
  function InsertAll(acc: seq<(string, string)>, pairs: seq<(string, string)>): (r: seq<(string, string)>)
    requires DistinctKeys(acc)
    ensures DistinctKeys(r)
    decreases |pairs|
  {
    if pairs == [] then acc else InsertAll(Insert(acc, pairs[0].0, pairs[0].1), pairs[1..])
  }

  /** `_parse_params(buf)`: the pairs found, or `{'value': buf}` when none is found in a non-empty buffer. */
  function ParseParams(s: string): (params: seq<(string, string)>)
    ensures DistinctKeys(params)
    ensures FindAllParams(s, 0) == [] && s != [] ==> params == [("value", s)]
    ensures s == [] ==> params == []
  {
    var found := FindAllParams(s, 0);
    if found != [] then InsertAll([], found) else if s != [] then [("value", s)] else []
  }

  /** The value of the last pair with key `k`, if any. */
  function LastValue(pairs: seq<(string, string)>, k: string): (r: Option<string>)
    ensures r.Some? ==> exists i :: 0 <= i < |pairs| && pairs[i] == (k, r.value) && forall j :: i < j < |pairs| ==> pairs[j].0 != k
    ensures r.None? ==> forall i :: 0 <= i < |pairs| ==> pairs[i].0 != k
  {
    if pairs == [] then None
    else
      var later := LastValue(pairs[1..], k);
      if later.Some? then
        var i :| 0 <= i < |pairs[1..]| && pairs[1..][i] == (k, later.value) && forall j :: i < j < |pairs[1..]| ==> pairs[1..][j].0 != k;
        assert pairs[i + 1] == (k, later.value);
        assert forall j :: i + 1 < j < |pairs| ==> pairs[j] == pairs[1..][j - 1];
        later
      else if pairs[0].0 == k then
        assert forall j :: 0 < j < |pairs| ==> pairs[j] == pairs[1..][j - 1];
        Some(pairs[0].1)
      else
        assert forall j :: 0 < j < |pairs| ==> pairs[j] == pairs[1..][j - 1];
        None
  }

  /** Inserting the pairs in turn leaves each key with its last pair's value, and other keys as they were. */
  lemma {:induction false} InsertAllLookup(acc: seq<(string, string)>, pairs: seq<(string, string)>, k: string)
    requires DistinctKeys(acc)
    ensures Lookup(InsertAll(acc, pairs), k) == if LastValue(pairs, k).Some? then LastValue(pairs, k) else Lookup(acc, k)
    decreases |pairs|
  {
    if pairs != [] {
      var acc' := Insert(acc, pairs[0].0, pairs[0].1);
      InsertAllLookup(acc', pairs[1..], k);
      if pairs[0].0 != k {
        InsertOther(acc, pairs[0].0, pairs[0].1, k);
      }
    }
  }

  /**
   * When `findall` finds pairs, the parameters hold exactly the keys found,
   * each with the value of its last pair.
   */
  lemma ParseParamsLookup(s: string, k: string)
    requires FindAllParams(s, 0) != []
    ensures Lookup(ParseParams(s), k) == LastValue(FindAllParams(s, 0), k)
  {
    InsertAllLookup([], FindAllParams(s, 0), k);
  }

  /** `; key="value"` */
  function ParamText(k: string, v: string): string {
    "; " + k + "=\"" + v + "\""
  }

  function ParamsText(ps: seq<(string, string)>): string {
    if ps == [] then "" else ParamText(ps[0].0, ps[0].1) + ParamsText(ps[1..])
  }

  /** A parameter the scanner can read back: a key not starting with space and free of '=', a value free of '"' and line ends. */
  predicate Readable(k: string, v: string) {
    && k != [] && !IsPySpace(k[0]) && (forall j :: 0 <= j < |k| ==> k[j] != '=')
    && (forall j :: 0 <= j < |v| ==> v[j] != '"' && v[j] != '\n')
  }

  lemma ParamTextAt(k: string, v: string)
    ensures var t := ParamText(k, v);
      && |t| == |k| + |v| + 5 && t[0] == ';' && t[1] == ' '
      && t[2..2 + |k|] == k && t[2 + |k|] == '=' && t[3 + |k|] == '"'
      && t[4 + |k|..4 + |k| + |v|] == v && t[4 + |k| + |v|] == '"'
  {
  }

  lemma IndexOfIs(s: string, c: char, k: nat, i: nat)
    requires k <= i < |s| && s[i] == c && forall j :: k <= j < i ==> s[j] != c
    ensures IndexOf(s, c, k) == i
  {
  }

  lemma ParamKeyMatches(x: string, k: string, v: string, y: string)
    requires Readable(k, v)
    ensures ParamKeyAt(x + ParamText(k, v) + y, |x|) == Some((k, |x| + 2 + |k|))
  {
    var t := ParamText(k, v);
    var s := x + t + y;
    ParamTextAt(k, v);
    var p := |x|;
    var e := p + 2 + |k|;
    assert s[p..p + |t|] == t;
    assert s[p] == ';' && s[p + 1] == ' ' && s[p + 2] == k[0];
    assert SpaceEnd(s, p + 1) == p + 2;
    assert s[p + 2..e] == k;
    assert s[e] == '=' && s[e + 1] == '"';
    IndexOfIs(s, '=', p + 2, e);
  }

  lemma ParamValueMatches(x: string, k: string, v: string, y: string)
    requires Readable(k, v)
    ensures QuotedValueAt(x + ParamText(k, v) + y, |x| + 4 + |k|) == Some((v, |x| + |ParamText(k, v)|))
  {
    var t := ParamText(k, v);
    var s := x + t + y;
    ParamTextAt(k, v);
    var q := |x| + 4 + |k|;
    var j := q + |v|;
    assert s[|x|..|x| + |t|] == t;
    assert s[q..j] == v;
    assert s[j] == '"';
    IndexOfIs(s, '"', q, j);
    assert IndexOf(s, '\n', q) >= j;
  }

  lemma ParamMatches(x: string, k: string, v: string, y: string)
    requires Readable(k, v)
    ensures var s := x + ParamText(k, v) + y;
      MatchParamAt(s, |x|) == Some((k, v, |x| + |ParamText(k, v)|))
  {
    ParamKeyMatches(x, k, v, y);
    ParamValueMatches(x, k, v, y);
  }

  /** `findall` takes a match at `p` and resumes right after it. */
  lemma FindAllStep(s: string, p: nat, k: string, v: string, q: nat)
    requires p < |s| && MatchParamAt(s, p) == Some((k, v, q))
    ensures q <= |s| && FindAllParams(s, p) == [(k, v)] + FindAllParams(s, q)
  {
  }

  lemma {:induction false} FindAllOfText(x: string, ps: seq<(string, string)>)
    requires forall i :: 0 <= i < |ps| ==> Readable(ps[i].0, ps[i].1)
    ensures FindAllParams(x + ParamsText(ps), |x|) == ps
    decreases |ps|
  {
    if ps == [] {
      assert x + ParamsText(ps) == x;
    } else {
      var a := ParamText(ps[0].0, ps[0].1);
      var b := ParamsText(ps[1..]);
      assert ParamsText(ps) == a + b;
      var s := x + a + b;
      assert x + ParamsText(ps) == s by { Assoc(x, a, b); }
      ParamMatches(x, ps[0].0, ps[0].1, b);
      FindAllStep(s, |x|, ps[0].0, ps[0].1, |x + a|);
      FindAllOfText(x + a, ps[1..]);
      assert FindAllParams(s, |x + a|) == ps[1..];
      assert [ps[0]] + ps[1..] == ps;
    }
  }

  lemma Assoc<T>(a: seq<T>, b: seq<T>, c: seq<T>)
    ensures a + (b + c) == a + b + c
  {
  }

  lemma {:induction false} InsertAllDistinct(acc: seq<(string, string)>, pairs: seq<(string, string)>)
    requires DistinctKeys(acc) && DistinctKeys(acc + pairs)
    ensures InsertAll(acc, pairs) == acc + pairs
    decreases |pairs|
  {
    if pairs != [] {
      DistinctConcat(acc, pairs);
      assert !HasKey(acc, pairs[0].0) by {
        assert HasKey(pairs, pairs[0].0);
      }
      assert acc + pairs == (acc + [pairs[0]]) + pairs[1..];
      DistinctConcat(acc + [pairs[0]], pairs[1..]);
      InsertAllDistinct(acc + [pairs[0]], pairs[1..]);
    }
  }

  /** Parameters written as `; key="value"` with distinct keys are read back exactly, in order. */
  lemma ParamsRoundTrip(ps: seq<(string, string)>)
    requires DistinctKeys(ps)
    requires forall i :: 0 <= i < |ps| ==> Readable(ps[i].0, ps[i].1)
    ensures ParseParams(ParamsText(ps)) == ps
  {
    FindAllOfText([], ps);
    assert [] + ParamsText(ps) == ParamsText(ps);
    assert [] + ps == ps;
    InsertAllDistinct([], ps);
  }
}
