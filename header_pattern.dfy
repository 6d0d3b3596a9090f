/**
 * The pieces of `PAT_HEADERVALUE`, `([^:]+):\s+([^\s;]+)(.*)`, from
 * `mobius/www/utils.py`: the scans a match is made of and its three groups,
 * each stated as a predicate on the line.
 */
module HeaderPattern {
  import opened Wrappers
  import opened Text

  /** The first index at or after `k` holding `c`, or `|s|`. */
  function IndexOf(s: string, c: char, k: nat): (i: nat)
    requires k <= |s|
    ensures k <= i <= |s| && (i < |s| ==> s[i] == c)
    ensures forall j :: k <= j < i ==> s[j] != c
    decreases |s| - k
  {
    if k == |s| || s[k] == c then k else IndexOf(s, c, k + 1)
  }

  /** The end of the run of whitespace (`\s*`) starting at `k`. */
  function SpaceEnd(s: string, k: nat): (i: nat)
    requires k <= |s|
    ensures k <= i <= |s| && (i < |s| ==> !IsPySpace(s[i]))
    ensures forall j :: k <= j < i ==> IsPySpace(s[j])
    decreases |s| - k
  {
    if k == |s| || !IsPySpace(s[k]) then k else SpaceEnd(s, k + 1)
  }

  /** A character of `[^\s;]`. */
  predicate IsValueChar(c: char) { !IsPySpace(c) && c != ';' }

  /** The end of the run of `[^\s;]` characters starting at `k`. */
  function ValueEnd(s: string, k: nat): (i: nat)
    requires k <= |s|
    ensures k <= i <= |s| && (i < |s| ==> !IsValueChar(s[i]))
    ensures forall j :: k <= j < i ==> IsValueChar(s[j])
    decreases |s| - k
  {
    if k == |s| || !IsValueChar(s[k]) then k else ValueEnd(s, k + 1)
  }

  /** The three groups of a match of `PAT_HEADERVALUE`. */
  datatype HeaderMatch = HeaderMatch(name: string, value: string, tail: string, start: nat)

  /**
   * `m` is how `PAT_HEADERVALUE` reads `s`, stated group by group; `m.start`
   * is where the value group starts, past the colon and the whitespace.
   */
  predicate HeaderMatchOf(s: string, m: HeaderMatch) {
    && NameGroup(s, m.name)
    && m.start == SpaceEnd(s, |m.name| + 1) && m.start > |m.name| + 1
    && ValueGroup(s, m.start, m.value)
    && TailGroup(s, m.start + |m.value|, m.tail)
  }

  /** `([^:]+):` */
  predicate NameGroup(s: string, name: string) {
    && name != [] && |name| < |s| && s[..|name|] == name && s[|name|] == ':'
    && (forall j :: 0 <= j < |name| ==> name[j] != ':')
  }

  /** `([^\s;]+)` at `w`, as long as it can be. */
  predicate ValueGroup(s: string, w: nat, value: string) {
    && value != [] && w + |value| <= |s| && s[w..w + |value|] == value
    && (forall j :: 0 <= j < |value| ==> IsValueChar(value[j]))
    && (w + |value| == |s| || !IsValueChar(s[w + |value|]))
  }

  /** `(.*)` at `e`: up to the end of the line. */
  predicate TailGroup(s: string, e: nat, tail: string) {
    && e + |tail| <= |s| && s[e..e + |tail|] == tail
    && (forall j :: 0 <= j < |tail| ==> tail[j] != '\n')
    && (e + |tail| == |s| || s[e + |tail|] == '\n')
  }

  // ---------------------------------------------------------------------------
  // Matching a header line

  /**
   * `PAT_HEADERVALUE.match(s)` for `([^:]+):\s+([^\s;]+)(.*)`: the name runs to
   * the first colon, at least one space follows, the value is the longest run
   * of characters that are neither space nor ';', and the tail runs to the end
   * of the line.
   */
  function MatchHeaderValue(s: string): (r: Option<HeaderMatch>)
    ensures r.Some? ==> HeaderMatchOf(s, r.value)
  {
    var i := IndexOf(s, ':', 0);
    if i == 0 || i == |s| then None
    else
      var w := SpaceEnd(s, i + 1);
      if w == i + 1 || w == |s| || s[w] == ';' then None
      else
        var e := ValueEnd(s, w);
        var t := IndexOf(s, '\n', e);
        var m := HeaderMatch(s[..i], s[w..e], s[e..t], w);
        NameGroupAt(s, i);
        ValueGroupAt(s, w, e);
        TailGroupAt(s, e, t);
        MatchOfGroupsAt(s, m, i);
        Some(m)
  }

  lemma NameGroupAt(s: string, i: nat)
    requires 0 < i < |s| && i == IndexOf(s, ':', 0)
    ensures NameGroup(s, s[..i])
  {
  }

  lemma ValueGroupAt(s: string, w: nat, e: nat)
    requires w < |s| && IsValueChar(s[w]) && e == ValueEnd(s, w)
    ensures ValueGroup(s, w, s[w..e])
  {
  }

  lemma TailGroupAt(s: string, e: nat, t: nat)
    requires e <= |s| && t == IndexOf(s, '\n', e)
    ensures TailGroup(s, e, s[e..t])
  {
  }

  /** The groups, found one by one, make up a match. */
  lemma MatchOfGroupsAt(s: string, m: HeaderMatch, i: nat)
    requires NameGroup(s, m.name) && |m.name| == i && m.start == SpaceEnd(s, i + 1) && m.start > i + 1
    requires ValueGroup(s, m.start, m.value) && TailGroup(s, m.start + |m.value|, m.tail)
    ensures HeaderMatchOf(s, m)
  {
  }

  /** The name group of a match ends at the first colon. */
  lemma NameGroupUnique(s: string, n1: string, n2: string)
    requires NameGroup(s, n1) && NameGroup(s, n2)
    ensures n1 == n2
  {
    ColonFreeName(s, n1);
    ColonFreeName(s, n2);
    assert |n1| == |n2|;
  }

  lemma ColonFreeName(s: string, name: string)
    requires NameGroup(s, name)
    ensures forall j :: 0 <= j < |name| ==> s[j] != ':'
  {
    forall j | 0 <= j < |name|
      ensures s[j] != ':'
    {
      assert s[j] == name[j];
    }
  }

  /** `([^\s;]+)` matches one run only: the longest. */
  lemma ValueGroupUnique(s: string, w: nat, v1: string, v2: string)
    requires ValueGroup(s, w, v1) && ValueGroup(s, w, v2)
    ensures v1 == v2
  {
    RunOfValueChars(s, w, v1);
    RunOfValueChars(s, w, v2);
  }

  lemma RunOfValueChars(s: string, w: nat, v: string)
    requires ValueGroup(s, w, v)
    ensures forall j :: w <= j < w + |v| ==> IsValueChar(s[j])
  {
    forall j | w <= j < w + |v|
      ensures IsValueChar(s[j])
    {
      assert s[j] == v[j - w];
    }
  }

  /** `(.*)` matches one run only: up to the end of the line. */
  lemma TailGroupUnique(s: string, e: nat, t1: string, t2: string)
    requires TailGroup(s, e, t1) && TailGroup(s, e, t2)
    ensures t1 == t2
  {
    RunOfLineChars(s, e, t1);
    RunOfLineChars(s, e, t2);
  }

  lemma RunOfLineChars(s: string, e: nat, t: string)
    requires TailGroup(s, e, t)
    ensures forall j :: e <= j < e + |t| ==> s[j] != '\n'
  {
    forall j | e <= j < e + |t|
      ensures s[j] != '\n'
    {
      assert s[j] == t[j - e];
    }
  }

  /** `PAT_HEADERVALUE` reads a line in at most one way. */
  lemma HeaderMatchUnique(s: string, m1: HeaderMatch, m2: HeaderMatch)
    requires HeaderMatchOf(s, m1) && HeaderMatchOf(s, m2)
    ensures m1 == m2
  {
    NameGroupUnique(s, m1.name, m2.name);
    assert m1.start == m2.start;
    ValueGroupUnique(s, m1.start, m1.value, m2.value);
    TailGroupUnique(s, m1.start + |m1.value|, m1.tail, m2.tail);
  }

  /** A reading the pattern allows is always found. */
  lemma MatchHeaderValueFinds(s: string, m: HeaderMatch)
    requires HeaderMatchOf(s, m)
    ensures MatchHeaderValue(s).Some?
  {
    var n := |m.name|;
    forall j | 0 <= j < n
      ensures s[j] != ':'
    {
      assert s[j] == m.name[j];
    }
    assert IndexOf(s, ':', 0) == n;
    assert s[m.start] == m.value[0];
  }

  /** `PAT_HEADERVALUE.match(s)` is exactly the reading the pattern allows, when there is one. */
  lemma MatchHeaderValueExact(s: string, m: HeaderMatch)
    ensures MatchHeaderValue(s) == Some(m) <==> HeaderMatchOf(s, m)
  {
    if HeaderMatchOf(s, m) {
      MatchHeaderValueFinds(s, m);
      HeaderMatchUnique(s, MatchHeaderValue(s).value, m);
    }
  }
}
