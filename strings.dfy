/**
 * The few JavaScript string operations the dashboard relies on:
 * `startsWith`, `includes`, and `replace` with a string pattern
 * (which replaces the first occurrence only).
 */
module Strings {
  import opened Wrappers

  /** `s.startsWith(p)` */
  predicate StartsWith(s: string, p: string) {
    |p| <= |s| && s[..|p|] == p
  }

  /** `t` occurs in `s` starting at index `j`. */
  predicate OccursAt(s: string, t: string, j: int) {
    0 <= j && j + |t| <= |s| && s[j..j + |t|] == t
  }

  /** First index at or after `from` where `t` occurs in `s` (`s.indexOf(t, from)`). */
  function IndexOfFrom(s: string, t: string, from: nat): (r: Option<nat>)
    ensures r.Some? ==> from <= r.value && OccursAt(s, t, r.value)
    ensures r.Some? ==> forall j :: from <= j < r.value ==> !OccursAt(s, t, j)
    ensures r.None? ==> forall j :: from <= j ==> !OccursAt(s, t, j)
    decreases |s| - from
  {
    if from + |t| > |s| then None
    else if s[from..from + |t|] == t then Some(from)
    else IndexOfFrom(s, t, from + 1)
  }

  /** `s.indexOf(t)`, with `None` for JavaScript's -1. */
  function IndexOf(s: string, t: string): Option<nat> {
    IndexOfFrom(s, t, 0)
  }

  /** `s.includes(t)` */
  predicate Contains(s: string, t: string) {
    IndexOf(s, t).Some?
  }

  lemma ContainsIff(s: string, t: string)
    ensures Contains(s, t) <==> exists j :: OccursAt(s, t, j)
  {
  }

  /**
   * `s.replace(t, w)` with a string pattern: only the first occurrence is
   * replaced. `w` is inserted literally; JavaScript's `$&`, `$$`, `` $` ``
   * and `$'` replacement patterns are not expanded, which is exact for a
   * `w` without `$`, such as the empty replacement the overview page uses.
   */
  function ReplaceFirst(s: string, t: string, w: string): (r: string)
    ensures !Contains(s, t) ==> r == s
    ensures Contains(s, t) ==>
      var i := IndexOf(s, t).value;
      OccursAt(s, t, i) && r == s[..i] + w + s[i + |t|..]
  {
    match IndexOf(s, t)
    case None => s
    case Some(i) => s[..i] + w + s[i + |t|..]
  }

  /**
   * A character that appears in `t` only at index 0 (as '@' in "@s.whatsapp.net")
   * rules out an occurrence of `t` straddling the end of `p` in `p + t`:
   * the first occurrence is the appended one.
   */
  lemma {:induction false} IndexOfAppended(p: string, t: string)
    requires |t| > 0 && forall k :: 0 < k < |t| ==> t[k] != t[0]
    requires !Contains(p, t)
    ensures IndexOf(p + t, t) == Some(|p|)
  {
    var s := p + t;
    assert OccursAt(s, t, |p|) by { assert s[|p|..|p| + |t|] == t; }
    forall j | 0 <= j < |p|
      ensures !OccursAt(s, t, j)
    {
      if j + |t| <= |p| {
        assert s[j..j + |t|] == p[j..j + |t|];
        assert !OccursAt(p, t, j);
      } else {
        var k := |p| - j;
        assert s[j..j + |t|][k] == s[|p|] == t[0];
        assert t[k] != t[0];
      }
    }
  }

  /** A prefix that does not start any occurrence of `t` does not create one. */
  lemma {:induction false} ContainsAfterPrefix(q: string, x: string, t: string)
    requires |t| > 0 && forall k :: 0 <= k < |q| ==> t[0] != q[k]
    ensures Contains(q + x, t) <==> Contains(x, t)
  {
    var s := q + x;
    ContainsIff(s, t);
    ContainsIff(x, t);
    if Contains(x, t) {
      var j :| OccursAt(x, t, j);
      assert s[|q| + j..|q| + j + |t|] == x[j..j + |t|];
      assert OccursAt(s, t, |q| + j);
    }
    if Contains(s, t) {
      var j :| OccursAt(s, t, j);
      assert s[j..j + |t|][0] == s[j] == t[0];
      assert j >= |q|;
      assert s[j..j + |t|] == x[j - |q|..j - |q| + |t|];
      assert OccursAt(x, t, j - |q|);
    }
  }

  /** `s + t` contains `t`: the appended copy is an occurrence. */
  lemma ContainsAppended(s: string, t: string)
    ensures Contains(s + t, t)
  {
    assert (s + t)[|s|..|s| + |t|] == t;
    assert OccursAt(s + t, t, |s|);
    ContainsIff(s + t, t);
  }

  /** A prefix of a prefix is a prefix. */
  lemma StartsWithTrans(s: string, p: string, q: string)
    requires StartsWith(s, p) && StartsWith(p, q)
    ensures StartsWith(s, q)
  {
    assert s[..|q|] == s[..|p|][..|q|];
  }
}
