/**
 * Python `str` operations used by the newsletter: substring search (`q in s`),
 * `str.replace`, `str.split(c)[0]`, `str.split(c, 1)`, `str.lstrip(chars)` and `str.strip()`.
 */
module Text {

  /** `q` occurs as a contiguous substring of `s` (Python's `q in s`). */
  predicate Occurs(q: string, s: string)
    decreases |s|
  {
    q <= s || (|s| > 0 && Occurs(q, s[1..]))
  }

  /** `a` and `b` have the same characters on their common length. */
  predicate Agree(a: string, b: string) {
    forall j :: 0 <= j < |a| && j < |b| ==> a[j] == b[j]
  }

  /**
   * `rep` cannot overlap an occurrence of `q` in any alignment: no occurrence of `q`
   * can start inside `rep`, and `rep` cannot continue a proper prefix of `q`.
   * Then writing `rep` into a text never creates an occurrence of `q`.
   */
  predicate Isolated(rep: string, q: string) {
    && |rep| > 0 && |q| > 0
    && (forall i :: 0 <= i < |rep| ==> !Agree(rep[i..], q))
    && (forall k :: 1 <= k < |q| ==> !Agree(rep, q[k..]))
  }

  /** Python's `s.replace(pat, rep)`: every non-overlapping occurrence, scanned left to right. */
  function ReplaceAll(s: string, pat: string, rep: string): string
    requires |pat| > 0
    decreases |s|
  {
    if |s| < |pat| then s
    else if pat <= s then rep + ReplaceAll(s[|pat|..], pat, rep)
    else [s[0]] + ReplaceAll(s[1..], pat, rep)
  }

  lemma PrefixCons(x: string, y: string)
    requires |x| > 0 && |y| > 0
    ensures x <= y <==> x[0] == y[0] && x[1..] <= y[1..]
  {
    if x[0] == y[0] && x[1..] <= y[1..] {
      assert x == [x[0]] + x[1..];
      assert y[..|x|] == [y[0]] + y[1..][..|x| - 1];
    }
  }

  lemma {:induction false} OccursLength(q: string, s: string)
    ensures Occurs(q, s) ==> |q| <= |s|
    decreases |s|
  {
    if |s| > 0 {
      OccursLength(q, s[1..]);
    }
  }

  /** An occurrence in a suffix is an occurrence in the whole text. */
  lemma {:induction false} OccursInSuffix(q: string, s: string, k: nat)
    requires k <= |s|
    ensures Occurs(q, s[k..]) ==> Occurs(q, s)
    decreases k
  {
    if k > 0 {
      assert s[1..][k - 1..] == s[k..];
      OccursInSuffix(q, s[1..], k - 1);
    }
  }

  /** An occurrence in a prefix is an occurrence in the whole text. */
  lemma {:induction false} OccursInPrefix(q: string, s: string, k: nat)
    requires k <= |s|
    ensures Occurs(q, s[..k]) ==> Occurs(q, s)
    decreases |s|
  {
    if k > 0 {
      assert s[..k][1..] == s[1..][..k - 1];
      OccursInPrefix(q, s[1..], k - 1);
    }
  }

  /** An occurrence in either part of a concatenation is an occurrence in it. */
  lemma OccursInConcat(q: string, a: string, b: string)
    ensures Occurs(q, a) ==> Occurs(q, a + b)
    ensures Occurs(q, b) ==> Occurs(q, a + b)
  {
    assert (a + b)[..|a|] == a;
    assert (a + b)[|a|..] == b;
    OccursInPrefix(q, a + b, |a|);
    OccursInSuffix(q, a + b, |a|);
  }

  /** A character that `q` does not contain splits every occurrence of `q` to one side. */
  lemma {:induction false} OccursAroundSeparator(q: string, a: string, c: char, b: string)
    requires c !in q
    ensures Occurs(q, a + [c] + b) ==> Occurs(q, a) || Occurs(q, b)
    decreases |a|
  {
    var s := a + [c] + b;
    assert s[|a|] == c;
    if |q| <= |a| && q <= s {
      assert q == a[..|q|];
    }
    if |a| == 0 {
      assert s[1..] == b;
    } else {
      assert s[1..] == a[1..] + [c] + b;
      OccursAroundSeparator(q, a[1..], c, b);
    }
  }

  /** Text that cannot overlap `q` can be put in front of a text without creating an occurrence. */
  lemma {:induction false} PrependNoOverlap(a: string, r: string, q: string)
    requires forall i :: 0 <= i < |a| ==> !Agree(a[i..], q)
    requires !Occurs(q, r)
    ensures !Occurs(q, a + r)
    decreases |a|
  {
    if |a| == 0 {
      assert a + r == r;
    } else {
      assert a[0..] == a;
      forall j | 0 <= j < |a| && j < |q| && q <= a + r
        ensures a[j] == q[j]
      {
        assert q[j] == (a + r)[j];
      }
      assert !(q <= a + r);
      forall i | 0 <= i < |a[1..]|
        ensures !Agree(a[1..][i..], q)
      {
        assert a[1..][i..] == a[i + 1..];
      }
      PrependNoOverlap(a[1..], r, q);
      assert (a + r)[1..] == a[1..] + r;
    }
  }

  /**
   * If a replacement result starts with a proper suffix of `q`, the text before the
   * replacement started with it too: an isolated replacement cannot supply those characters.
   */
  lemma {:induction false} ReplacedPrefix(s: string, pat: string, rep: string, q: string, k: nat)
    requires |pat| > 0 && Isolated(rep, q) && 1 <= k <= |q|
    ensures q[k..] <= ReplaceAll(s, pat, rep) ==> q[k..] <= s
    decreases |s|
  {
    var r := ReplaceAll(s, pat, rep);
    if |s| < |pat| || k == |q| {
    } else if pat <= s {
      assert r == rep + ReplaceAll(s[|pat|..], pat, rep);
      assert !Agree(rep, q[k..]);
      forall j | 0 <= j < |rep| && j < |q[k..]| && q[k..] <= r
        ensures rep[j] == q[k..][j]
      {
        assert r[j] == rep[j];
      }
    } else {
      var r' := ReplaceAll(s[1..], pat, rep);
      ReplacedPrefix(s[1..], pat, rep, q, k + 1);
      assert r == [s[0]] + r';
      assert r[1..] == r';
      assert q[k..][1..] == q[k + 1..];
      PrefixCons(q[k..], r);
      PrefixCons(q[k..], s);
    }
  }

  /** After `s.replace(pat, rep)` with an isolated `rep`, `pat` no longer occurs. */
  lemma {:induction false} ReplaceAllRemoves(s: string, pat: string, rep: string)
    requires Isolated(rep, pat)
    ensures !Occurs(pat, ReplaceAll(s, pat, rep))
    decreases |s|
  {
    var r := ReplaceAll(s, pat, rep);
    if |s| < |pat| {
      OccursLength(pat, r);
    } else if pat <= s {
      ReplaceAllRemoves(s[|pat|..], pat, rep);
      PrependNoOverlap(rep, ReplaceAll(s[|pat|..], pat, rep), pat);
    } else {
      var r' := ReplaceAll(s[1..], pat, rep);
      ReplaceAllRemoves(s[1..], pat, rep);
      ReplacedPrefix(s[1..], pat, rep, pat, 1);
      assert r == [s[0]] + r';
      assert r[1..] == r';
      PrefixCons(pat, r);
      PrefixCons(pat, s);
    }
  }

  /** `s.replace(pat, rep)` with a `rep` isolated from `q` does not create an occurrence of `q`. */
  lemma {:induction false} ReplaceAllKeepsAbsent(s: string, pat: string, rep: string, q: string)
    requires |pat| > 0 && Isolated(rep, q) && !Occurs(q, s)
    ensures !Occurs(q, ReplaceAll(s, pat, rep))
    decreases |s|
  {
    var r := ReplaceAll(s, pat, rep);
    if |s| < |pat| {
    } else if pat <= s {
      OccursInSuffix(q, s, |pat|);
      ReplaceAllKeepsAbsent(s[|pat|..], pat, rep, q);
      PrependNoOverlap(rep, ReplaceAll(s[|pat|..], pat, rep), q);
    } else {
      var r' := ReplaceAll(s[1..], pat, rep);
      ReplaceAllKeepsAbsent(s[1..], pat, rep, q);
      ReplacedPrefix(s[1..], pat, rep, q, 1);
      assert r == [s[0]] + r';
      assert r[1..] == r';
      PrefixCons(q, r);
      PrefixCons(q, s);
    }
  }

  /** `s.replace(pat, rep)` leaves a text without `pat` unchanged. */
  lemma {:induction false} ReplaceAllAbsent(s: string, pat: string, rep: string)
    requires |pat| > 0 && !Occurs(pat, s)
    ensures ReplaceAll(s, pat, rep) == s
    decreases |s|
  {
    if |s| >= |pat| {
      ReplaceAllAbsent(s[1..], pat, rep);
      assert s == [s[0]] + s[1..];
    }
  }

  /** A replacement made of characters that `q` does not contain is isolated from `q`. */
  lemma DisjointIsolated(rep: string, q: string)
    requires |rep| > 0 && |q| > 0
    requires forall i :: 0 <= i < |rep| ==> rep[i] !in q
    ensures Isolated(rep, q)
  {
    forall i | 0 <= i < |rep|
      ensures !Agree(rep[i..], q)
    {
      assert rep[i..][0] == rep[i];
    }
    forall k | 1 <= k < |q|
      ensures !Agree(rep, q[k..])
    {
      assert q[k..][0] == q[k];
    }
  }

  /** Python's `s.split(c)[0]`: the text before the first `c`, or all of `s`. */
  function BeforeFirst(s: string, c: char): (r: string)
    ensures r <= s && c !in r
    ensures |r| < |s| ==> s[|r|] == c
    ensures c !in s ==> r == s
  {
    if |s| == 0 then s
    else if s[0] == c then []
    else [s[0]] + BeforeFirst(s[1..], c)
  }

  /**
   * Python's `s.split(c, 1)` when it yields two parts: the text before the first `c`
   * and the text after it; None when `c` does not occur (a one-element list).
   */
  function SplitOnce(s: string, c: char): (r: Option<(string, string)>)
    ensures r.None? <==> c !in s
    ensures r.Some? ==> s == r.value.0 + [c] + r.value.1 && c !in r.value.0
  {
    var before := BeforeFirst(s, c);
    if |before| == |s| then None
    else
      assert s == before + [c] + s[|before| + 1..];
      Some((before, s[|before| + 1..]))
  }

  /** Python's `s.lstrip(chars)`: drops every leading character that belongs to `chars`. */
  function LStrip(s: string, chars: set<char>): (r: string)
    ensures |r| <= |s| && r == s[|s| - |r|..]
    ensures |r| > 0 ==> r[0] !in chars
    ensures forall i :: 0 <= i < |s| - |r| ==> s[i] in chars
  {
    if |s| > 0 && s[0] in chars then LStrip(s[1..], chars) else s
  }

  /** Trailing-character counterpart of LStrip. */
  function RStrip(s: string, chars: set<char>): (r: string)
    ensures r <= s
    ensures |r| > 0 ==> r[|r| - 1] !in chars
    ensures forall i :: |r| <= i < |s| ==> s[i] in chars
  {
    if |s| > 0 && s[|s| - 1] in chars then RStrip(s[..|s| - 1], chars) else s
  }

  /** The ASCII characters that Python's `str.strip()` removes. */
  const Whitespace: set<char> :=
    {' ', '\t', '\n', '\r', '\U{0B}', '\U{0C}', '\U{1C}', '\U{1D}', '\U{1E}', '\U{1F}'}

  /** Python's `s.strip()`, restricted to ASCII whitespace. */
  function Strip(s: string): string {
    RStrip(LStrip(s, Whitespace), Whitespace)
  }

  /** Stripping leaves a text without leading or trailing whitespace unchanged. */
  lemma StripClean(s: string)
    requires |s| > 0 ==> s[0] !in Whitespace && s[|s| - 1] !in Whitespace
    ensures Strip(s) == s
  {
  }

  import opened Wrappers
}
