/**
 * The POSIX `os.path` functions the output handlers use: `join` of two parts, `isabs`
 * and `splitext`, plus the `f"{name}_{suffix}{ext}"` insertion both handlers perform.
 */
module PyPath {

  /** `os.path.isabs`. */
  predicate IsAbs(p: string) {
    |p| > 0 && p[0] == '/'
  }

  /**
   * `os.path.join(a, b)`: an absolute `b` replaces `a`; otherwise `b` is appended, with a
   * `/` in between unless `a` is empty or already ends with one.
   */
  function Join(a: string, b: string): (r: string)
    ensures IsAbs(b) ==> r == b
    ensures !IsAbs(b) ==> a <= r && |b| <= |r| && r[|r| - |b|..] == b
    ensures !IsAbs(b) && a != "" && a[|a| - 1] != '/' ==> r == a + "/" + b
  {
    if IsAbs(b) then b
    else if a == "" || a[|a| - 1] == '/' then a + b
    else a + "/" + b
  }

  /** `p.rfind(c)`: the index of the last `c`, or -1. */
  function RFind(p: string, c: char): (r: int)
    ensures -1 <= r < |p|
    ensures r >= 0 ==> p[r] == c
    ensures forall j :: r < j < |p| ==> p[j] != c
    ensures r == -1 <==> c !in p
  {
    if |p| == 0 then -1
    else if p[|p| - 1] == c then |p| - 1
    else RFind(p[..|p| - 1], c)
  }

  /** A character other than `.` in `p[from..to]`. */
  predicate HasNonDot(p: string, from: int, to: int)
    requires 0 <= from && to <= |p|
  {
    exists j :: from <= j < to && p[j] != '.'
  }

  /**
   * `os.path.splitext(p)`: splits at the last `.` of the final path component, unless
   * everything before that dot in the component is dots (a leading-dot name like `.hidden`).
   */
  function SplitExt(p: string): (r: (string, string))
    ensures r.0 + r.1 == p
    ensures r.1 == "" || (r.1[0] == '.' && '/' !in r.1 && '.' !in r.1[1..])
  {
    var sep := RFind(p, '/');
    var dot := RFind(p, '.');
    if dot > sep && HasNonDot(p, sep + 1, dot) then
      assert p[dot..][1..] == p[dot + 1..];
      (p[..dot], p[dot..])
    else (p, "")
  }

  /** The `f"{name}_{suffix}{ext}"` step: a non-empty suffix goes right before the extension. */
  function InsertSuffix(filename: string, suffix: string): string {
    if suffix == "" then filename
    else
      var parts := SplitExt(filename);
      parts.0 + "_" + suffix + parts.1
  }

  /** `k` is where the last `c` of `p` sits (-1: nowhere), so `rfind` returns it. */
  lemma RFindIs(p: string, c: char, k: int)
    requires -1 <= k < |p| && (k >= 0 ==> p[k] == c)
    requires forall j :: k < j < |p| ==> p[j] != c
    ensures RFind(p, c) == k
  {
  }

  /** A final component `stem.ext`, with a stem that does not start with a dot, splits at that dot. */
  lemma SplitExtPlain(dir: string, stem: string, ext: string)
    requires '.' !in stem && '/' !in stem && |stem| > 0
    requires '.' !in ext && '/' !in ext
    ensures SplitExt(dir + "/" + stem + "." + ext) == (dir + "/" + stem, "." + ext)
  {
    var p := dir + "/" + stem + "." + ext;
    var n := |dir|;
    var dot := n + 1 + |stem|;
    PlainSeparators(dir, stem, ext);
    assert p[n + 1] == stem[0];
    assert HasNonDot(p, n + 1, dot);
    assert p[..dot] == dir + "/" + stem;
    assert p[dot..] == "." + ext;
  }

  /** In `dir/stem.ext` the last '/' is the one after `dir` and the last '.' the one after `stem`. */
  lemma PlainSeparators(dir: string, stem: string, ext: string)
    requires '.' !in stem && '/' !in stem
    requires '.' !in ext && '/' !in ext
    ensures var p := dir + "/" + stem + "." + ext;
      RFind(p, '/') == |dir| && RFind(p, '.') == |dir| + 1 + |stem|
  {
    var p := dir + "/" + stem + "." + ext;
    var n := |dir|;
    var dot := n + 1 + |stem|;
    forall j | n < j < |p|
      ensures p[j] != '/'
    {
      if j < dot {
        assert p[j] == stem[j - n - 1];
      } else if j > dot {
        assert p[j] == ext[j - dot - 1];
      }
    }
    RFindIs(p, '/', n);
    forall j | dot < j < |p|
      ensures p[j] != '.'
    {
      assert p[j] == ext[j - dot - 1];
    }
    RFindIs(p, '.', dot);
  }

  /** A final component made of one leading dot and a name keeps its dot: there is no extension. */
  lemma SplitExtLeadingDot(dir: string, name: string)
    requires '.' !in name && '/' !in name
    ensures SplitExt(dir + "/." + name) == (dir + "/." + name, "")
  {
    var p := dir + "/." + name;
    var n := |dir|;
    forall j | n < j < |p|
      ensures p[j] != '/'
    {
      if j > n + 1 {
        assert p[j] == name[j - n - 2];
      }
    }
    RFindIs(p, '/', n);
    forall j | n + 1 < j < |p|
      ensures p[j] != '.'
    {
      assert p[j] == name[j - n - 2];
    }
    RFindIs(p, '.', n + 1);
    assert !HasNonDot(p, n + 1, n + 1);
  }

  /** Inserting a suffix into a name without extension appends `_suffix` and still finds none. */
  lemma InsertSuffixNoExtension(filename: string, suffix: string)
    requires suffix != "" && '.' !in suffix && '/' !in suffix
    requires SplitExt(filename).1 == ""
    ensures SplitExt(InsertSuffix(filename, suffix)) == (filename + "_" + suffix, "")
  {
    var r := filename + "_" + suffix;
    assert InsertSuffix(filename, suffix) == r;
    var sep := RFind(filename, '/');
    var dot := RFind(filename, '.');
    AppendedKeeps(filename, suffix, '/');
    AppendedKeeps(filename, suffix, '.');
    if dot > sep {
      assert !HasNonDot(filename, sep + 1, dot);
      forall j | sep + 1 <= j < dot
        ensures r[j] == '.'
      {
        assert r[j] == filename[j];
      }
    }
  }

  /** Appending `_suffix` with no `c` in it leaves the last `c` where it was. */
  lemma AppendedKeeps(filename: string, suffix: string, c: char)
    requires c !in suffix && c != '_'
    ensures RFind(filename + "_" + suffix, c) == RFind(filename, c)
  {
    var r := filename + "_" + suffix;
    var n := |filename|;
    var k := RFind(filename, c);
    forall j | k < j < |r|
      ensures r[j] != c
    {
      if j > n {
        assert r[j] == suffix[j - n - 1];
      } else if j < n {
        assert r[j] == filename[j];
      }
    }
    RFindIs(r, c, k);
  }

  /** Inserting a suffix into a name with an extension puts `_suffix` between stem and extension. */
  lemma InsertSuffixWithExtension(filename: string, suffix: string)
    requires suffix != "" && '.' !in suffix && '/' !in suffix
    requires SplitExt(filename).1 != ""
    ensures var parts := SplitExt(filename);
      SplitExt(InsertSuffix(filename, suffix)) == (parts.0 + "_" + suffix, parts.1)
  {
    var parts := SplitExt(filename);
    var stem := parts.0 + "_" + suffix;
    var r := stem + parts.1;
    assert InsertSuffix(filename, suffix) == r;
    var sep := RFind(filename, '/');
    InsertedSlash(filename, suffix);
    InsertedDot(filename, suffix);
    assert r[|parts.0|] == '_';
    assert HasNonDot(r, sep + 1, |stem|);
    assert r[..|stem|] == stem;
    assert r[|stem|..] == parts.1;
  }

  /** The last '/' stays where it was when `_suffix` goes before a non-empty extension. */
  lemma InsertedSlash(filename: string, suffix: string)
    requires '.' !in suffix && '/' !in suffix
    requires SplitExt(filename).1 != ""
    ensures var parts := SplitExt(filename);
      RFind(parts.0 + "_" + suffix + parts.1, '/') == RFind(filename, '/')
  {
    var parts := SplitExt(filename);
    var name, ext := parts.0, parts.1;
    var stem := name + "_" + suffix;
    var r := stem + ext;
    var n, m := |name|, |stem|;
    var sep := RFind(filename, '/');
    assert RFind(filename, '.') == n;
    forall j | sep < j < |r|
      ensures r[j] != '/'
    {
      if j < n {
        assert r[j] == filename[j];
      } else if n < j < m {
        assert r[j] == suffix[j - n - 1];
      } else if j >= m {
        assert r[j] == ext[j - m];
      }
    }
    RFindIs(r, '/', sep);
  }

  /** The last '.' is the one that starts the extension, now after `_suffix`. */
  lemma InsertedDot(filename: string, suffix: string)
    requires SplitExt(filename).1 != ""
    ensures var parts := SplitExt(filename);
      RFind(parts.0 + "_" + suffix + parts.1, '.') == |parts.0 + "_" + suffix|
  {
    var parts := SplitExt(filename);
    var stem := parts.0 + "_" + suffix;
    var r := stem + parts.1;
    var m := |stem|;
    forall j | m < j < |r|
      ensures r[j] != '.'
    {
      assert r[j] == parts.1[1..][j - m - 1];
    }
    RFindIs(r, '.', m);
  }

  /**
   * Inserting a suffix without dots or slashes keeps the extension: splitting the result
   * gives the old stem with `_suffix` appended, and the old extension.
   */
  lemma InsertSuffixKeepsExtension(filename: string, suffix: string)
    requires suffix != "" && '.' !in suffix && '/' !in suffix
    ensures var parts := SplitExt(filename);
      SplitExt(InsertSuffix(filename, suffix)) == (parts.0 + "_" + suffix, parts.1)
  {
    if SplitExt(filename).1 == "" {
      InsertSuffixNoExtension(filename, suffix);
    } else {
      InsertSuffixWithExtension(filename, suffix);
    }
  }
}
