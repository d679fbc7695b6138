/**
 * Splitting a qualified class name into its nested-class path, as
 * `sourceName.split("\\$", -1)` does: every '$' separates two segments and
 * empty segments, leading or trailing, are kept.
 */
module ClassPath {

  /** The separator, written in the source as the character code 36. */
  const Dollar: char := 36 as char

  /** Joins segments with '$'; the inverse of GetTestClassPath. */
  function Join(segs: seq<string>): string
    requires |segs| > 0
  {
    if |segs| == 1 then segs[0] else segs[0] + [Dollar] + Join(segs[1..])
  }

  predicate NoDollar(s: string) { Dollar !in s }

  /** The nested-class path of a qualified name. */
  function GetTestClassPath(s: string): (segs: seq<string>)
    ensures |segs| > 0
    ensures forall k | 0 <= k < |segs| :: NoDollar(segs[k])
    ensures Join(segs) == s
    decreases |s|
  {
    if |s| == 0 then [""]
    else
      var rest := GetTestClassPath(s[1..]);
      if s[0] == Dollar then
        assert s == [Dollar] + s[1..];
        [""] + rest
      else
        assert s == [s[0]] + rest[0] + (s[1..][|rest[0]|..]) by {
          JoinHead(rest);
        }
        var segs := [[s[0]] + rest[0]] + rest[1..];
        JoinCons(s[0], rest);
        segs
  }

  lemma JoinHead(segs: seq<string>)
    requires |segs| > 0
    ensures Join(segs)[..|segs[0]|] == segs[0]
  {
  }

  lemma {:induction false} JoinCons(c: char, segs: seq<string>)
    requires |segs| > 0
    ensures Join([[c] + segs[0]] + segs[1..]) == [c] + Join(segs)
  {
    var first := [[c] + segs[0]] + segs[1..];
    assert first[1..] == segs[1..];
  }

  /** The root class name: the first segment of the path. */
  function SourceRootName(s: string): string
  {
    GetTestClassPath(s)[0]
  }

  /** A name denotes a nested class exactly when it contains '$'. */
  predicate HasDollar(s: string) { Dollar in s }

  /** A segment without '$' splits to itself. */
  lemma {:induction false} SplitSingle(a: string)
    requires NoDollar(a)
    ensures GetTestClassPath(a) == [a]
    decreases |a|
  {
    if |a| > 0 {
      SplitSingle(a[1..]);
    }
  }

  /** The first '$' ends the first segment. */
  lemma {:induction false} SplitAtFirstDollar(a: string, b: string)
    requires NoDollar(a)
    ensures GetTestClassPath(a + [Dollar] + b) == [a] + GetTestClassPath(b)
    decreases |a|
  {
    var s := a + [Dollar] + b;
    if |a| == 0 {
      assert s[1..] == b;
    } else {
      assert s[1..] == a[1..] + [Dollar] + b;
      SplitAtFirstDollar(a[1..], b);
      assert [a[0]] + a[1..] == a;
    }
  }

  /** Splitting undoes joining: the path is recovered from its qualified name. */
  lemma {:induction false} SplitJoin(segs: seq<string>)
    requires |segs| > 0
    requires forall k | 0 <= k < |segs| :: NoDollar(segs[k])
    ensures GetTestClassPath(Join(segs)) == segs
  {
    if |segs| == 1 {
      SplitSingle(segs[0]);
    } else {
      SplitJoin(segs[1..]);
      SplitAtFirstDollar(segs[0], Join(segs[1..]));
      assert [segs[0]] + segs[1..] == segs;
    }
  }

  /** A name has more than one segment exactly when it contains '$'. */
  lemma {:induction false} NestedIffManySegments(s: string)
    ensures HasDollar(s) <==> |GetTestClassPath(s)| > 1
  {
    var segs := GetTestClassPath(s);
    if |segs| == 1 {
      assert Join(segs) == segs[0];
    } else {
      assert Join(segs) == segs[0] + [Dollar] + Join(segs[1..]);
      assert s[|segs[0]|] == Dollar;
    }
  }

  /** The root name is the longest '$'-free prefix of the qualified name. */
  lemma {:induction false} SourceRootNameIsPrefix(s: string)
    ensures |SourceRootName(s)| <= |s|
    ensures SourceRootName(s) == s[..|SourceRootName(s)|]
    ensures NoDollar(SourceRootName(s))
    ensures SourceRootName(s) == s || s[|SourceRootName(s)|] == Dollar
  {
    var segs := GetTestClassPath(s);
    if |segs| > 1 {
      assert Join(segs) == segs[0] + [Dollar] + Join(segs[1..]);
    }
  }
}
