/**
 * `string.Split(char)`: a permission or pattern is a path of segments
 * separated by `:`. Splitting keeps empty segments and always yields at
 * least one segment (the empty string splits into one empty segment).
 */
module Segments {

  /** The segments of `s` between occurrences of `sep`. */
  function Split(s: string, sep: char): (r: seq<string>)
    ensures |r| >= 1
    decreases |s|
  {
    if |s| == 0 then [""]
    else
      var rest := Split(s[1..], sep);
      if s[0] == sep then [""] + rest
      else [[s[0]] + rest[0]] + rest[1..]
  }

  /** Glues segments back together with `sep` between neighbours. */
  function Join(segs: seq<string>, sep: char): string
    requires |segs| >= 1
    decreases |segs|
  {
    if |segs| == 1 then segs[0] else segs[0] + [sep] + Join(segs[1..], sep)
  }

  /** No segment contains the separator. */
  lemma {:induction false} SplitSegmentsFree(s: string, sep: char)
    ensures forall i :: 0 <= i < |Split(s, sep)| ==> sep !in Split(s, sep)[i]
    decreases |s|
  {
    if |s| > 0 {
      SplitSegmentsFree(s[1..], sep);
    }
  }

  /** A string without the separator is a single segment. */
  lemma {:induction false} SplitWithoutSeparator(s: string, sep: char)
    requires sep !in s
    ensures Split(s, sep) == [s]
    decreases |s|
  {
    if |s| > 0 {
      SplitWithoutSeparator(s[1..], sep);
      assert s == [s[0]] + s[1..];
    }
  }

  /** Joining the segments of a split gives back the original string. */
  lemma {:induction false} JoinSplit(s: string, sep: char)
    ensures Join(Split(s, sep), sep) == s
    decreases |s|
  {
    if |s| > 0 {
      var rest := Split(s[1..], sep);
      JoinSplit(s[1..], sep);
      if s[0] == sep {
        assert Split(s, sep)[1..] == rest;
      } else {
        var r := Split(s, sep);
        if |rest| == 1 {
          assert r == [[s[0]] + rest[0]];
        } else {
          assert r[1..] == rest[1..];
        }
        assert s == [s[0]] + s[1..];
      }
    }
  }

  /** Splitting a join of separator-free segments gives the segments back. */
  lemma {:induction false} SplitJoin(segs: seq<string>, sep: char)
    requires |segs| >= 1
    requires forall i :: 0 <= i < |segs| ==> sep !in segs[i]
    ensures Split(Join(segs, sep), sep) == segs
    decreases |segs|
  {
    SplitWithoutSeparator(segs[0], sep);
    if |segs| > 1 {
      SplitJoin(segs[1..], sep);
      SplitConcat(segs[0], sep, Join(segs[1..], sep));
      assert segs == [segs[0]] + segs[1..];
    }
  }

  /** The number of segments is one more than the number of separators. */
  lemma {:induction false} SplitCount(s: string, sep: char)
    ensures |Split(s, sep)| == multiset(s)[sep] + 1
    decreases |s|
  {
    if |s| > 0 {
      SplitCount(s[1..], sep);
      assert s == [s[0]] + s[1..];
    }
  }

  /** Splitting at a separator splits the two sides independently. */
  lemma {:induction false} SplitConcat(a: string, sep: char, b: string)
    ensures Split(a + [sep] + b, sep) == Split(a, sep) + Split(b, sep)
    decreases |a|
  {
    if |a| == 0 {
      assert a + [sep] + b == [sep] + b;
      SplitConsSep(b, sep);
    } else {
      SplitConcat(a[1..], sep, b);
      var t := a[1..] + [sep] + b;
      assert a + [sep] + b == [a[0]] + t;
      assert a == [a[0]] + a[1..];
      SplitConcatStep(a[0], a[1..], sep, b);
    }
  }

  /** The inductive step of SplitConcat: one more leading character. */
  lemma SplitConcatStep(c: char, a: string, sep: char, b: string)
    requires Split(a + [sep] + b, sep) == Split(a, sep) + Split(b, sep)
    ensures Split([c] + (a + [sep] + b), sep) == Split([c] + a, sep) + Split(b, sep)
  {
    if c == sep {
      SplitConsSep(a + [sep] + b, sep);
      SplitConsSep(a, sep);
      PushEmpty(Split(a + [sep] + b, sep), Split(a, sep), Split(b, sep));
    } else {
      SplitConcatStepOther(c, a, sep, b);
    }
  }

  lemma SplitConcatStepOther(c: char, a: string, sep: char, b: string)
    requires c != sep
    requires Split(a + [sep] + b, sep) == Split(a, sep) + Split(b, sep)
    ensures Split([c] + (a + [sep] + b), sep) == Split([c] + a, sep) + Split(b, sep)
  {
    SplitConsOther(c, a + [sep] + b, sep);
    SplitConsOther(c, a, sep);
    PushHead(c, Split(a + [sep] + b, sep), Split(a, sep), Split(b, sep));
  }

  /** Opening an empty first segment commutes with appending further segments. */
  lemma PushEmpty(S: seq<string>, R: seq<string>, B: seq<string>)
    requires S == R + B
    ensures [""] + S == ([""] + R) + B
  {
  }

  /** Prefixing the first segment commutes with appending further segments. */
  lemma PushHead(c: char, S: seq<string>, R: seq<string>, B: seq<string>)
    requires |R| >= 1 && S == R + B
    ensures [[c] + S[0]] + S[1..] == ([[c] + R[0]] + R[1..]) + B
  {
    assert S[1..] == R[1..] + B;
  }

  lemma SplitConsSep(t: string, sep: char)
    ensures Split([sep] + t, sep) == [""] + Split(t, sep)
  {
    assert ([sep] + t)[1..] == t;
  }

  lemma SplitConsOther(c: char, t: string, sep: char)
    requires c != sep
    ensures Split([c] + t, sep) == [[c] + Split(t, sep)[0]] + Split(t, sep)[1..]
  {
    assert ([c] + t)[1..] == t;
  }
}
