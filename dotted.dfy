/**
 * Dotted names: Python's `str.split('.')`, the matching `'.'.join`, and
 * `str.startswith`, which the parser and the shadow index rely on.
 */
module Dotted {

  predicate DotFree(s: string) {
    '.' !in s
  }

  /** Python's `s.split('.')`: never empty; `"a..b"` gives `["a", "", "b"]`. */
  function Split(s: string): (parts: seq<string>)
    ensures |parts| >= 1
    ensures forall i :: 0 <= i < |parts| ==> DotFree(parts[i])
  {
    if |s| == 0 then [""]
    else
      var rest := Split(s[1..]);
      if s[0] == '.' then [""] + rest
      else [[s[0]] + rest[0]] + rest[1..]
  }

  /** `'.'.join(parts)` for a non-empty list of parts. */
  function Join(parts: seq<string>): string
    requires |parts| >= 1
  {
    if |parts| == 1 then parts[0] else parts[0] + "." + Join(parts[1..])
  }

  predicate AllDotFree(parts: seq<string>) {
    forall i :: 0 <= i < |parts| ==> DotFree(parts[i])
  }

  /** Python's `s.startswith(prefix)`. */
  predicate StartsWith(s: string, prefix: string) {
    |prefix| <= |s| && s[..|prefix|] == prefix
  }

  /** The number of '.' characters in `s`. */
  function CountDots(s: string): nat {
    if |s| == 0 then 0 else (if s[0] == '.' then 1 else 0) + CountDots(s[1..])
  }

  lemma {:induction false} SplitDotFree(a: string)
    requires DotFree(a)
    ensures Split(a) == [a]
  {
    if |a| > 0 {
      assert a[0] != '.' by { assert a[0] in a; }
      assert DotFree(a[1..]) by {
        forall k | 0 <= k < |a| - 1 ensures a[1..][k] != '.' { assert a[1..][k] == a[k + 1]; }
      }
      SplitDotFree(a[1..]);
      assert [a[0]] + a[1..] == a;
    }
  }

  lemma {:induction false} SplitSegment(a: string, rest: string)
    requires DotFree(a)
    ensures Split(a + "." + rest) == [a] + Split(rest)
  {
    if |a| == 0 {
      assert a + "." + rest == ['.'] + rest;
      assert (a + "." + rest)[1..] == rest;
    } else {
      var s := a + "." + rest;
      assert s[1..] == a[1..] + "." + rest;
      SplitSegment(a[1..], rest);
      assert [a[0]] + a[1..] == a;
    }
  }

  /** Joins of two, three and four parts, written out. */
  lemma Join2(a: string, b: string)
    ensures Join([a, b]) == a + "." + b
  {
    assert [a, b][1..] == [b];
  }

  lemma Join3(a: string, b: string, c: string)
    ensures Join([a, b, c]) == a + "." + b + "." + c
  {
    assert [a, b, c][1..] == [b, c];
    Join2(b, c);
  }

  lemma Join4(a: string, b: string, c: string, d: string)
    ensures Join([a, b, c, d]) == a + "." + b + "." + c + "." + d
  {
    assert [a, b, c, d][1..] == [b, c, d];
    Join3(b, c, d);
  }

  /** Splitting a joined list of dot-free parts gives the parts back. */
  lemma {:induction false} SplitJoin(parts: seq<string>)
    requires |parts| >= 1 && AllDotFree(parts)
    ensures Split(Join(parts)) == parts
  {
    if |parts| == 1 {
      SplitDotFree(parts[0]);
    } else {
      SplitJoin(parts[1..]);
      SplitSegment(parts[0], Join(parts[1..]));
      assert [parts[0]] + parts[1..] == parts;
    }
  }

  lemma {:induction false} JoinCons(c: char, parts: seq<string>)
    requires |parts| >= 1
    ensures Join([[c] + parts[0]] + parts[1..]) == [c] + Join(parts)
  {
    var q := [[c] + parts[0]] + parts[1..];
    assert q[1..] == parts[1..];
  }

  /** Joining the parts of a split gives the original string back. */
  lemma {:induction false} JoinSplit(s: string)
    ensures Join(Split(s)) == s
  {
    if |s| > 0 {
      var rest := Split(s[1..]);
      JoinSplit(s[1..]);
      if s[0] == '.' {
        assert ([""] + rest)[1..] == rest;
        assert [s[0]] + s[1..] == s;
      } else {
        JoinCons(s[0], rest);
        assert [s[0]] + s[1..] == s;
      }
    }
  }

  lemma {:induction false} CountDotsAppend(a: string, b: string)
    ensures CountDots(a + b) == CountDots(a) + CountDots(b)
  {
    if |a| > 0 {
      assert (a + b)[1..] == a[1..] + b;
      CountDotsAppend(a[1..], b);
    } else {
      assert a + b == b;
    }
  }

  lemma {:induction false} CountDotsFree(a: string)
    requires DotFree(a)
    ensures CountDots(a) == 0
  {
    if |a| > 0 {
      assert a[0] != '.' by { assert a[0] in a; }
      assert DotFree(a[1..]) by {
        forall k | 0 <= k < |a| - 1 ensures a[1..][k] != '.' { assert a[1..][k] == a[k + 1]; }
      }
      CountDotsFree(a[1..]);
    }
  }

  lemma StartsWithTrans(s: string, q: string, p: string)
    requires StartsWith(s, q) && StartsWith(q, p)
    ensures StartsWith(s, p)
  {
    assert s[..|p|] == s[..|q|][..|p|];
  }

  /**
   * A prefix of `q + "." + l` (with `l` dot-free) that is longer than `q`
   * holds exactly one dot more than `q`.
   */
  lemma PastLastDot(q: string, l: string, p: string)
    requires DotFree(l)
    requires StartsWith(q + "." + l, p)
    requires |p| > |q|
    ensures CountDots(p) == CountDots(q) + 1
  {
    var t := q + "." + l;
    var m := |p| - |q| - 1;
    var tail := l[..m];
    assert p == q + ("." + tail) by {
      assert t[..|p|] == q + ("." + tail);
    }
    assert DotFree(tail) by {
      forall k | 0 <= k < m ensures tail[k] != '.' {
        assert tail[k] == l[k];
        assert l[k] in l;
      }
    }
    CountDotsAppend(q, "." + tail);
    CountDotsAppend(".", tail);
    CountDotsFree(tail);
  }

  /**
   * If `q + "." + l` (with `l` dot-free) starts with `p` and `p` has no more
   * dots than `q`, then `q` already starts with `p`: a prefix cannot reach
   * past the last dot without containing it.
   */
  lemma PrefixBeforeLastDot(q: string, l: string, p: string)
    requires DotFree(l)
    requires StartsWith(q + "." + l, p)
    requires CountDots(p) <= CountDots(q)
    ensures StartsWith(q, p)
  {
    var t := q + "." + l;
    if |p| <= |q| {
      assert t[..|p|] == q[..|p|];
    } else {
      PastLastDot(q, l, p);
      assert false;
    }
  }

  /** Joining splits off the last part behind the last dot. */
  lemma {:induction false} JoinSnoc(parts: seq<string>)
    requires |parts| >= 2
    ensures Join(parts) == Join(parts[..|parts| - 1]) + "." + parts[|parts| - 1]
  {
    if |parts| > 2 {
      JoinSnoc(parts[1..]);
      assert parts[1..][..|parts| - 2] == parts[..|parts| - 1][1..];
    }
  }

  /** A join of `k` dot-free parts has `k - 1` dots. */
  lemma {:induction false} CountDotsJoin(parts: seq<string>)
    requires |parts| >= 1 && AllDotFree(parts)
    ensures CountDots(Join(parts)) == |parts| - 1
  {
    CountDotsFree(parts[0]);
    if |parts| > 1 {
      assert AllDotFree(parts[1..]) by {
        forall i | 0 <= i < |parts| - 1 ensures DotFree(parts[1..][i]) { assert parts[1..][i] == parts[i + 1]; }
      }
      var rest := Join(parts[1..]);
      CountDotsJoin(parts[1..]);
      assert Join(parts) == parts[0] + ("." + rest);
      CountDotsAppend(parts[0], "." + rest);
      CountDotsAppend(".", rest);
      assert CountDots(".") == 1;
    }
  }
}
