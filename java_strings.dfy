/**
 * The few `java.lang.String` operations the analysis helpers rely on, over `seq<char>`:
 * `startsWith`, `endsWith`, `contains`, `indexOf`, `replace` (literal, all occurrences),
 * `split` on a literal separator (Java drops trailing empty segments) and the ASCII part
 * of `Character.isLowerCase` / `Character.toLowerCase`.
 */
module JavaStrings {
  import opened Wrappers

  /** `s.startsWith(p)` */
  predicate StartsWith(s: string, p: string) {
    |p| <= |s| && s[..|p|] == p
  }

  /** `s.endsWith(p)` */
  predicate EndsWith(s: string, p: string) {
    |p| <= |s| && s[|s| - |p|..] == p
  }

  /** `p` occurs in `s` at index `i`. */
  predicate OccursAt(s: string, p: string, i: int) {
    0 <= i && i + |p| <= |s| && s[i..i + |p|] == p
  }

  /** `s.contains(p)` */
  predicate Contains(s: string, p: string) {
    exists i | 0 <= i <= |s| - |p| :: OccursAt(s, p, i)
  }

  lemma OccursAtTail(s: string, p: string, k: int)
    requires |s| > 0 && 0 <= k
    ensures OccursAt(s[1..], p, k) <==> OccursAt(s, p, k + 1)
  {
    if k + 1 + |p| <= |s| {
      assert s[1..][k..k + |p|] == s[k + 1..k + 1 + |p|];
    }
  }

  lemma OccursAtPrefix(s: string, p: string, n: int, j: int)
    requires 0 <= n <= |s|
    ensures OccursAt(s[..n], p, j) ==> OccursAt(s, p, j)
  {
    if OccursAt(s[..n], p, j) {
      assert s[..n][j..j + |p|] == s[j..j + |p|];
    }
  }

  /** `s.indexOf(p, k)`: the first index from `k` on at which `p` occurs, `None` standing for -1. */
  function IndexFrom(s: string, p: string, k: nat): (r: Option<nat>)
    ensures r.Some? ==> k <= r.value && r.value + |p| <= |s|
    decreases |s| - k
  {
    if k + |p| > |s| then None
    else if OccursAt(s, p, k) then Some(k)
    else IndexFrom(s, p, k + 1)
  }

  /** What `IndexFrom` finds is an occurrence, the first from `k` on, and it finds nothing only when there is none. */
  lemma {:induction false} IndexFromSpec(s: string, p: string, k: nat)
    ensures IndexFrom(s, p, k).Some? ==> OccursAt(s, p, IndexFrom(s, p, k).value)
    ensures IndexFrom(s, p, k).Some? ==> forall j | k <= j < IndexFrom(s, p, k).value :: !OccursAt(s, p, j)
    ensures IndexFrom(s, p, k).None? <==> forall j | k <= j <= |s| - |p| :: !OccursAt(s, p, j)
    decreases |s| - k
  {
    if k + |p| <= |s| && !OccursAt(s, p, k) {
      IndexFromSpec(s, p, k + 1);
    }
  }

  /** `s.indexOf(p)`: the first index at which `p` occurs, `None` standing for -1. */
  function IndexOf(s: string, p: string): (r: Option<nat>)
    ensures r.Some? ==> OccursAt(s, p, r.value)
    ensures r.Some? ==> forall j :: 0 <= j < r.value ==> !OccursAt(s, p, j)
    ensures r.None? <==> !Contains(s, p)
  {
    IndexFromSpec(s, p, 0);
    IndexFrom(s, p, 0)
  }

  /**
   * `s.replace(t, rep)` for a non-empty target: where the target starts, it is replaced by
   * `rep` and the scan resumes after it; otherwise one character is copied. Replacements
   * therefore never overlap, the leftmost occurrence wins, and replaced text is not searched
   * again, which is the result the JDK's `indexOf` loop computes.
   */
  function ReplaceAll(s: string, t: string, rep: string): string
    requires |t| > 0
    decreases |s|
  {
    if |s| < |t| then s
    else if StartsWith(s, t) then rep + ReplaceAll(s[|t|..], t, rep)
    else [s[0]] + ReplaceAll(s[1..], t, rep)
  }

  /** A prefix in which no occurrence starts passes through `replace` unchanged. */
  lemma {:induction false} ReplaceAllAfterPrefix(x: string, y: string, t: string, rep: string)
    requires |t| > 0
    requires forall j | 0 <= j < |x| :: !OccursAt(x + y, t, j)
    ensures ReplaceAll(x + y, t, rep) == x + ReplaceAll(y, t, rep)
    decreases |x|
  {
    if |x| > 0 {
      var s := x + y;
      if |s| >= |t| {
        assert !StartsWith(s, t) by {
          assert !OccursAt(s, t, 0);
          assert s[..|t|] == s[0..0 + |t|];
        }
        assert ReplaceAll(s, t, rep) == [s[0]] + ReplaceAll(s[1..], t, rep);
        assert s[1..] == x[1..] + y;
        forall j | 0 <= j < |x| - 1 ensures !OccursAt(x[1..] + y, t, j) {
          OccursAtTail(s, t, j);
        }
        ReplaceAllAfterPrefix(x[1..], y, t, rep);
        var r := ReplaceAll(y, t, rep);
        assert s[0] == x[0];
        assert [x[0]] + (x[1..] + r) == ([x[0]] + x[1..]) + r;
        assert [x[0]] + x[1..] == x;
      } else {
        assert ReplaceAll(y, t, rep) == y;
      }
    } else {
      assert x + y == y;
    }
  }

  /** A string without the target is left as it is. */
  lemma ReplaceAllAbsent(s: string, t: string, rep: string)
    requires |t| > 0 && !Contains(s, t)
    ensures ReplaceAll(s, t, rep) == s
  {
    assert s + "" == s;
    ReplaceAllAfterPrefix(s, "", t, rep);
  }

  /** An occurrence at the very start becomes `rep`. */
  lemma ReplaceAllHead(y: string, t: string, rep: string)
    requires |t| > 0
    ensures ReplaceAll(t + y, t, rep) == rep + ReplaceAll(y, t, rep)
  {
    assert (t + y)[..|t|] == t;
    assert (t + y)[|t|..] == y;
  }

  /** The first occurrence, after a stretch in which none starts, becomes `rep`. */
  lemma ReplaceAllAtOccurrence(x: string, rest: string, t: string, rep: string)
    requires |t| > 0
    requires forall j | 0 <= j < |x| :: !OccursAt(x + (t + rest), t, j)
    ensures ReplaceAll(x + (t + rest), t, rep) == x + rep + ReplaceAll(rest, t, rep)
  {
    ReplaceAllAfterPrefix(x, t + rest, t, rep);
    ReplaceAllHead(rest, t, rep);
    var r := ReplaceAll(rest, t, rep);
    assert x + (rep + r) == x + rep + r;
  }

  /**
   * The replacement at the first occurrence `i`: the text before it, `rep`, and the
   * replacement of the text after it.
   */
  lemma ReplaceAllSplice(s: string, t: string, rep: string)
    requires |t| > 0 && Contains(s, t)
    ensures IndexOf(s, t).Some?
    ensures var i := IndexOf(s, t).value;
      ReplaceAll(s, t, rep) == s[..i] + rep + ReplaceAll(s[i + |t|..], t, rep)
  {
    var i := IndexOf(s, t).value;
    var x, rest := s[..i], s[i + |t|..];
    assert s == x + (t + rest) by {
      assert s[i..i + |t|] == t;
      assert s == s[..i] + s[i..i + |t|] + s[i + |t|..];
    }
    ReplaceAllAtOccurrence(x, rest, t, rep);
  }

  /** Text free of the target's first character passes through `replace` unchanged. */
  lemma ReplaceAllSkip(x: string, y: string, t: string, rep: string)
    requires |t| > 0 && t[0] !in x
    ensures ReplaceAll(x + y, t, rep) == x + ReplaceAll(y, t, rep)
  {
    forall j | 0 <= j < |x| ensures !OccursAt(x + y, t, j) {
      if j + |t| <= |x + y| {
        assert (x + y)[j..j + |t|][0] == x[j];
      }
    }
    ReplaceAllAfterPrefix(x, y, t, rep);
  }

  /** `s.replace(c, d)` for single characters: each `c` becomes `d`. */
  function ReplaceChar(s: string, c: char, d: char): (r: string)
    ensures |r| == |s|
  {
    if |s| == 0 then "" else [if s[0] == c then d else s[0]] + ReplaceChar(s[1..], c, d)
  }

  /** Character by character, `ReplaceChar` reads `c` as `d` and keeps everything else. */
  lemma {:induction false} ReplaceCharAt(s: string, c: char, d: char)
    ensures forall i | 0 <= i < |s| :: ReplaceChar(s, c, d)[i] == if s[i] == c then d else s[i]
  {
    if |s| > 0 {
      ReplaceCharAt(s[1..], c, d);
    }
  }

  /** Replacing a one-character text is replacing that character. */
  lemma {:induction false} ReplaceOneChar(s: string, c: char, d: char)
    ensures ReplaceAll(s, [c], [d]) == ReplaceChar(s, c, d)
    decreases |s|
  {
    ReplaceCharAt(s, c, d);
    match IndexOf(s, [c])
    case None =>
      forall k | 0 <= k < |s| ensures s[k] != c {
        assert s[k..k + 1] == [s[k]];
        assert !OccursAt(s, [c], k);
      }
      ReplaceAllAbsent(s, [c], [d]);
    case Some(i) =>
      ReplaceAllSplice(s, [c], [d]);
      var rest := s[i + 1..];
      ReplaceOneChar(rest, c, d);
      ReplaceCharAt(rest, c, d);
      var r := s[..i] + [d] + ReplaceChar(rest, c, d);
      forall k | 0 <= k < |s| ensures r[k] == ReplaceChar(s, c, d)[k] {
        assert s[k..k + 1] == [s[k]];
        if k < i {
          assert !OccursAt(s, [c], k);
        } else if k > i {
          assert rest[k - i - 1] == s[k];
        }
      }
  }

  lemma AppendAssoc(a: string, b: string, c: string)
    ensures a + b + c == a + (b + c)
  {
  }

  /** Glue the segments back together with `sep` between neighbours. */
  function Join(xs: seq<string>, sep: string): string {
    if |xs| == 0 then ""
    else if |xs| == 1 then xs[0]
    else xs[0] + sep + Join(xs[1..], sep)
  }

  lemma {:induction false} JoinSnoc(xs: seq<string>, y: string, sep: string)
    requires |xs| >= 1
    ensures Join(xs + [y], sep) == Join(xs, sep) + sep + y
  {
    if |xs| == 1 {
      assert (xs + [y])[1..] == [y];
    } else {
      assert (xs + [y])[1..] == xs[1..] + [y];
      JoinSnoc(xs[1..], y, sep);
    }
  }

  /**
   * All the segments of `s` around the non-overlapping occurrences of `sep`, found from
   * the left, empty segments included.
   */
  function SplitAll(s: string, sep: string): (r: seq<string>)
    requires |sep| > 0
    ensures |r| >= 1
    ensures Join(r, sep) == s
    ensures forall i | 0 <= i < |r| :: !Contains(r[i], sep)
    decreases |s|
  {
    match IndexOf(s, sep)
    case None => [s]
    case Some(k) =>
      var rest := SplitAll(s[k + |sep|..], sep);
      assert s == s[..k] + sep + s[k + |sep|..];
      assert !Contains(s[..k], sep) by {
        forall j | 0 <= j <= k - |sep| ensures !OccursAt(s[..k], sep, j) {
          OccursAtPrefix(s, sep, k, j);
        }
      }
      [s[..k]] + rest
  }

  /** Drop the empty segments at the end, as `String.split` with no limit does. */
  function DropTrailingEmpty(xs: seq<string>): (r: seq<string>)
    ensures |r| <= |xs| && r == xs[..|r|]
    ensures r == [] || r[|r| - 1] != ""
    ensures forall i | |r| <= i < |xs| :: xs[i] == ""
  {
    if xs == [] then []
    else if xs[|xs| - 1] == "" then DropTrailingEmpty(xs[..|xs| - 1])
    else xs
  }

  /**
   * `s.split(sep)` for a separator without regular-expression metacharacters: the input
   * itself when `sep` does not occur, otherwise the segments with trailing empty ones
   * removed (a leading empty segment is kept).
   */
  function JavaSplit(s: string, sep: string): seq<string>
    requires |sep| > 0
  {
    if !Contains(s, sep) then [s] else DropTrailingEmpty(SplitAll(s, sep))
  }

  /** The segments of a joined string are recovered when no segment holds `sep`'s first character. */
  lemma IndexOfAfterSegment(a: string, sep: string, b: string)
    requires |sep| > 0 && sep[0] !in a
    ensures IndexOf(a + sep + b, sep) == Some(|a|)
  {
    var s := a + sep + b;
    assert s[|a|..|a| + |sep|] == sep;
    assert OccursAt(s, sep, |a|);
    forall j | 0 <= j < |a| ensures !OccursAt(s, sep, j) {
      assert s[j..j + |sep|][0] == s[j] == a[j];
    }
  }

  lemma NoOccurrenceWithoutFirstChar(a: string, sep: string)
    requires |sep| > 0 && sep[0] !in a
    ensures !Contains(a, sep)
  {
    forall j | 0 <= j <= |a| - |sep| ensures !OccursAt(a, sep, j) {
      assert a[j..j + |sep|][0] == a[j];
    }
  }

  lemma {:induction false} SplitAllJoin(segs: seq<string>, sep: string)
    requires |segs| >= 1 && |sep| > 0
    requires forall i | 0 <= i < |segs| :: sep[0] !in segs[i]
    ensures SplitAll(Join(segs, sep), sep) == segs
  {
    if |segs| == 1 {
      NoOccurrenceWithoutFirstChar(segs[0], sep);
    } else {
      var a, rest := segs[0], Join(segs[1..], sep);
      IndexOfAfterSegment(a, sep, rest);
      assert (a + sep + rest)[|a| + |sep|..] == rest;
      assert (a + sep + rest)[..|a|] == a;
      SplitAllJoin(segs[1..], sep);
      assert segs == [a] + segs[1..];
    }
  }

  /** `sep` occurs in the joined string exactly when there are two segments or more. */
  lemma {:induction false} JoinContainsSeparator(segs: seq<string>, sep: string)
    requires |segs| >= 1 && |sep| > 0
    requires forall i | 0 <= i < |segs| :: sep[0] !in segs[i]
    ensures Contains(Join(segs, sep), sep) <==> |segs| >= 2
  {
    if |segs| == 1 {
      NoOccurrenceWithoutFirstChar(segs[0], sep);
    } else {
      IndexOfAfterSegment(segs[0], sep, Join(segs[1..], sep));
    }
  }

  /**
   * In a joined string, every occurrence of the separator's first character starts a
   * separator, when the segments and the rest of the separator do not hold that character.
   */
  lemma {:induction false} FirstCharStartsSeparator(segs: seq<string>, sep: string, i: int)
    requires |segs| >= 1 && |sep| > 0 && sep[0] !in sep[1..]
    requires forall k | 0 <= k < |segs| :: sep[0] !in segs[k]
    requires 0 <= i < |Join(segs, sep)| && Join(segs, sep)[i] == sep[0]
    ensures OccursAt(Join(segs, sep), sep, i)
  {
    var j := Join(segs, sep);
    if |segs| > 1 {
      var a, rest := segs[0], Join(segs[1..], sep);
      assert j == a + sep + rest;
      if i >= |a| + |sep| {
        FirstCharStartsSeparator(segs[1..], sep, i - |a| - |sep|);
        assert j[i..i + |sep|] == rest[i - |a| - |sep|..i - |a| - |sep| + |sep|];
      } else {
        assert j[|a|..|a| + |sep|] == sep;
      }
    }
  }

  /** Java's `split` undoes `join` for non-empty segments free of the separator's first character. */
  lemma JavaSplitJoin(segs: seq<string>, sep: string)
    requires |segs| >= 2 && |sep| > 0
    requires forall i | 0 <= i < |segs| :: sep[0] !in segs[i] && segs[i] != ""
    ensures JavaSplit(Join(segs, sep), sep) == segs
  {
    JoinContainsSeparator(segs, sep);
    SplitAllJoin(segs, sep);
  }

  /** `Character.isLowerCase`, restricted to ASCII. */
  predicate IsLowerAscii(c: char) {
    'a' <= c <= 'z'
  }

  /** `Character.toLowerCase`, restricted to ASCII: other characters are left alone. */
  function ToLowerAscii(c: char): (r: char)
    ensures 'A' <= c <= 'Z' ==> IsLowerAscii(r) && r as int == c as int + 32
    ensures !('A' <= c <= 'Z') ==> r == c
  {
    if 'A' <= c <= 'Z' then (c as int + 32) as char else c
  }

  /** `Character.toUpperCase`, restricted to ASCII. */
  function ToUpperAscii(c: char): char {
    if 'a' <= c <= 'z' then (c as int - 32) as char else c
  }
}
