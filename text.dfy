/**
 * The JavaScript and Python string operations the modelled code relies on:
 * `indexOf`, `startsWith`/`endsWith`, `split` with a string separator, `join`,
 * `slice` with its index clamping, `trim` and the `\s` character class, and
 * the decimal rendering of a count. Strings are sequences of Unicode code
 * points, as in Python; JavaScript's offsets and lengths, which count UTF-16
 * code units, are taken here as counts of code points. The two agree on text
 * without characters outside the Basic Multilingual Plane.
 */
module Text {

  predicate StartsWith(s: string, p: string) {
    |p| <= |s| && s[..|p|] == p
  }

  predicate EndsWith(s: string, p: string) {
    |p| <= |s| && s[|s| - |p|..] == p
  }

  /** `sep` occurs in `s` starting at index `i`. */
  predicate OccursAt(s: string, sep: string, i: int) {
    0 <= i && i + |sep| <= |s| && s[i..i + |sep|] == sep
  }

  predicate Contains(s: string, sep: string) {
    exists i :: 0 <= i <= |s| && OccursAt(s, sep, i)
  }

  /** A slice of a slice is a slice of the original. */
  lemma SliceOfSlice(s: string, a: int, b: int, k: int, n: nat)
    requires 0 <= a <= b <= |s|
    requires 0 <= k && k + n <= b - a
    ensures s[a..b][k..k + n] == s[a + k..a + k + n]
  {
    var x, y := s[a..b][k..k + n], s[a + k..a + k + n];
    forall t | 0 <= t < n ensures x[t] == y[t] {}
  }

  /** An occurrence inside the slice `s[a..b]` is an occurrence in `s`, shifted by `a`. */
  lemma OccursInSlice(s: string, sep: string, a: int, b: int, k: int)
    requires 0 <= a <= b <= |s|
    ensures OccursAt(s[a..b], sep, k) <==> (0 <= k && k + |sep| <= b - a && OccursAt(s, sep, a + k))
  {
    if 0 <= k && k + |sep| <= b - a {
      SliceOfSlice(s, a, b, k, |sep|);
    }
  }

  lemma StartsWithPrepend(a: string, rest: string, j: string)
    requires StartsWith(rest, j)
    ensures StartsWith(a + rest, a + j)
  {
    assert (a + rest)[..|a + j|] == a + rest[..|j|];
  }

  lemma EndsWithPrepend(a: string, rest: string, j: string)
    requires EndsWith(rest, j)
    ensures EndsWith(a + rest, j)
  {
    assert (a + rest)[|a + rest| - |j|..] == rest[|rest| - |j|..];
  }

  /** A one-character separator occurs exactly where that character does. */
  lemma ContainsChar(s: string, c: char)
    ensures Contains(s, [c]) <==> c in s
  {
    if c in s {
      var i :| 0 <= i < |s| && s[i] == c;
      assert OccursAt(s, [c], i);
    }
    if Contains(s, [c]) {
      var i :| 0 <= i <= |s| && OccursAt(s, [c], i);
      assert s[i..i + 1] == [c];
      assert s[i] == c;
    }
  }

  /** JavaScript `s.indexOf(sep, from)`: the first occurrence at or after `from`, or -1. */
  function IndexOfFrom(s: string, sep: string, from: nat): (r: int)
    ensures r == -1 || (from <= r && OccursAt(s, sep, r))
    ensures r >= 0 ==> forall k :: from <= k < r ==> !OccursAt(s, sep, k)
    ensures r < 0 ==> forall k :: from <= k ==> !OccursAt(s, sep, k)
    decreases |s| - from
  {
    if from + |sep| > |s| then -1
    else if s[from..from + |sep|] == sep then from
    else IndexOfFrom(s, sep, from + 1)
  }

  /** JavaScript `s.indexOf(sep)`. */
  function IndexOf(s: string, sep: string): (r: int)
    ensures r < 0 <==> !Contains(s, sep)
    ensures r >= 0 ==> OccursAt(s, sep, r) && forall k :: 0 <= k < r ==> !OccursAt(s, sep, k)
  {
    IndexOfFrom(s, sep, 0)
  }

  /** Any index that is an occurrence with none before it is the one `IndexOf` finds. */
  lemma IndexOfIsFirst(s: string, sep: string, i: int)
    requires OccursAt(s, sep, i)
    requires forall k :: 0 <= k < i ==> !OccursAt(s, sep, k)
    ensures IndexOf(s, sep) == i
  {
  }

  /** The text of `s` before its first `sep`; all of `s` when `sep` does not occur. */
  function Before(s: string, sep: string): (r: string)
    ensures StartsWith(s, r)
    ensures Contains(s, sep) ==> |r| == IndexOf(s, sep)
    ensures !Contains(s, sep) ==> r == s
  {
    if IndexOf(s, sep) < 0 then s else s[..IndexOf(s, sep)]
  }

  /** JavaScript `s.split(sep)` for a non-empty string separator. */
  function Split(s: string, sep: string): (parts: seq<string>)
    requires sep != ""
    ensures |parts| >= 1
    decreases |s|
  {
    var i := IndexOf(s, sep);
    if i < 0 then [s] else [s[..i]] + Split(s[i + |sep|..], sep)
  }

  /** A split has more than one piece exactly when the separator occurs; its
      first piece is the text before the first separator. */
  lemma SplitFacts(s: string, sep: string)
    requires sep != ""
    ensures |Split(s, sep)| > 1 <==> Contains(s, sep)
    ensures Split(s, sep)[0] == if IndexOf(s, sep) < 0 then s else s[..IndexOf(s, sep)]
  {
  }

  /** One step of `Split`: the text before the first separator, then the split of the rest. */
  lemma SplitStep(s: string, sep: string)
    requires sep != "" && Contains(s, sep)
    ensures 0 <= IndexOf(s, sep) && IndexOf(s, sep) + |sep| <= |s|
    ensures Split(s, sep) == [s[..IndexOf(s, sep)]] + Split(s[IndexOf(s, sep) + |sep|..], sep)
    ensures s == s[..IndexOf(s, sep)] + sep + s[IndexOf(s, sep) + |sep|..]
  {
    var i := IndexOf(s, sep);
    assert 0 <= i && s[i..i + |sep|] == sep;
    assert s[i..] == sep + s[i + |sep|..];
    assert s == s[..i] + s[i..];
    AppendAssoc(s[..i], sep, s[i + |sep|..]);
  }

  /** JavaScript `parts.join(sep)`. */
  function Join(parts: seq<string>, sep: string): string
  {
    if |parts| == 0 then ""
    else if |parts| == 1 then parts[0]
    else parts[0] + sep + Join(parts[1..], sep)
  }

  /** Splitting and joining with the same separator gives back the string. */
  lemma {:induction false} JoinSplit(s: string, sep: string)
    requires sep != ""
    ensures Join(Split(s, sep), sep) == s
    decreases |s|
  {
    if Contains(s, sep) {
      var head, rest := SplitCons(s, sep);
      JoinSplit(rest, sep);
      JoinSplitStep(s, head, rest, Split(rest, sep), sep);
    } else {
      SplitNone(s, sep);
    }
  }

  lemma JoinSplitStep(s: string, head: string, rest: string, tail: seq<string>, sep: string)
    requires s == head + (sep + rest) && |tail| >= 1 && Join(tail, sep) == rest
    ensures Join([head] + tail, sep) == s
  {
    JoinCons(head, tail, sep);
  }

  /** A split with a separator: the piece before the first one, then the split of the rest. */
  lemma SplitCons(s: string, sep: string) returns (head: string, rest: string)
    requires sep != "" && Contains(s, sep)
    ensures s == head + (sep + rest) && |rest| < |s|
    ensures Split(s, sep) == [head] + Split(rest, sep)
  {
    SplitStep(s, sep);
    var i := IndexOf(s, sep);
    head, rest := s[..i], s[i + |sep|..];
    assert s == head + sep + rest;
  }

  /** A split without a separator is the string alone. */
  lemma SplitNone(s: string, sep: string)
    requires sep != "" && !Contains(s, sep)
    ensures Split(s, sep) == [s]
  {
  }

  lemma JoinCons(head: string, tail: seq<string>, sep: string)
    requires |tail| >= 1
    ensures Join([head] + tail, sep) == head + sep + Join(tail, sep)
  {
    assert ([head] + tail)[1..] == tail;
  }

  /** The first occurrence of a one-character separator follows the text free of it. */
  lemma IndexOfFirstChar(a: string, c: char, b: string)
    requires c !in a
    ensures IndexOf(a + [c] + b, [c]) == |a|
  {
    var s := a + [c] + b;
    assert s[|a|..|a| + 1] == [c];
    forall k | 0 <= k < |a| ensures !OccursAt(s, [c], k) {
      assert s[k..k + 1][0] == a[k];
    }
    IndexOfIsFirst(s, [c], |a|);
  }

  /** Joining pieces free of a one-character separator and splitting again gives the pieces back. */
  lemma {:induction false} SplitJoinChar(lines: seq<string>, c: char)
    requires |lines| >= 1
    requires forall i :: 0 <= i < |lines| ==> c !in lines[i]
    ensures Split(Join(lines, [c]), [c]) == lines
    decreases |lines|
  {
    if |lines| == 1 {
      ContainsChar(lines[0], c);
      SplitNone(lines[0], [c]);
    } else {
      var rest := Join(lines[1..], [c]);
      assert Join(lines, [c]) == lines[0] + [c] + rest;
      SplitAtFirstChar(lines[0], c, rest);
      SplitJoinChar(lines[1..], c);
      assert lines == [lines[0]] + lines[1..];
    }
  }

  /** Splitting at a one-character separator whose first occurrence follows `a`. */
  lemma SplitAtFirstChar(a: string, c: char, b: string)
    requires c !in a
    ensures Split(a + [c] + b, [c]) == [a] + Split(b, [c])
  {
    var s := a + [c] + b;
    IndexOfFirstChar(a, c, b);
    assert s[..|a|] == a;
    assert s[|a| + 1..] == b;
  }

  /** The first `k` pieces, joined again, are a prefix of the string, followed by
      the separator when pieces remain. */
  lemma {:induction false} JoinedPiecesArePrefix(s: string, sep: string, k: nat)
    requires sep != ""
    requires 1 <= k <= |Split(s, sep)|
    ensures StartsWith(s, Join(Split(s, sep)[..k], sep))
    ensures k < |Split(s, sep)| ==> StartsWith(s, Join(Split(s, sep)[..k], sep) + sep)
    decreases |s|
  {
    if Contains(s, sep) {
      var head, rest := SplitCons(s, sep);
      if k > 1 {
        JoinedPiecesArePrefix(rest, sep, k - 1);
      }
      PrefixCons(s, head, sep, rest, Split(rest, sep), k);
    } else {
      SplitNone(s, sep);
      assert Split(s, sep)[..k] == [s];
      assert s[..|s|] == s;
    }
  }

  /** The step of `JoinedPiecesArePrefix` for a split `[head] + tail` of `head + sep + rest`. */
  lemma PrefixCons(s: string, head: string, sep: string, rest: string, tail: seq<string>, k: nat)
    requires s == head + (sep + rest) && 1 <= k <= 1 + |tail|
    requires k > 1 ==> StartsWith(rest, Join(tail[..k - 1], sep))
    requires 1 < k <= |tail| ==> StartsWith(rest, Join(tail[..k - 1], sep) + sep)
    ensures StartsWith(s, Join(([head] + tail)[..k], sep))
    ensures k <= |tail| ==> StartsWith(s, Join(([head] + tail)[..k], sep) + sep)
  {
    if k == 1 {
      assert ([head] + tail)[..k] == [head];
      PrefixStep(s, head, sep, rest, "");
    } else {
      var j := Join(tail[..k - 1], sep);
      assert ([head] + tail)[..k] == [head] + tail[..k - 1];
      JoinCons(head, tail[..k - 1], sep);
      PrefixStep(s, head, sep, rest, j);
      if k <= |tail| {
        PrefixStep(s, head, sep, rest, j + sep);
        AppendAssoc(head + sep, j, sep);
      }
    }
  }

  lemma PrefixStep(s: string, head: string, sep: string, rest: string, j: string)
    requires s == head + (sep + rest)
    ensures StartsWith(rest, j) ==> StartsWith(s, head + sep + j)
    ensures j == "" ==> StartsWith(s, head) && StartsWith(s, head + sep)
  {
    assert s[..|head|] == head;
    assert s[..|head| + |sep|] == head + sep;
    if StartsWith(rest, j) {
      assert s[..|head| + |sep| + |j|] == head + sep + rest[..|j|];
    }
  }

  function Last<T>(xs: seq<T>): T
    requires |xs| > 0
  {
    xs[|xs| - 1]
  }

  lemma TakeConcat(a: string, b: string, n: nat)
    requires n <= |b|
    ensures (a + b)[..|a| + n] == a + b[..n]
  {
    var x, y := (a + b)[..|a| + n], a + b[..n];
    forall t | 0 <= t < |a| + n ensures x[t] == y[t] {}
  }

  /** Where the pieces of `a + b + c` sit, slice by slice and index by index. */
  lemma ThreeRuns<T>(a: seq<T>, b: seq<T>, c: seq<T>)
    ensures var r := a + b + c;
      && r[..|a|] == a && r[|a|..|a| + |b|] == b && r[|a| + |b|..] == c
      && (forall i :: 0 <= i < |a| ==> r[i] == a[i])
      && (forall i :: |a| <= i < |a| + |b| ==> r[i] == b[i - |a|])
      && (forall i :: |a| + |b| <= i < |r| ==> r[i] == c[i - |a| - |b|])
  {
    var r := a + b + c;
    assert r == (a + b) + c;
    assert r[..|a| + |b|] == a + b;
    assert r[..|a|] == (a + b)[..|a|];
    forall i | |a| <= i < |a| + |b| ensures r[i] == b[i - |a|] {
      assert r[i] == (a + b)[i];
    }
  }

  lemma AppendAssoc<T>(a: seq<T>, b: seq<T>, c: seq<T>)
    ensures (a + b) + c == a + (b + c)
  {
  }

  /** A non-empty list, before and after appending, as its head and the rest. */
  lemma ConsAppend<T>(a: seq<T>, b: seq<T>)
    requires a != []
    ensures a == [a[0]] + a[1..] && a + b == [a[0]] + (a[1..] + b)
  {
  }

  lemma EndsWithAppend(a: string, sep: string)
    ensures EndsWith(a + sep, sep)
  {
    assert (a + sep)[|a|..] == sep;
  }

  lemma {:induction false} SplitLastIsSuffix(s: string, sep: string)
    requires sep != ""
    ensures EndsWith(s, Last(Split(s, sep)))
    decreases |s|
  {
    if Contains(s, sep) {
      var head, rest := SplitCons(s, sep);
      SplitLastIsSuffix(rest, sep);
      LastCons(head, Split(rest, sep));
      AppendAssoc(head, sep, rest);
      EndsWithPrepend(head + sep, rest, Last(Split(rest, sep)));
    } else {
      SplitNone(s, sep);
      assert s[|s| - |s|..] == s;
    }
  }

  lemma {:induction false} SplitLastHasNoSeparator(s: string, sep: string)
    requires sep != ""
    ensures !Contains(Last(Split(s, sep)), sep)
    decreases |s|
  {
    if Contains(s, sep) {
      var head, rest := SplitCons(s, sep);
      SplitLastHasNoSeparator(rest, sep);
      LastCons(head, Split(rest, sep));
    } else {
      SplitNone(s, sep);
    }
  }

  lemma {:induction false} SplitLastFollowsSeparator(s: string, sep: string)
    requires sep != ""
    ensures var n := |Last(Split(s, sep))|; n < |s| ==> EndsWith(s[..|s| - n], sep)
    decreases |s|
  {
    if Contains(s, sep) {
      var head, rest := SplitCons(s, sep);
      SplitLastFollowsSeparator(rest, sep);
      SplitLastIsSuffix(rest, sep);
      FollowsSeparatorCons(s, head, sep, rest, Split(s, sep), Split(rest, sep));
    } else {
      SplitNone(s, sep);
    }
  }

  /** The step of `SplitLastFollowsSeparator` for a split `[head] + tail` of `head + sep + rest`. */
  lemma FollowsSeparatorCons(s: string, head: string, sep: string, rest: string, parts: seq<string>, tail: seq<string>)
    requires s == head + (sep + rest) && parts == [head] + tail && |tail| >= 1
    requires EndsWith(rest, Last(tail))
    requires var n := |Last(tail)|; n < |rest| ==> EndsWith(rest[..|rest| - n], sep)
    ensures var n := |Last(parts)|; n < |s| ==> EndsWith(s[..|s| - n], sep)
  {
    LastCons(head, tail);
    FollowsSeparatorStep(s, head, sep, rest, Last(tail));
  }

  lemma LastCons<T>(x: T, xs: seq<T>)
    requires |xs| >= 1
    ensures Last([x] + xs) == Last(xs)
  {
  }

  lemma FollowsSeparatorStep(s: string, head: string, sep: string, rest: string, r: string)
    requires s == head + (sep + rest) && EndsWith(rest, r)
    requires |r| < |rest| ==> EndsWith(rest[..|rest| - |r|], sep)
    ensures EndsWith(s[..|s| - |r|], sep)
  {
    var n := |rest| - |r|;
    var front := head + sep;
    assert s == front + rest;
    assert s[..|s| - |r|] == front + rest[..n] by {
      TakeConcat(front, rest, n);
    }
    if n == 0 {
      assert front + rest[..n] == front;
      EndsWithAppend(head, sep);
    } else {
      EndsWithPrepend(front, rest[..n], sep);
    }
  }

  /** The last piece of a split is the text after the final separator: a suffix
      with no separator in it, preceded by the separator unless it is the whole string. */
  lemma SplitLast(s: string, sep: string)
    requires sep != ""
    ensures EndsWith(s, Last(Split(s, sep)))
    ensures !Contains(Last(Split(s, sep)), sep)
    ensures |Last(Split(s, sep))| < |s| ==> EndsWith(s[..|s| - |Last(Split(s, sep))|], sep)
  {
    SplitLastIsSuffix(s, sep);
    SplitLastHasNoSeparator(s, sep);
    SplitLastFollowsSeparator(s, sep);
  }

  /** The first piece of a split is the text before the first separator: a prefix
      with no separator in it, followed by the separator unless it is the whole string. */
  lemma SplitFirst(s: string, sep: string)
    requires sep != ""
    ensures StartsWith(s, Split(s, sep)[0])
    ensures !Contains(Split(s, sep)[0], sep)
    ensures |Split(s, sep)[0]| < |s| ==> StartsWith(s[|Split(s, sep)[0]|..], sep)
  {
    var i := IndexOf(s, sep);
    var p := Split(s, sep)[0];
    SplitFacts(s, sep);
    if i >= 0 {
      forall k | OccursAt(p, sep, k) ensures false {
        OccursInSlice(s, sep, 0, i, k);
      }
      assert s[|p|..][..|sep|] == s[i..i + |sep|];
    } else {
      assert p == s;
    }
  }

  /**
   * Taking the first piece of a first piece: `body` is cut from `piece` at `inner`,
   * and `piece` from `rest` at `outer`, so `body` stops at one of the two or at the end.
   */
  lemma FirstPieceStops(rest: string, piece: string, body: string, outer: string, inner: string)
    requires StartsWith(rest, piece) && StartsWith(piece, body)
    requires |piece| < |rest| ==> StartsWith(rest[|piece|..], outer)
    requires |body| < |piece| ==> StartsWith(piece[|body|..], inner)
    ensures |body| < |rest| ==> StartsWith(rest[|body|..], inner) || StartsWith(rest[|body|..], outer)
  {
    if |body| < |piece| {
      var n := |body| + |inner|;
      assert n <= |piece| && piece == rest[..|piece|];
      assert rest[|body|..][..|inner|] == rest[|body|..n];
      assert piece[|body|..][..|inner|] == piece[|body|..n];
      assert rest[|body|..n] == piece[|body|..n];
    }
  }

  /** The pieces of `parts` one after the other. */
  function Concat(parts: seq<string>): string
  {
    if parts == [] then "" else parts[0] + Concat(parts[1..])
  }

  lemma {:induction false} ConcatAppend(a: seq<string>, b: seq<string>)
    ensures Concat(a + b) == Concat(a) + Concat(b)
  {
    if a != [] {
      ConcatAppend(a[1..], b);
      assert (a + b)[1..] == a[1..] + b;
      AppendAssoc(a[0], Concat(a[1..]), Concat(b));
    } else {
      assert a + b == b;
    }
  }

  /** A string that contains `p + q` contains `p`. */
  lemma ContainsPrefixOf(s: string, p: string, q: string)
    ensures Contains(s, p + q) ==> Contains(s, p)
  {
    if Contains(s, p + q) {
      var i :| 0 <= i <= |s| && OccursAt(s, p + q, i);
      assert s[i..i + |p|] == s[i..i + |p + q|][..|p|];
      assert OccursAt(s, p, i);
    }
  }

  /** A string with no occurrence of `sep` does not start with it. */
  lemma NotContainsNotStartsWith(s: string, sep: string)
    ensures !Contains(s, sep) ==> !StartsWith(s, sep)
  {
    if StartsWith(s, sep) {
      assert OccursAt(s, sep, 0);
    }
  }

  /** When `x` is not a character of `sep`, no occurrence of `sep` in
      `a + [x] + b` begins inside `a` or at `x`, unless `a` contains one. */
  lemma NoStraddle(a: string, x: char, b: string, sep: string)
    requires sep != "" && x !in sep && !Contains(a, sep)
    ensures forall k :: 0 <= k <= |a| ==> !OccursAt(a + [x] + b, sep, k)
  {
    var s := a + [x] + b;
    forall k | 0 <= k <= |a| ensures !OccursAt(s, sep, k) {
      if k + |sep| <= |a| {
        assert s[k..k + |sep|] == a[k..k + |sep|];
        assert !OccursAt(a, sep, k);
      } else if k + |sep| <= |s| {
        var w := s[k..k + |sep|];
        assert w[|a| - k] == x;
        assert w != sep;
      }
    }
  }

  /** `x` followed by `sep` after a piece free of `sep`: the first occurrence is right after `x`. */
  lemma IndexAfterSeparatorChar(a: string, x: char, sep: string, b: string)
    requires sep != "" && x !in sep && !Contains(a, sep)
    ensures IndexOf(a + [x] + (sep + b), sep) == |a| + 1
  {
    var s := a + [x] + (sep + b);
    NoStraddle(a, x, sep + b, sep);
    assert s[|a| + 1..|a| + 1 + |sep|] == sep;
    IndexOfIsFirst(s, sep, |a| + 1);
  }

  /** `r` is a contiguous piece of `s`. */
  predicate IsSliceOf(r: string, s: string) {
    exists i, j :: 0 <= i <= j <= |s| && r == s[i..j]
  }

  lemma PrefixIsSlice(s: string, p: string)
    requires StartsWith(s, p)
    ensures IsSliceOf(p, s)
  {
    assert p == s[0..|p|];
  }

  lemma SuffixIsSlice(s: string, p: string)
    requires EndsWith(s, p)
    ensures IsSliceOf(p, s)
  {
    assert p == s[|s| - |p|..|s|];
  }

  lemma SliceTransitive(a: string, b: string, c: string)
    requires IsSliceOf(a, b) && IsSliceOf(b, c)
    ensures IsSliceOf(a, c)
  {
    var i, j :| 0 <= i <= j <= |b| && a == b[i..j];
    var i', j' :| 0 <= i' <= j' <= |c| && b == c[i'..j'];
    SliceOfSlice(c, i', j', i, j - i);
    assert a == c[i' + i..i' + j];
  }

  /** JavaScript's index clamping for `slice`: negative counts from the end. */
  function ClampIndex(x: int, n: nat): (r: nat)
    ensures r <= n
    ensures 0 <= x <= n ==> r == x
  {
    if x < 0 then (if n + x < 0 then 0 else n + x)
    else if x > n then n
    else x
  }

  /** JavaScript `s.slice(start, end)`. */
  function Slice(s: string, start: int, end: int): (r: string)
    ensures 0 <= start <= end <= |s| ==> r == s[start..end]
  {
    var a := ClampIndex(start, |s|);
    var b := ClampIndex(end, |s|);
    if a < b then s[a..b] else ""
  }

  /** The code points JavaScript's `\s` and `trim` treat as white space
      (WhiteSpace and LineTerminator of the ECMAScript grammar). */
  predicate IsWhitespace(c: char) {
    var n := c as int;
    n == 0x09 || n == 0x0A || n == 0x0B || n == 0x0C || n == 0x0D || n == 0x20
    || n == 0xA0 || n == 0x1680 || (0x2000 <= n <= 0x200A) || n == 0x2028
    || n == 0x2029 || n == 0x202F || n == 0x205F || n == 0x3000 || n == 0xFEFF
  }

  predicate AllWhitespace(s: string) {
    forall i :: 0 <= i < |s| ==> IsWhitespace(s[i])
  }

  /** JavaScript `s.trimStart()`: an all-white-space string trims to "",
      anything else to a suffix starting with a visible character. */
  function TrimStart(s: string): (r: string)
    ensures r == "" <==> AllWhitespace(s)
    ensures r != "" ==> !IsWhitespace(r[0])
  {
    if s != [] && IsWhitespace(s[0]) then TrimStart(s[1..]) else s
  }

  /** JavaScript `s.trimEnd()`. */
  function TrimEnd(s: string): (r: string)
    ensures r == "" <==> AllWhitespace(s)
  {
    if s != [] && IsWhitespace(s[|s| - 1]) then TrimEnd(s[..|s| - 1]) else s
  }

  /** JavaScript `s.trim()`. */
  function Trim(s: string): (r: string)
    ensures r == "" <==> AllWhitespace(s)
  {
    TrimEnd(TrimStart(s))
  }

  /** The last element of JavaScript `s.split(/\s+/)`: the text after the last
      white-space character (all of `s` when it has none, "" when it ends in one). */
  function LastWord(s: string): (w: string)
    ensures EndsWith(s, w)
    ensures forall i :: 0 <= i < |w| ==> !IsWhitespace(w[i])
    ensures |w| < |s| ==> IsWhitespace(s[|s| - |w| - 1])
  {
    if s == [] || IsWhitespace(s[|s| - 1]) then []
    else
      var w := LastWord(s[..|s| - 1]);
      LastWordStep(s, s[|s| - 1], w);
      w + [s[|s| - 1]]
  }

  /** The step of `LastWord`: a word ending `s` without its last character,
      followed by that character, which is not white space. */
  lemma LastWordStep(s: string, c: char, w: string)
    requires s != [] && c == s[|s| - 1] && !IsWhitespace(c)
    requires EndsWith(s[..|s| - 1], w)
    requires forall i :: 0 <= i < |w| ==> !IsWhitespace(w[i])
    requires |w| < |s| - 1 ==> IsWhitespace(s[..|s| - 1][|s| - 1 - |w| - 1])
    ensures EndsWith(s, w + [c])
    ensures forall i :: 0 <= i < |w| + 1 ==> !IsWhitespace((w + [c])[i])
    ensures |w| + 1 < |s| ==> IsWhitespace(s[|s| - (|w| + 1) - 1])
  {
    var p := s[..|s| - 1];
    assert s == p + [c];
    assert s[|p| - |w|..] == p[|p| - |w|..] + [c];
  }

  /** Lower-casing of the ASCII letters. For the comparisons the model makes with
      it (against "true" and "password") it agrees with JavaScript's full Unicode
      `toLowerCase`: no other character lower-cases to one of those letters. */
  function AsciiLower(s: string): string
  {
    seq(|s|, i requires 0 <= i < |s| => if 'A' <= s[i] <= 'Z' then (s[i] as int + 32) as char else s[i])
  }

  predicate IsDigit(c: char) {
    '0' <= c <= '9'
  }

  function DigitChar(d: nat): (c: char)
    requires d < 10
    ensures IsDigit(c)
  {
    ('0' as int + d) as char
  }

  function DigitValue(c: char): nat
    requires IsDigit(c)
  {
    c as int - '0' as int
  }

  /** The number a string of decimal digits denotes. */
  function DecimalValue(s: string): nat
    requires forall i :: 0 <= i < |s| ==> IsDigit(s[i])
  {
    if s == [] then 0
    else DecimalValue(s[..|s| - 1]) * 10 + DigitValue(s[|s| - 1])
  }

  /** Python `str(n)` for a non-negative integer: its decimal digits, without a leading zero. */
  function NatToString(n: nat): (r: string)
    ensures |r| >= 1 && forall i :: 0 <= i < |r| ==> IsDigit(r[i])
    ensures DecimalValue(r) == n
    ensures |r| > 1 ==> r[0] != '0'
  {
    if n < 10 then [DigitChar(n)]
    else
      var front := NatToString(n / 10);
      var r := front + [DigitChar(n % 10)];
      assert r[..|r| - 1] == front;
      r
  }
}
