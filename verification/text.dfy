/**
 * String operations shared by the TypeScript plugin and the Python filter:
 * splitting on a one-element separator and joining back, trimming a set of
 * whitespace characters, prefix tests and Python's `str.find`.
 *
 * Everything is generic in the element type, so the same definitions serve
 * text (`seq<char>`) and decoded field values (byte sequences).
 */
module Text {

  /** The pieces of `parts` glued together with `sep` between neighbours,
      as JavaScript's `Array.prototype.join` with a one-character separator. */
  function Join<T>(parts: seq<seq<T>>, sep: T): seq<T>
  {
    if |parts| == 0 then []
    else if |parts| == 1 then parts[0]
    else parts[0] + [sep] + Join(parts[1..], sep)
  }

  /** The pieces of `s` between occurrences of `sep`, as JavaScript's
      `String.prototype.split` with a one-character separator: there is
      always at least one piece, no piece contains the separator, and
      joining the pieces gives back `s`. */
  function Split<T(==)>(s: seq<T>, sep: T): (parts: seq<seq<T>>)
    ensures |parts| >= 1
    ensures forall i :: 0 <= i < |parts| ==> sep !in parts[i]
    ensures Join(parts, sep) == s
    decreases |s|
  {
    if |s| == 0 then [[]]
    else
      var rest := Split(s[1..], sep);
      if s[0] == sep then
        assert ([[]] + rest)[1..] == rest;
        [[]] + rest
      else
        var parts := [[s[0]] + rest[0]] + rest[1..];
        assert parts[1..] == rest[1..];
        assert |rest| > 1 ==> Join(rest, sep) == rest[0] + [sep] + Join(rest[1..], sep);
        assert s == [s[0]] + s[1..];
        parts
  }

  /** Splitting text that holds no separator gives that text as its only piece. */
  lemma {:induction false} SplitWithoutSeparator<T>(s: seq<T>, sep: T)
    requires sep !in s
    ensures Split(s, sep) == [s]
    decreases |s|
  {
    if |s| > 0 {
      assert sep !in s[1..];
      SplitWithoutSeparator(s[1..], sep);
      assert [s[0]] + s[1..] == s;
    }
  }

  /** A separator-free head followed by the separator splits off as one piece. */
  lemma {:induction false} SplitAfterPiece<T>(a: seq<T>, sep: T, b: seq<T>)
    requires sep !in a
    ensures Split(a + [sep] + b, sep) == [a] + Split(b, sep)
    decreases |a|
  {
    var s := a + [sep] + b;
    if |a| == 0 {
      assert s[0] == sep && s[1..] == b;
    } else {
      assert s[0] == a[0] && s[1..] == a[1..] + [sep] + b;
      assert sep !in a[1..];
      SplitAfterPiece(a[1..], sep, b);
      assert [a[0]] + a[1..] == a;
    }
  }

  /** Split undoes Join when no piece contains the separator. */
  lemma {:induction false} SplitJoin<T>(parts: seq<seq<T>>, sep: T)
    requires |parts| >= 1
    requires forall i :: 0 <= i < |parts| ==> sep !in parts[i]
    ensures Split(Join(parts, sep), sep) == parts
    decreases |parts|
  {
    if |parts| == 1 {
      SplitWithoutSeparator(parts[0], sep);
    } else {
      SplitJoin(parts[1..], sep);
      SplitAfterPiece(parts[0], sep, Join(parts[1..], sep));
      assert [parts[0]] + parts[1..] == parts;
    }
  }

  /** Joining two non-empty lists of pieces is joining their joins. */
  lemma {:induction false} JoinAppend<T>(xs: seq<seq<T>>, ys: seq<seq<T>>, sep: T)
    requires |xs| >= 1 && |ys| >= 1
    ensures Join(xs + ys, sep) == Join(xs, sep) + [sep] + Join(ys, sep)
    decreases |xs|
  {
    if |xs| == 1 {
      assert (xs + ys)[0] == xs[0] && (xs + ys)[1..] == ys;
    } else {
      assert (xs + ys)[0] == xs[0] && (xs + ys)[1..] == xs[1..] + ys;
      JoinAppend(xs[1..], ys, sep);
    }
  }

  /** An element that is neither the separator nor in any piece is not in
      the joined text. */
  lemma {:induction false} JoinAvoids<T>(parts: seq<seq<T>>, sep: T, x: T)
    requires x != sep
    requires forall i :: 0 <= i < |parts| ==> x !in parts[i]
    ensures x !in Join(parts, sep)
    decreases |parts|
  {
    if |parts| > 1 {
      JoinAvoids(parts[1..], sep, x);
    }
  }

  /** A joined text begins with its first piece and ends with its last. */
  lemma JoinEnds<T>(parts: seq<seq<T>>, sep: T)
    requires |parts| >= 1
    ensures parts[0] != [] ==> Join(parts, sep) != [] && Join(parts, sep)[0] == parts[0][0]
    ensures var last := parts[|parts| - 1];
      last != [] ==> Join(parts, sep) != [] && Join(parts, sep)[|Join(parts, sep)| - 1] == last[|last| - 1]
  {
    var n := |parts|;
    if n > 1 {
      JoinAppend(parts[..n - 1], [parts[n - 1]], sep);
      assert parts[..n - 1] + [parts[n - 1]] == parts;
    }
  }

  /** Splitting `a`, the separator, then `b` gives the pieces of `a` followed
      by the pieces of `b`. */
  lemma {:induction false} SplitConcat<T>(a: seq<T>, sep: T, b: seq<T>)
    ensures Split(a + [sep] + b, sep) == Split(a, sep) + Split(b, sep)
  {
    var pa, pb := Split(a, sep), Split(b, sep);
    JoinAppend(pa, pb, sep);
    forall i | 0 <= i < |pa + pb|
      ensures sep !in (pa + pb)[i]
    {
      if i < |pa| { assert (pa + pb)[i] == pa[i]; }
      else { assert (pa + pb)[i] == pb[i - |pa|]; }
    }
    SplitJoin(pa + pb, sep);
  }

  /** The piece after the last separator, as `s.split(sep).pop()`. */
  function LastPiece<T(==)>(s: seq<T>, sep: T): (r: seq<T>)
    ensures sep !in r
    ensures |r| <= |s| && s[|s| - |r|..] == r
    ensures r == s || s[|s| - |r| - 1] == sep
  {
    var parts := Split(s, sep);
    var n := |parts|;
    if n == 1 then parts[0]
    else
      JoinAppend(parts[..n - 1], [parts[n - 1]], sep);
      assert parts[..n - 1] + [parts[n - 1]] == parts;
      parts[n - 1]
  }

  /** Every `sep` in the joined text sits between two pieces, so replacing the
      separator while re-joining replaces it everywhere and nothing else. */
  lemma {:induction false} JoinSplitReplaces<T>(s: seq<T>, from: T, to: T)
    ensures |Join(Split(s, from), to)| == |s|
    ensures forall i :: 0 <= i < |s| ==>
      Join(Split(s, from), to)[i] == (if s[i] == from then to else s[i])
    decreases |s|
  {
    if |s| > 0 {
      JoinSplitReplaces(s[1..], from, to);
      var rest := Split(s[1..], from);
      var r := Join(rest, to);
      var head := if s[0] == from then to else s[0];
      var j := Join(Split(s, from), to);
      if s[0] == from {
        assert ([[]] + rest)[1..] == rest;
      } else {
        var parts := [[s[0]] + rest[0]] + rest[1..];
        assert parts[1..] == rest[1..];
        if |rest| > 1 {
          assert r == rest[0] + [to] + Join(rest[1..], to);
        }
      }
      assert j == [head] + r;
      forall i | 0 <= i < |s|
        ensures j[i] == (if s[i] == from then to else s[i])
      {
        if i > 0 {
          assert j[i] == r[i - 1] && s[i] == s[1..][i - 1];
        }
      }
    }
  }

  /** The elements of `s` other than `drop`, in order (JavaScript's
      `s.filter(x => x !== drop)`): every other element is kept as often as
      it occurs, `drop` not at all. */
  function Without<T(==,!new)>(s: seq<T>, drop: T): (r: seq<T>)
    ensures forall x :: multiset(r)[x] == if x == drop then 0 else multiset(s)[x]
    ensures drop !in r
    ensures forall i :: 0 <= i < |r| ==> r[i] in s
    ensures forall i :: 0 <= i < |s| && s[i] != drop ==> s[i] in r
    ensures |r| <= |s|
    decreases |s|
  {
    if |s| == 0 then []
    else
      var rest := Without(s[1..], drop);
      assert s == [s[0]] + s[1..];
      if s[0] == drop then rest else [s[0]] + rest
  }

  /** Filtering a concatenation filters each part and keeps their order. */
  lemma {:induction false} WithoutConcat<T(!new)>(a: seq<T>, b: seq<T>, drop: T)
    ensures Without(a + b, drop) == Without(a, drop) + Without(b, drop)
    decreases |a|
  {
    if |a| > 0 {
      assert (a + b)[1..] == a[1..] + b;
      WithoutConcat(a[1..], b, drop);
    } else {
      assert a + b == b;
    }
  }

  /** Removing an element that is not there changes nothing. */
  lemma {:induction false} WithoutAbsent<T(!new)>(s: seq<T>, drop: T)
    requires drop !in s
    ensures Without(s, drop) == s
    decreases |s|
  {
    if |s| > 0 {
      assert s == [s[0]] + s[1..];
      assert drop !in s[1..];
      WithoutAbsent(s[1..], drop);
      assert Without(s, drop) == [s[0]] + Without(s[1..], drop);
    }
  }

  /** True when `s` begins with `prefix` (JavaScript `startsWith`, Python `startswith`). */
  predicate StartsWith<T(==)>(s: seq<T>, prefix: seq<T>) {
    |prefix| <= |s| && s[..|prefix|] == prefix
  }

  /** Every element of `s` belongs to `ws`. */
  predicate AllIn<T>(s: seq<T>, ws: set<T>) {
    forall i :: 0 <= i < |s| ==> s[i] in ws
  }

  /** The number of leading elements of `s` that belong to `ws`. */
  function LeadingCount<T(==)>(s: seq<T>, ws: set<T>): (n: nat)
    ensures n <= |s|
    ensures forall i :: 0 <= i < n ==> s[i] in ws
    ensures n == |s| || s[n] !in ws
  {
    if |s| == 0 || s[0] !in ws then 0 else 1 + LeadingCount(s[1..], ws)
  }

  /** The number of trailing elements of `s` that belong to `ws`. */
  function TrailingCount<T(==)>(s: seq<T>, ws: set<T>): (n: nat)
    ensures n <= |s|
    ensures forall i :: |s| - n <= i < |s| ==> s[i] in ws
    ensures n == |s| || s[|s| - n - 1] !in ws
  {
    if |s| == 0 || s[|s| - 1] !in ws then 0 else 1 + TrailingCount(s[..|s| - 1], ws)
  }

  /** `s` with the longest prefix of elements from `ws` removed (Python's
      `lstrip`): a suffix of `s`, everything before it is from `ws`, and it
      does not begin with an element of `ws`. */
  function StripLeft<T(==)>(s: seq<T>, ws: set<T>): (r: seq<T>)
    ensures |r| <= |s| && r == s[|s| - |r|..]
    ensures forall i :: 0 <= i < |s| - |r| ==> s[i] in ws
    ensures r == [] || r[0] !in ws
  {
    s[LeadingCount(s, ws)..]
  }

  /** `s` with whitespace from `ws` removed at both ends: the result is the
      slice of `s` after its leading whitespace, everything removed on either
      side is whitespace, and it is empty exactly when `s` is all whitespace. */
  function Strip<T(==)>(s: seq<T>, ws: set<T>): (r: seq<T>)
    ensures LeadingCount(s, ws) + |r| <= |s|
    ensures r == s[LeadingCount(s, ws)..LeadingCount(s, ws) + |r|]
    ensures forall i :: LeadingCount(s, ws) + |r| <= i < |s| ==> s[i] in ws
    ensures r == [] || (r[0] !in ws && r[|r| - 1] !in ws)
    ensures r == [] <==> AllIn(s, ws)
  {
    var n := LeadingCount(s, ws);
    var m := TrailingCount(s[n..], ws);
    StripTail(s, ws);
    StripEnds(s, ws);
    StripEmpty(s, ws);
    s[n..|s| - m]
  }

  /** What `Strip` removes at the end is whitespace. */
  lemma StripTail<T>(s: seq<T>, ws: set<T>)
    ensures var n := LeadingCount(s, ws); var m := TrailingCount(s[n..], ws);
      forall i :: |s| - m <= i < |s| ==> s[i] in ws
  {
    var n := LeadingCount(s, ws);
    var t := s[n..];
    var m := TrailingCount(t, ws);
    forall i | |s| - m <= i < |s|
      ensures s[i] in ws
    {
      assert s[i] == t[i - n];
    }
  }

  /** What `Strip` keeps neither begins nor ends with whitespace. */
  lemma StripEnds<T>(s: seq<T>, ws: set<T>)
    ensures var n := LeadingCount(s, ws); var m := TrailingCount(s[n..], ws);
      n < |s| - m ==> s[n] !in ws && s[|s| - m - 1] !in ws
  {
    var n := LeadingCount(s, ws);
    var t := s[n..];
    var m := TrailingCount(t, ws);
    if n < |s| - m {
      var k := |t| - m - 1;
      assert t[k] !in ws;
      assert s[n + k] == t[k];
    }
  }

  /** `Strip` keeps nothing exactly when everything is whitespace. */
  lemma StripEmpty<T>(s: seq<T>, ws: set<T>)
    ensures var n := LeadingCount(s, ws); var m := TrailingCount(s[n..], ws);
      n == |s| - m <==> AllIn(s, ws)
  {
    var n := LeadingCount(s, ws);
    var t := s[n..];
    var m := TrailingCount(t, ws);
    assert n < |s| ==> t[0] == s[n];
  }

  /** Text that neither starts nor ends with whitespace is left as it is. */
  lemma StripUntouched<T>(s: seq<T>, ws: set<T>)
    requires s != [] && s[0] !in ws && s[|s| - 1] !in ws
    ensures Strip(s, ws) == s
  {
    assert LeadingCount(s, ws) == 0;
  }

  /** Whitespace removed by JavaScript's `String.prototype.trim`
      (WhiteSpace and LineTerminator of ECMAScript). */
  const JsWhitespace: set<char> := {
    '\t', '\n', '\U{000B}', '\U{000C}', '\r', ' ', '\U{00A0}', '\U{1680}',
    '\U{2000}', '\U{2001}', '\U{2002}', '\U{2003}', '\U{2004}', '\U{2005}',
    '\U{2006}', '\U{2007}', '\U{2008}', '\U{2009}', '\U{200A}',
    '\U{2028}', '\U{2029}', '\U{202F}', '\U{205F}', '\U{3000}', '\U{FEFF}'
  }

  /** Whitespace removed by Python's `str.strip()` (the characters for which
      `str.isspace()` holds). */
  const PyWhitespace: set<char> := {
    '\t', '\n', '\U{000B}', '\U{000C}', '\r', '\U{001C}', '\U{001D}', '\U{001E}',
    '\U{001F}', ' ', '\U{0085}', '\U{00A0}', '\U{1680}',
    '\U{2000}', '\U{2001}', '\U{2002}', '\U{2003}', '\U{2004}', '\U{2005}',
    '\U{2006}', '\U{2007}', '\U{2008}', '\U{2009}', '\U{200A}',
    '\U{2028}', '\U{2029}', '\U{202F}', '\U{205F}', '\U{3000}'
  }

  /** JavaScript's `s.trim()`. */
  function JsTrim(s: string): string {
    Strip(s, JsWhitespace)
  }

  /** Python's `s.strip()`. */
  function PyStrip(s: string): string {
    Strip(s, PyWhitespace)
  }

  /** True when `pat` occurs in `s` starting at index `i`. */
  predicate OccursAt<T(==)>(s: seq<T>, pat: seq<T>, i: int) {
    0 <= i && i + |pat| <= |s| && s[i..i + |pat|] == pat
  }

  /** Python's `s.find(pat, start)`: the least index at or after `start` where
      `pat` occurs, or -1 when there is none. */
  function Find<T(==)>(s: seq<T>, pat: seq<T>, start: nat): (r: int)
    ensures r == -1 || (start <= r && OccursAt(s, pat, r))
    ensures r == -1 ==> forall i :: start <= i ==> !OccursAt(s, pat, i)
    ensures r != -1 ==> forall i :: start <= i < r ==> !OccursAt(s, pat, i)
    decreases |s| - start
  {
    if start + |pat| > |s| then -1
    else if s[start..start + |pat|] == pat then start
    else Find(s, pat, start + 1)
  }

  /** Python's `s[i:]` for a non-negative `i`: empty when `i` is past the end. */
  function SliceFrom<T>(s: seq<T>, i: nat): (r: seq<T>)
    ensures i <= |s| ==> r == s[i..]
    ensures i >= |s| ==> r == []
  {
    if i <= |s| then s[i..] else []
  }
}
