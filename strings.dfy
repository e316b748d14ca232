/** The few Python string operations the model needs: `str.join`,
    `str.split` on one separator character, `str.replace` and the `in`
    test for substrings. Strings are sequences of characters. */
module Strings {

  /** `sep.join(parts)` */
  function Join(parts: seq<string>, sep: string): string
    decreases |parts|
  {
    if |parts| == 0 then ""
    else if |parts| == 1 then parts[0]
    else parts[0] + sep + Join(parts[1..], sep)
  }

  /** `s.split(c)` for a one-character separator: the pieces between
      the separators, an empty piece where two separators meet. */
  function Split(s: string, c: char): (r: seq<string>)
    ensures |r| >= 1
    ensures forall k :: 0 <= k < |r| ==> c !in r[k]
    decreases |s|
  {
    if |s| == 0 then [""]
    else
      var rest := Split(s[1..], c);
      if s[0] == c then [""] + rest else [[s[0]] + rest[0]] + rest[1..]
  }

  /** Number of occurrences of `c` in `s`. */
  function Count(s: string, c: char): nat
  {
    if |s| == 0 then 0 else (if s[0] == c then 1 else 0) + Count(s[1..], c)
  }

  /** Joining the pieces of a split with the separator gives the string back. */
  lemma {:induction false} JoinSplit(s: string, c: char)
    ensures Join(Split(s, c), [c]) == s
    decreases |s|
  {
    if |s| > 0 {
      JoinSplit(s[1..], c);
      var rest := Split(s[1..], c);
      if s[0] == c {
        assert Split(s, c) == [""] + rest;
        assert ([""] + rest)[1..] == rest;
      } else {
        var r := [[s[0]] + rest[0]] + rest[1..];
        assert Split(s, c) == r;
        if |rest| == 1 {
          assert Join(r, [c]) == [s[0]] + rest[0];
          assert s == [s[0]] + s[1..];
        } else {
          assert r[1..] == rest[1..];
          assert Join(rest, [c]) == rest[0] + [c] + Join(rest[1..], [c]);
          assert s == [s[0]] + s[1..];
        }
      }
    }
  }

  /** A string splits into one more piece than it has separators. */
  lemma {:induction false} SplitCount(s: string, c: char)
    ensures |Split(s, c)| == Count(s, c) + 1
    decreases |s|
  {
    if |s| > 0 {
      SplitCount(s[1..], c);
    }
  }

  /** A string without the separator is one piece. */
  lemma {:induction false} SplitNoSeparator(s: string, c: char)
    requires c !in s
    ensures Split(s, c) == [s]
    decreases |s|
  {
    if |s| > 0 {
      SplitNoSeparator(s[1..], c);
      assert [s[0]] + s[1..] == s;
    }
  }

  /** The piece before the first separator comes first, and the rest is
      split on its own. */
  lemma {:induction false} SplitFirst(a: string, rest: string, c: char)
    requires c !in a
    ensures Split(a + [c] + rest, c) == [a] + Split(rest, c)
    decreases |a|
  {
    var s := a + [c] + rest;
    if |a| == 0 {
      assert s == [c] + rest;
      assert s[1..] == rest;
    } else {
      assert s[1..] == a[1..] + [c] + rest;
      SplitFirst(a[1..], rest, c);
      assert [a[0]] + a[1..] == a;
    }
  }

  /** `"A-B".split("-") == ["A", "B"]` when neither part holds a dash. */
  lemma SplitPair(a: string, b: string, c: char)
    requires c !in a && c !in b
    ensures Split(a + [c] + b, c) == [a, b]
  {
    SplitFirst(a, b, c);
    SplitNoSeparator(b, c);
  }

  /** Splitting a join of pieces without the separator gives the pieces back. */
  lemma {:induction false} SplitJoin(parts: seq<string>, c: char)
    requires |parts| >= 1
    requires forall k :: 0 <= k < |parts| ==> c !in parts[k]
    ensures Split(Join(parts, [c]), c) == parts
    decreases |parts|
  {
    if |parts| == 1 {
      SplitNoSeparator(parts[0], c);
    } else {
      SplitJoin(parts[1..], c);
      SplitFirst(parts[0], Join(parts[1..], [c]), c);
      assert parts == [parts[0]] + parts[1..];
    }
  }

  /** One step of `Split` on a string given as its first character and
      the rest. */
  lemma SplitCons(x: char, t: string, c: char)
    ensures Split([x] + t, c) ==
      if x == c then [""] + Split(t, c) else [[x] + Split(t, c)[0]] + Split(t, c)[1..]
  {
    assert ([x] + t)[1..] == t;
  }

  /** Splitting at one separator splits the two sides on their own. */
  lemma {:induction false} SplitConcat(a: string, b: string, c: char)
    ensures Split(a + [c] + b, c) == Split(a, c) + Split(b, c)
    decreases |a|
  {
    if |a| == 0 {
      assert a + [c] + b == [c] + b;
      SplitCons(c, b, c);
    } else {
      var x, t := a[0], a[1..];
      assert a == [x] + t;
      assert a + [c] + b == [x] + (t + [c] + b);
      SplitCons(x, t + [c] + b, c);
      SplitCons(x, t, c);
      SplitConcat(t, b, c);
      ConsAppend(x, Split(t, c), Split(b, c), c);
    }
  }

  /** The step of `Split` commutes with appending the pieces of a later
      part. */
  lemma ConsAppend(x: char, left: seq<string>, right: seq<string>, c: char)
    requires |left| >= 1
    ensures (if x == c then [""] + (left + right) else [[x] + (left + right)[0]] + (left + right)[1..]) ==
      (if x == c then [""] + left else [[x] + left[0]] + left[1..]) + right
  {
    if x != c {
      assert (left + right)[1..] == left[1..] + right;
    }
  }

  /** Joining one more part appends the separator and the part. */
  lemma {:induction false} JoinSnoc(front: seq<string>, last: string, sep: string)
    requires |front| >= 1
    ensures Join(front + [last], sep) == Join(front, sep) + sep + last
    decreases |front|
  {
    var s := front + [last];
    if |front| == 1 {
      assert s[1..] == [last];
    } else {
      JoinSnoc(front[1..], last, sep);
      assert s[1..] == front[1..] + [last];
    }
  }

  /** `s.split(c)[-1]`: the piece after the last separator. */
  function LastPiece(s: string, c: char): (r: string)
    ensures c !in r
  {
    var parts := Split(s, c);
    parts[|parts| - 1]
  }

  /** The last piece of `a + c + b` is the last piece of `b`. */
  lemma LastPieceAfter(a: string, b: string, c: char)
    ensures LastPiece(a + [c] + b, c) == LastPiece(b, c)
  {
    SplitConcat(a, b, c);
  }

  /** `s.replace(pat, rep)`: every non-overlapping occurrence of `pat`,
      scanned from the left, is replaced by `rep`. */
  function Replace(s: string, pat: string, rep: string): string
    requires |pat| > 0
    decreases |s|
  {
    if |s| < |pat| then s
    else if s[..|pat|] == pat then rep + Replace(s[|pat|..], pat, rep)
    else [s[0]] + Replace(s[1..], pat, rep)
  }

  /** Replacing one character by another keeps the length and changes
      exactly the positions that held the replaced character. */
  lemma {:induction false} ReplaceCharAt(s: string, a: char, b: char)
    ensures |Replace(s, [a], [b])| == |s|
    ensures forall i :: 0 <= i < |s| ==>
      Replace(s, [a], [b])[i] == (if s[i] == a then b else s[i])
    decreases |s|
  {
    if |s| > 0 {
      ReplaceCharAt(s[1..], a, b);
      var r := Replace(s, [a], [b]);
      assert r == [if s[0] == a then b else s[0]] + Replace(s[1..], [a], [b]);
    }
  }

  /** Replacing a character by another one removes it. */
  lemma ReplaceCharRemoves(s: string, a: char, b: char)
    requires a != b
    ensures a !in Replace(s, [a], [b])
  {
    ReplaceCharAt(s, a, b);
  }

  /** A one-character replacement commutes with concatenation. */
  lemma ReplaceCharConcat(x: string, y: string, a: char, b: char)
    ensures Replace(x + y, [a], [b]) == Replace(x, [a], [b]) + Replace(y, [a], [b])
  {
    ReplaceCharAt(x, a, b);
    ReplaceCharAt(y, a, b);
    ReplaceCharAt(x + y, a, b);
  }

  /** Deleting a character leaves no occurrence of it. */
  lemma {:induction false} DeleteCharRemoves(s: string, a: char)
    ensures a !in Replace(s, [a], "")
    decreases |s|
  {
    if |s| > 0 {
      DeleteCharRemoves(s[1..], a);
    }
  }

  /** `sub in s` */
  predicate Contains(s: string, sub: string)
    decreases |s|
  {
    |sub| <= |s| && (s[..|sub|] == sub || Contains(s[1..], sub))
  }
  /** A substring of the middle part is a substring of the whole. */
  lemma {:induction false} ContainsWithin(a: string, b: string, c: string, sub: string)
    requires Contains(b, sub)
    ensures Contains(a + b + c, sub)
    decreases |a|
  {
    if |a| == 0 {
      ContainsPrefix(b, c, sub);
      assert a + b + c == b + c;
    } else {
      ContainsWithin(a[1..], b, c, sub);
      assert (a + b + c)[1..] == a[1..] + b + c;
    }
  }

  lemma {:induction false} ContainsPrefix(b: string, c: string, sub: string)
    requires Contains(b, sub)
    ensures Contains(b + c, sub)
    decreases |b|
  {
    if b[..|sub|] == sub {
      assert (b + c)[..|sub|] == sub;
    } else {
      ContainsPrefix(b[1..], c, sub);
      assert (b + c)[1..] == b[1..] + c;
    }
  }

  /** A string contains itself. */
  lemma ContainsSelf(s: string)
    ensures Contains(s, s)
  {
    assert s[..|s|] == s;
  }

  /** A non-empty substring starts with a character of the string. */
  lemma {:induction false} ContainsFirstChar(s: string, sub: string)
    requires |sub| > 0 && Contains(s, sub)
    ensures sub[0] in s
    decreases |s|
  {
    if s[..|sub|] != sub {
      ContainsFirstChar(s[1..], sub);
    } else {
      assert s[0] == sub[0];
    }
  }

  /** `s[-k:]`: the last `k` characters, or all of a shorter string. */
  function Tail(s: string, k: nat): (r: string)
    ensures |r| == if |s| < k then |s| else k
  {
    if |s| < k then s else s[|s| - k..]
  }

  /** `s[-len(t):] == t` */
  predicate EndsWith(s: string, t: string)
  {
    Tail(s, |t|) == t
  }

  /** A string ending with `t` holds `t` in its tail. */
  lemma EndsWithContains(s: string, t: string)
    ensures EndsWith(s, t) ==> Contains(Tail(s, |t|), t)
  {
    ContainsSelf(t);
  }

  /** `str.lower()` on the letters A to Z; other characters stay. */
  function LowerChar(c: char): char
  {
    if 'A' <= c <= 'Z' then (c as int + 32) as char else c
  }

  function Lower(s: string): (r: string)
    ensures |r| == |s| && forall i :: 0 <= i < |s| ==> r[i] == LowerChar(s[i])
  {
    seq(|s|, i requires 0 <= i < |s| => LowerChar(s[i]))
  }

  // ---------------------------------------------------------------- order

  /** Python's string order: `a < b`, character codes compared from the
      left, a proper prefix first. */
  predicate Below(a: string, b: string)
    decreases |a|
  {
    |b| > 0 && (|a| == 0 || a[0] < b[0] || (a[0] == b[0] && Below(a[1..], b[1..])))
  }

  /** `a <= b` */
  predicate AtMost(a: string, b: string)
  {
    a == b || Below(a, b)
  }

  lemma {:induction false} BelowTotal(a: string, b: string)
    ensures AtMost(a, b) || AtMost(b, a)
    decreases |a|
  {
    if |a| > 0 && |b| > 0 && a[0] == b[0] {
      BelowTotal(a[1..], b[1..]);
      if a[1..] == b[1..] {
        assert a == [a[0]] + a[1..] && b == [b[0]] + b[1..];
      }
    }
  }

  lemma {:induction false} BelowTransitive(a: string, b: string, c: string)
    requires Below(a, b) && Below(b, c)
    ensures Below(a, c)
    decreases |a|
  {
    if |a| > 0 && a[0] == b[0] && b[0] == c[0] {
      BelowTransitive(a[1..], b[1..], c[1..]);
    }
  }

  lemma AtMostTransitive(a: string, b: string, c: string)
    requires AtMost(a, b) && AtMost(b, c)
    ensures AtMost(a, c)
  {
    if a != b && b != c {
      BelowTransitive(a, b, c);
    }
  }

  predicate SortedStrings(s: seq<string>)
  {
    forall i, j :: 0 <= i < j < |s| ==> AtMost(s[i], s[j])
  }

  lemma SortedStringsTail(s: seq<string>)
    requires SortedStrings(s) && |s| > 0
    ensures SortedStrings(s[1..])
  {
    assert forall i :: 0 <= i < |s| - 1 ==> s[1..][i] == s[i + 1];
  }

  /** A head at most every string of a sorted tail keeps it sorted. */
  lemma SortedStringsCons(h: string, t: seq<string>)
    requires SortedStrings(t) && forall y :: y in t ==> AtMost(h, y)
    ensures SortedStrings([h] + t)
  {
    var s := [h] + t;
    forall i, j | 0 <= i < j < |s|
      ensures AtMost(s[i], s[j])
    {
      assert s[j] == t[j - 1];
      if i == 0 {
        assert t[j - 1] in t;
      } else {
        assert s[i] == t[i - 1];
      }
    }
  }

  /** The head of a sorted list kept in front of the tail with `x`
      inserted, when the head is below `x`. */
  lemma HeadBeforeInserted(s: seq<string>, x: string, rest: seq<string>)
    requires SortedStrings(s) && |s| > 0 && Below(s[0], x)
    requires SortedStrings(rest) && multiset(rest) == multiset(s[1..]) + multiset{x}
    ensures SortedStrings([s[0]] + rest) && multiset([s[0]] + rest) == multiset(s) + multiset{x}
  {
    assert s == [s[0]] + s[1..];
    forall y | y in rest
      ensures AtMost(s[0], y)
    {
      assert y in multiset(rest);
      if y != x {
        assert y in multiset(s[1..]);
        var j :| 0 <= j < |s[1..]| && s[1..][j] == y;
        assert s[j + 1] == y;
      }
    }
    SortedStringsCons(s[0], rest);
  }

  /** `x` in front of a sorted list whose head is not below it. */
  lemma InsertedFirst(x: string, s: seq<string>)
    requires SortedStrings(s) && |s| > 0 && !Below(s[0], x)
    ensures SortedStrings([x] + s)
  {
    BelowTotal(x, s[0]);
    forall y | y in s
      ensures AtMost(x, y)
    {
      var j :| 0 <= j < |s| && s[j] == y;
      if j > 0 {
        AtMostTransitive(x, s[0], s[j]);
      }
    }
    SortedStringsCons(x, s);
  }

  /** Inserting into a sorted list at the first place that keeps it sorted. */
  function InsertSorted(x: string, s: seq<string>): (r: seq<string>)
    requires SortedStrings(s)
    ensures SortedStrings(r) && multiset(r) == multiset(s) + multiset{x}
    decreases |s|
  {
    if |s| == 0 then [x]
    else if Below(s[0], x) then
      SortedStringsTail(s);
      var rest := InsertSorted(x, s[1..]);
      HeadBeforeInserted(s, x, rest);
      [s[0]] + rest
    else
      InsertedFirst(x, s);
      [x] + s
  }

  /** `sorted(s)` */
  function SortStrings(s: seq<string>): (r: seq<string>)
    ensures SortedStrings(r) && multiset(r) == multiset(s)
    decreases |s|
  {
    if |s| == 0 then []
    else
      assert s == [s[0]] + s[1..];
      InsertSorted(s[0], SortStrings(s[1..]))
  }
}
