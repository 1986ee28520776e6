/** String helpers with the meaning JavaScript gives them: `Array.prototype.join`
    and the splitting a reader of the produced text would do to take it apart. */
module Strings {
  import opened Wrappers

  /** `parts.join(sep)`: the parts in order with `sep` between each two neighbours
      (the empty list joins to the empty string). */
  function Join(parts: seq<string>, sep: string): (r: string)
    ensures |parts| == 0 ==> r == []
    decreases |parts|
  {
    if |parts| == 0 then []
    else if |parts| == 1 then parts[0]
    else parts[0] + sep + Join(parts[1..], sep)
  }

  /** `xs.indexOf(x)`: the position of the first occurrence of `x`, or -1 when
      there is none. */
  function IndexOf<T(==)>(xs: seq<T>, x: T): (r: int)
    ensures r == -1 <==> x !in xs
    ensures r != -1 ==> 0 <= r < |xs| && xs[r] == x && x !in xs[..r]
    decreases |xs|
  {
    if |xs| == 0 then -1
    else if xs[0] == x then 0
    else
      var k := IndexOf(xs[1..], x);
      if k == -1 then -1 else k + 1
  }

  /** The pieces of `s` between occurrences of `c`, in order; always at least one. */
  function Split(s: string, c: char): (r: seq<string>)
    ensures |r| >= 1
    ensures forall i :: 0 <= i < |r| ==> c !in r[i]
    decreases |s|
  {
    if |s| == 0 then [[]]
    else
      var t := Split(s[1..], c);
      if s[0] == c then [[]] + t
      else [[s[0]] + t[0]] + t[1..]
  }

  /** The text before and after the first `c` of `s`, or None when `s` has no `c`. */
  function SplitFirst(s: string, c: char): (r: Option<(string, string)>)
    ensures r.None? <==> c !in s
    ensures r.Some? ==> c !in r.value.0 && s == r.value.0 + [c] + r.value.1
    decreases |s|
  {
    if |s| == 0 then None
    else if s[0] == c then Some(([], s[1..]))
    else
      match SplitFirst(s[1..], c)
      case None => None
      case Some((before, after)) => Some(([s[0]] + before, after))
  }

  /** Joining with a separator distributes over concatenation of non-empty lists. */
  lemma {:induction false} JoinAppend(a: seq<string>, b: seq<string>, sep: string)
    requires |a| >= 1 && |b| >= 1
    ensures Join(a + b, sep) == Join(a, sep) + sep + Join(b, sep)
    decreases |a|
  {
    if |a| == 1 {
      assert a + b == [a[0]] + b;
    } else {
      assert (a + b)[1..] == a[1..] + b;
      JoinAppend(a[1..], b, sep);
    }
  }

  /** Splitting text that does not contain the separator gives the text back. */
  lemma {:induction false} SplitWithout(a: string, c: char)
    requires c !in a
    ensures Split(a, c) == [a]
    decreases |a|
  {
    if |a| > 0 {
      SplitWithout(a[1..], c);
      assert a[0] != c;
      assert [a[0]] + a[1..] == a;
    }
  }

  /** A separator after a separator-free prefix cuts exactly there. */
  lemma {:induction false} SplitAfter(a: string, b: string, c: char)
    requires c !in a
    ensures Split(a + [c] + b, c) == [a] + Split(b, c)
    decreases |a|
  {
    if |a| == 0 {
      assert (a + [c] + b)[1..] == b;
    } else {
      assert (a + [c] + b)[1..] == a[1..] + [c] + b;
      SplitAfter(a[1..], b, c);
      assert (a + [c] + b)[0] == a[0] != c;
      assert [a[0]] + a[1..] == a;
    }
  }

  /** Split undoes Join when no part contains the one-character separator. */
  lemma {:induction false} SplitJoin(parts: seq<string>, c: char)
    requires |parts| >= 1
    requires forall i :: 0 <= i < |parts| ==> c !in parts[i]
    ensures Split(Join(parts, [c]), c) == parts
    decreases |parts|
  {
    if |parts| == 1 {
      SplitWithout(parts[0], c);
    } else {
      SplitJoin(parts[1..], c);
      SplitAfter(parts[0], Join(parts[1..], [c]), c);
      assert [parts[0]] + parts[1..] == parts;
    }
  }

  /** Join undoes Split: re-inserting the separator restores the text. */
  lemma {:induction false} JoinSplit(s: string, c: char)
    ensures Join(Split(s, c), [c]) == s
    decreases |s|
  {
    if |s| > 0 {
      JoinSplit(s[1..], c);
      var t := Split(s[1..], c);
      if s[0] == c {
        assert Join([[]] + t, [c]) == [] + [c] + Join(t, [c]);
      } else if |t| == 1 {
        assert Join([[s[0]] + t[0]] + t[1..], [c]) == [s[0]] + t[0];
      } else {
        assert t == [t[0]] + t[1..];
        assert Join(t, [c]) == t[0] + [c] + Join(t[1..], [c]);
        assert ([[s[0]] + t[0]] + t[1..])[1..] == t[1..];
      }
    }
  }

  /** The first separator after a separator-free prefix is found right there. */
  lemma {:induction false} SplitFirstAfter(a: string, b: string, c: char)
    requires c !in a
    ensures SplitFirst(a + [c] + b, c) == Some((a, b))
    decreases |a|
  {
    if |a| == 0 {
      assert (a + [c] + b)[1..] == b;
    } else {
      assert (a + [c] + b)[1..] == a[1..] + [c] + b;
      SplitFirstAfter(a[1..], b, c);
      assert (a + [c] + b)[0] == a[0] != c;
      assert [a[0]] + a[1..] == a;
    }
  }

  /** Sum of the lengths of some strings. */
  function TotalLength(parts: seq<string>): nat
    decreases |parts|
  {
    if |parts| == 0 then 0 else |parts[0]| + TotalLength(parts[1..])
  }

  /** A join of at least one part is as long as the parts plus one separator
      between each two neighbours. */
  lemma {:induction false} JoinLength(parts: seq<string>, sep: string)
    requires |parts| >= 1
    ensures |Join(parts, sep)| == TotalLength(parts) + (|parts| - 1) * |sep|
    decreases |parts|
  {
    if |parts| > 1 {
      JoinLength(parts[1..], sep);
    }
  }

  /** Concatenation is associative. */
  lemma ConcatAssoc<T>(a: seq<T>, b: seq<T>, c: seq<T>)
    ensures a + (b + c) == (a + b) + c
  {
  }
}
