/** The string operations every name iteration is built on, with the
    JavaScript semantics the sources rely on: `Array.prototype.join`,
    `String.prototype.split` on a one-character separator, `indexOf`,
    `replace` with a string pattern (first occurrence only), and the index
    normalisation of `slice` and `splice`. */
module Text {
  import opened Common

  // ---------------------------------------------------------------- join

  /** `parts.join(sep)`: the parts with `sep` between neighbours, no trailing separator. */
  function Join(parts: seq<string>, sep: string): (r: string)
    ensures |parts| == 0 ==> r == ""
    ensures |parts| == 1 ==> r == parts[0]
  {
    if |parts| == 0 then ""
    else if |parts| == 1 then parts[0]
    else parts[0] + sep + Join(parts[1..], sep)
  }

  /** Appending one part to a join adds one separator and the part. */
  lemma {:induction false} JoinSnoc(parts: seq<string>, x: string, sep: string)
    ensures Join(parts + [x], sep) == if |parts| == 0 then x else Join(parts, sep) + sep + x
  {
    if |parts| >= 2 {
      assert (parts + [x])[1..] == parts[1..] + [x];
      JoinSnoc(parts[1..], x, sep);
    } else if |parts| == 1 {
      assert (parts + [x])[1..] == [x];
    }
  }

  /** Joining a concatenation of two non-empty lists puts one separator between the two joins. */
  lemma {:induction false} JoinAppend(a: seq<string>, b: seq<string>, sep: string)
    requires |a| >= 1 && |b| >= 1
    ensures Join(a + b, sep) == Join(a, sep) + sep + Join(b, sep)
  {
    if |a| == 1 {
      assert (a + b)[1..] == b;
    } else {
      assert (a + b)[1..] == a[1..] + b;
      JoinAppend(a[1..], b, sep);
    }
  }

  /** Every part followed by `sep`, the trailing-delimiter rendering of adap-b03 and adap-b05. */
  function JoinTrailing(parts: seq<string>, sep: string): (r: string)
    ensures |parts| == 0 ==> r == ""
  {
    if |parts| == 0 then "" else parts[0] + sep + JoinTrailing(parts[1..], sep)
  }

  /** The trailing rendering of a non-empty list is the plain join followed by one separator. */
  lemma {:induction false} JoinTrailingIsJoinThenSep(parts: seq<string>, sep: string)
    requires |parts| >= 1
    ensures JoinTrailing(parts, sep) == Join(parts, sep) + sep
  {
    if |parts| > 1 {
      JoinTrailingIsJoinThenSep(parts[1..], sep);
    }
  }

  /** Extending the list extends the trailing rendering by the new part and one separator. */
  lemma {:induction false} JoinTrailingSnoc(parts: seq<string>, x: string, sep: string)
    ensures JoinTrailing(parts + [x], sep) == JoinTrailing(parts, sep) + x + sep
  {
    if |parts| == 0 {
      assert (parts + [x])[1..] == [];
    } else {
      assert (parts + [x])[1..] == parts[1..] + [x];
      JoinTrailingSnoc(parts[1..], x, sep);
    }
  }

  // ---------------------------------------------------------------- split

  /** `s.split(d)` for a one-character separator: the maximal runs between
      occurrences of `d`; the empty string gives one empty part. */
  function Split(s: string, d: char): (r: seq<string>)
    ensures |r| >= 1
    ensures forall k :: 0 <= k < |r| ==> d !in r[k]
  {
    if |s| == 0 then [""]
    else if s[0] == d then [""] + Split(s[1..], d)
    else
      var rest := Split(s[1..], d);
      [[s[0]] + rest[0]] + rest[1..]
  }

  /** The number of occurrences of `d` in `s`. */
  function Count(s: string, d: char): (n: nat)
    ensures n <= |s|
    ensures n == 0 <==> d !in s
  {
    if |s| == 0 then 0 else (if s[0] == d then 1 else 0) + Count(s[1..], d)
  }

  /** A split has one part more than there are separators. */
  lemma {:induction false} SplitLength(s: string, d: char)
    ensures |Split(s, d)| == Count(s, d) + 1
  {
    if |s| > 0 {
      SplitLength(s[1..], d);
    }
  }

  /** Joining the parts of a split with the same separator gives the string back. */
  lemma {:induction false} JoinSplit(s: string, d: char)
    ensures Join(Split(s, d), [d]) == s
  {
    if |s| > 0 {
      var rest := Split(s[1..], d);
      JoinSplit(s[1..], d);
      if s[0] == d {
        assert Split(s, d) == [""] + rest;
        assert ([""] + rest)[1..] == rest;
        assert s == [d] + s[1..];
      } else {
        var r := [[s[0]] + rest[0]] + rest[1..];
        assert Split(s, d) == r;
        if |rest| == 1 {
          assert s == [s[0]] + s[1..];
        } else {
          assert r[1..] == rest[1..];
          assert Join(rest, [d]) == rest[0] + [d] + Join(rest[1..], [d]);
          assert s == [s[0]] + s[1..];
        }
      }
    }
  }

  /** Splitting at one occurrence of the separator splits each side independently. */
  lemma {:induction false} SplitAround(a: string, b: string, d: char)
    ensures Split(a + [d] + b, d) == Split(a, d) + Split(b, d)
  {
    var s := a + [d] + b;
    if |a| == 0 {
      assert s == [d] + b && s[1..] == b;
    } else {
      assert s[0] == a[0] && s[1..] == a[1..] + [d] + b;
      SplitAround(a[1..], b, d);
      var ra := Split(a[1..], d);
      if a[0] != d {
        var rest := Split(s[1..], d);
        assert rest == ra + Split(b, d);
        assert rest[0] == ra[0];
        assert rest[1..] == ra[1..] + Split(b, d);
      }
    }
  }

  /** A string splits into itself alone exactly when it does not contain the separator. */
  lemma {:induction false} SplitSingle(s: string, d: char)
    ensures Split(s, d) == [s] <==> d !in s
  {
    SplitLength(s, d);
    if d !in s {
      JoinSplit(s, d);
    }
  }

  /** The first part of a split is a proper prefix as soon as the separator occurs. */
  lemma {:induction false} SplitHeadShorter(s: string, d: char)
    requires d in s
    ensures |Split(s, d)[0]| < |s|
  {
    var r := Split(s, d);
    SplitLength(s, d);
    JoinSplit(s, d);
    assert |r| >= 2;
    assert Join(r, [d]) == r[0] + [d] + Join(r[1..], [d]);
  }

  /** The first part of a split is the whole string exactly when the separator does not occur. */
  lemma SplitHeadWhole(s: string, d: char)
    ensures Split(s, d)[0] == s <==> d !in s
  {
    SplitSingle(s, d);
    if d in s {
      SplitHeadShorter(s, d);
    }
  }

  /** The parts of every element of `parts`, in order. */
  function SplitAll(parts: seq<string>, d: char): (r: seq<string>)
    ensures |r| >= |parts|
  {
    if |parts| == 0 then [] else Split(parts[0], d) + SplitAll(parts[1..], d)
  }

  /** Splitting distributes over concatenation of part lists. */
  lemma {:induction false} SplitAllAppend(a: seq<string>, b: seq<string>, d: char)
    ensures SplitAll(a + b, d) == SplitAll(a, d) + SplitAll(b, d)
  {
    if |a| > 0 {
      assert (a + b)[1..] == a[1..] + b;
      SplitAllAppend(a[1..], b, d);
    } else {
      assert a + b == b;
    }
  }

  /** Parts that do not contain the separator split into themselves. */
  lemma {:induction false} SplitAllClean(parts: seq<string>, d: char)
    requires forall k :: 0 <= k < |parts| ==> d !in parts[k]
    ensures SplitAll(parts, d) == parts
  {
    if |parts| > 0 {
      SplitSingle(parts[0], d);
      SplitAllClean(parts[1..], d);
    }
  }

  /** Re-splitting a join recovers the parts of every joined element. */
  lemma {:induction false} SplitJoinAll(parts: seq<string>, d: char)
    requires |parts| >= 1
    ensures Split(Join(parts, [d]), d) == SplitAll(parts, d)
  {
    if |parts| == 1 {
      assert SplitAll(parts, d) == Split(parts[0], d) + SplitAll(parts[1..], d);
    } else {
      SplitJoinAll(parts[1..], d);
      SplitAround(parts[0], Join(parts[1..], [d]), d);
    }
  }

  /** Join then split is the identity on a non-empty list of separator-free parts. */
  lemma SplitJoin(parts: seq<string>, d: char)
    requires |parts| >= 1
    requires forall k :: 0 <= k < |parts| ==> d !in parts[k]
    ensures Split(Join(parts, [d]), d) == parts
  {
    SplitJoinAll(parts, d);
    SplitAllClean(parts, d);
  }

  /** The parts of a join that inserted `c` before position `i`. */
  lemma SplitJoinInsert(parts: seq<string>, i: nat, c: string, d: char)
    requires i <= |parts|
    requires forall k :: 0 <= k < |parts| ==> d !in parts[k]
    ensures Split(Join(parts[..i] + [c] + parts[i..], [d]), d) == parts[..i] + Split(c, d) + parts[i..]
  {
    var q := parts[..i] + [c] + parts[i..];
    SplitJoinAll(q, d);
    SplitAllAppend(parts[..i] + [c], parts[i..], d);
    SplitAllAppend(parts[..i], [c], d);
    assert SplitAll([c], d) == Split(c, d) + SplitAll([], d);
    SplitAllClean(parts[..i], d);
    SplitAllClean(parts[i..], d);
  }

  /** The parts of a join that replaced element `i` with `c`: the old parts
      before `i`, the parts of `c`, the old parts after `i`. */
  lemma SplitJoinReplace(parts: seq<string>, i: nat, c: string, d: char)
    requires i < |parts|
    requires forall k :: 0 <= k < |parts| ==> d !in parts[k]
    ensures Split(Join(parts[i := c], [d]), d) == parts[..i] + Split(c, d) + parts[i + 1..]
  {
    var rest := parts[..i] + parts[i + 1..];
    assert rest[..i] == parts[..i] && rest[i..] == parts[i + 1..];
    assert parts[i := c] == rest[..i] + [c] + rest[i..];
    forall k | 0 <= k < |rest|
      ensures d !in rest[k]
    {
      assert rest[k] == if k < i then parts[k] else parts[k + 1];
    }
    SplitJoinInsert(rest, i, c, d);
  }

  // ---------------------------------------------------------------- search and replace

  /** `s.indexOf(d)`: the first position of `d`, or -1. */
  function IndexOf(s: string, d: char): (k: int)
    ensures -1 <= k < |s|
    ensures k == -1 <==> d !in s
    ensures k >= 0 ==> s[k] == d && d !in s[..k]
  {
    if |s| == 0 then -1
    else if s[0] == d then 0
    else
      var k := IndexOf(s[1..], d);
      assert s[1..][..k + 1] == s[1..k + 2] by { if k >= 0 { } }
      if k == -1 then -1 else k + 1
  }

  /** `s.replace(d, rep)` with a string pattern: only the first occurrence is replaced. */
  function ReplaceFirst(s: string, d: char, rep: string): (r: string)
    ensures d !in s ==> r == s
    ensures d in s ==> exists k :: 0 <= k < |s| && s[k] == d && d !in s[..k] && r == s[..k] + rep + s[k + 1..]
  {
    var k := IndexOf(s, d);
    if k == -1 then s else s[..k] + rep + s[k + 1..]
  }

  // ---------------------------------------------------------------- array positions

  /** The position `slice(i)` and `splice(i, …)` start at in a list of length
      `len`: a negative index counts from the end, clamped to `0 .. len`. */
  function StartIndex(i: int, len: nat): (k: nat)
    ensures k <= len
    ensures 0 <= i <= len ==> k == i
    ensures i > len ==> k == len
    ensures i < 0 ==> k == if len + i < 0 then 0 else len + i
  {
    if i < 0 then (if len + i < 0 then 0 else len + i)
    else if i > len then len
    else i
  }

  /** `xs.slice(0, i).concat([c], xs.slice(i))`, also the effect of `xs.splice(i, 0, c)`. */
  function InsertAt(xs: seq<string>, i: int, c: string): (r: seq<string>)
    ensures |r| == |xs| + 1
    ensures r[StartIndex(i, |xs|)] == c
    ensures r[..StartIndex(i, |xs|)] == xs[..StartIndex(i, |xs|)]
    ensures r[StartIndex(i, |xs|) + 1..] == xs[StartIndex(i, |xs|)..]
  {
    var k := StartIndex(i, |xs|);
    xs[..k] + [c] + xs[k..]
  }

  /** `xs.splice(i, 1)`: drops the element at the start position, if there is one. */
  function RemoveAt(xs: seq<string>, i: int): (r: seq<string>)
    ensures StartIndex(i, |xs|) < |xs| ==> |r| == |xs| - 1 && r == xs[..StartIndex(i, |xs|)] + xs[StartIndex(i, |xs|) + 1..]
    ensures StartIndex(i, |xs|) == |xs| ==> r == xs
  {
    var k := StartIndex(i, |xs|);
    if k < |xs| then xs[..k] + xs[k + 1..] else xs
  }

  /** `xs[i] = c` for `0 <= i <= xs.length`: replaces an element, or appends at the end. */
  function Store(xs: seq<string>, i: nat, c: string): (r: seq<string>)
    requires i <= |xs|
    ensures |r| == if i < |xs| then |xs| else |xs| + 1
    ensures r[i] == c
    ensures forall k :: 0 <= k < |xs| && k != i ==> r[k] == xs[k]
  {
    if i < |xs| then xs[i := c] else xs + [c]
  }

  /** `xs[i]`, which is `undefined` outside the list. */
  function ElementAt<T>(xs: seq<T>, i: int): (r: Option<T>)
    ensures r.Some? <==> 0 <= i < |xs|
    ensures r.Some? ==> r.value == xs[i]
  {
    if 0 <= i < |xs| then Some(xs[i]) else None
  }

  // ---------------------------------------------------------------- resplitting after an edit

  /** The last piece of `c` split at `d` is `c` itself exactly when `d` does not occur in `c`. */
  lemma SplitLastWhole(c: string, d: char)
    ensures Split(c, d)[|Split(c, d)| - 1] == c <==> d !in c
  {
    SplitSingle(c, d);
    if d in c {
      SplitLength(c, d);
      JoinSplit(c, d);
      JoinLastShorter(Split(c, d), [d]);
    }
  }

  /** The last of two or more joined parts is shorter than the join. */
  lemma JoinLastShorter(parts: seq<string>, sep: string)
    requires |parts| >= 2 && |sep| >= 1
    ensures |parts[|parts| - 1]| < |Join(parts, sep)|
  {
    var n := |parts|;
    assert parts == parts[..n - 1] + [parts[n - 1]];
    JoinSnoc(parts[..n - 1], parts[n - 1], sep);
  }

  /** Joining clean parts plus `c` and splitting again yields the parts and then `c` split. */
  lemma AppendResplit(parts: seq<string>, c: string, d: char)
    requires |parts| >= 1 && forall k :: 0 <= k < |parts| ==> d !in parts[k]
    ensures Split(Join(parts + [c], [d]), d) == parts + Split(c, d)
  {
    SplitJoinAll(parts + [c], d);
    SplitAllAppend(parts, [c], d);
    SplitAllClean(parts, d);
    assert [c][1..] == [];
    assert SplitAll([c], d) == Split(c, d) + SplitAll([], d);
  }

  /** After `components[i] = c` and a join, component `i` reads back as `c`
      exactly when `c` holds no delimiter, and then the components are the stored ones. */
  lemma StoreResplit(parts: seq<string>, i: nat, c: string, d: char)
    requires i <= |parts| && |parts| >= 1
    requires forall k :: 0 <= k < |parts| ==> d !in parts[k]
    ensures i < |Split(Join(Store(parts, i, c), [d]), d)|
    ensures Split(Join(Store(parts, i, c), [d]), d)[i] == c <==> d !in c
    ensures d !in c ==> Split(Join(Store(parts, i, c), [d]), d) == Store(parts, i, c)
  {
    SplitHeadWhole(c, d);
    SplitSingle(c, d);
    if i < |parts| {
      SplitJoinReplace(parts, i, c, d);
      assert Store(parts, i, c) == parts[i := c];
    } else {
      AppendResplit(parts, c, d);
    }
  }

  /** After a splice of `c` at `i` and a join, component `i` reads back as `c`
      exactly when `c` holds no delimiter, and then the components are the spliced ones. */
  lemma InsertResplit(parts: seq<string>, i: nat, c: string, d: char)
    requires i <= |parts|
    requires forall k :: 0 <= k < |parts| ==> d !in parts[k]
    ensures i < |Split(Join(parts[..i] + [c] + parts[i..], [d]), d)|
    ensures Split(Join(parts[..i] + [c] + parts[i..], [d]), d)[i] == c <==> d !in c
    ensures d !in c ==> Split(Join(parts[..i] + [c] + parts[i..], [d]), d) == parts[..i] + [c] + parts[i..]
  {
    SplitHeadWhole(c, d);
    SplitSingle(c, d);
    SplitJoinInsert(parts, i, c, d);
  }

  /** The components a string name has after component `i` is dropped and the
      rest is joined again: dropping the only component leaves one empty one. */
  ghost function AfterRemoval(parts: seq<string>, i: nat): seq<string>
    requires i < |parts|
  {
    var rest := parts[..i] + parts[i + 1..];
    if |rest| == 0 then [""] else rest
  }

  /** Dropping component `i` and joining again leaves AfterRemoval's components. */
  lemma RemoveResplit(parts: seq<string>, i: nat, d: char)
    requires i < |parts|
    requires forall k :: 0 <= k < |parts| ==> d !in parts[k]
    ensures Split(Join(parts[..i] + parts[i + 1..], [d]), d) == AfterRemoval(parts, i)
  {
    var rest := parts[..i] + parts[i + 1..];
    if |rest| > 0 {
      forall k | 0 <= k < |rest|
        ensures d !in rest[k]
      {
        if k < i {
          assert rest[k] == parts[k];
        } else {
          assert rest[k] == parts[k + 1];
        }
      }
      SplitJoin(rest, d);
    }
  }

  /** A trailing rendering is empty exactly when there is nothing to render. */
  lemma TrailingEmpty(parts: seq<string>, d: char)
    ensures JoinTrailing(parts, [d]) == "" <==> |parts| == 0
  {
    if |parts| > 0 {
      JoinTrailingIsJoinThenSep(parts, [d]);
    }
  }

}
