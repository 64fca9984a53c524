/** The second Name iteration: an array name that shares the caller's array,
    and a string name whose empty string stands for zero components. Index
    checks reject only indices above the count, and the data string escapes
    only the first delimiter. */
module NamesB02 {
  import opened Common
  import opened Text

  /** The delimiter a name gets: the given one, else the default. */
  function DelimiterOr(delimiter: Option<char>): (d: char)
    ensures delimiter.Some? ==> d == delimiter.value
    ensures delimiter.None? ==> d == DEFAULT_DELIMITER
  {
    if delimiter.Some? then delimiter.value else DEFAULT_DELIMITER
  }

  /** The data string: the first delimiter of `s` is preceded by the escape
      character; the rest of `s` is left as it is. */
  function EscapeFirst(s: string, d: char): (r: string)
    ensures d !in s ==> r == s
    ensures d in s ==> |r| == |s| + 1
    ensures d in s ==> var k := IndexOf(s, d);
              && s[k] == d && d !in s[..k]
              && r == s[..k] + [ESCAPE_CHARACTER, d] + s[k + 1..]
  {
    ReplaceFirst(s, d, [ESCAPE_CHARACTER, d])
  }

  /** Only the first delimiter is escaped: "a.b.c" becomes "a\.b.c". */
  lemma EscapeFirstOnly()
    ensures EscapeFirst("a.b.c", '.') == "a\\.b.c"
  {
    assert IndexOf("b.c", '.') == 1;
    assert IndexOf(".b.c", '.') == 0;
    assert "a.b.c"[1..] == ".b.c";
    assert IndexOf("a.b.c", '.') == 1;
    assert "a.b.c"[..1] == "a" && "a.b.c"[2..] == "b.c";
  }

  // ---------------------------------------------------------------- StringArrayName

  class StringArrayName {
    var components: StringList
    var delimiter: char

    /** `new StringArrayName(other, delimiter)`: keeps the caller's array
        itself, not a copy. */
    constructor (other: StringList, delimiter: Option<char>)
      ensures components == other && this.delimiter == DelimiterOr(delimiter)
    {
      components := other;
      this.delimiter := DelimiterOr(delimiter);
    }

    /** `getComponents()`: the stored array itself, so writes through it change the name. */
    method GetComponents() returns (l: StringList)
      ensures l == components
    {
      l := components;
    }

    /** `setAllComponents(other)`: the name now shares `other`. */
    method SetAllComponents(other: StringList)
      modifies this
      ensures components == other && delimiter == old(delimiter)
    {
      components := other;
    }

    /** `getNoComponents()`: the array length. */
    function NoComponents(): (n: nat)
      reads this, components
      ensures n == |components.items|
    {
      |components.items|
    }

    /** `isEmpty()`: the array has no elements. */
    function IsEmpty(): (b: bool)
      reads this, components
      ensures b <==> NoComponents() == 0
    {
      |components.items| == 0
    }

    /** `asString(sep)`: the components joined by `sep`, with no trailing separator. */
    function AsString(sep: string): (s: string)
      reads this, components
      ensures |components.items| == 0 ==> s == ""
      ensures |components.items| == 1 ==> s == components.items[0]
      ensures sep == [delimiter] && |components.items| >= 1 ==>
                Split(s, delimiter) == SplitAll(components.items, delimiter)
    {
      if |components.items| >= 1 then SplitJoinAll(components.items, delimiter); Join(components.items, sep)
      else Join(components.items, sep)
    }

    /** `asDataString()`: the own rendering with only its first delimiter escaped. */
    function AsDataString(): (s: string)
      reads this, components
      ensures var own := AsString([delimiter]);
              && (delimiter !in own ==> s == own)
              && (delimiter in own ==> var k := IndexOf(own, delimiter);
                    && own[k] == delimiter && delimiter !in own[..k]
                    && s == own[..k] + [ESCAPE_CHARACTER, delimiter] + own[k + 1..])
    {
      EscapeFirst(AsString([delimiter]), delimiter)
    }

    /** `getComponent(i)`: an Error above the count; `undefined` (None)
        where the array has no element. */
    function GetComponent(i: int): (r: Result<Option<string>>)
      reads this, components
      ensures r.Err? <==> i > NoComponents()
      ensures r.Err? ==> r.error == Raise(PlainError)
      ensures r.Ok? ==> (r.value.Some? <==> 0 <= i < NoComponents())
      ensures r.Ok? && r.value.Some? ==> r.value.value == components.items[i]
    {
      if i <= |components.items| then Ok(ElementAt(components.items, i)) else Err(Raise(PlainError))
    }

    /** `setComponent(i, c)`: an Error above the count; otherwise
        `components[i] = c` in the shared array, which appends at the count
        and sets no element for a negative index. */
    method SetComponent(i: int, c: string) returns (r: Outcome)
      modifies components
      ensures i > old(NoComponents()) ==> r == Fail(Raise(PlainError)) && components.items == old(components.items)
      ensures i < 0 ==> r == Pass && components.items == old(components.items)
      ensures 0 <= i <= old(NoComponents()) ==> r == Pass && components.items == Store(old(components.items), i, c)
    {
      if i <= |components.items| {
        if i >= 0 {
          components.items := Store(components.items, i, c);
        }
        return Pass;
      } else {
        return Fail(Raise(PlainError));
      }
    }

    /** `insert(i, c)`: an Error above the count; otherwise a new array of
        the prefix, `c` and the suffix, cut where `slice` cuts at `i`. */
    method Insert(i: int, c: string) returns (r: Outcome)
      modifies this
      ensures delimiter == old(delimiter)
      ensures i > old(NoComponents()) ==> r == Fail(Raise(PlainError)) && components == old(components)
      ensures i <= old(NoComponents()) ==>
                var k := StartIndex(i, old(NoComponents()));
                && r == Pass && fresh(components)
                && components.items == old(components.items)[..k] + [c] + old(components.items)[k..]
    {
      if i <= |components.items| {
        var spliced := new StringList(InsertAt(components.items, i, c));
        SetAllComponents(spliced);
        return Pass;
      } else {
        return Fail(Raise(PlainError));
      }
    }

    /** `append(c)`: pushes `c` onto the shared array. */
    method Append(c: string)
      modifies components
      ensures components.items == old(components.items) + [c]
    {
      components.items := components.items + [c];
    }

    /** `remove(i)`: an Error above the count; otherwise `splice(i, 1)` on
        the shared array, which removes nothing at the count. */
    method Remove(i: int) returns (r: Outcome)
      modifies components
      ensures i > old(NoComponents()) ==> r == Fail(Raise(PlainError)) && components.items == old(components.items)
      ensures i <= old(NoComponents()) ==>
                var k := StartIndex(i, old(NoComponents()));
                && r == Pass
                && (k == old(NoComponents()) ==> components.items == old(components.items))
                && (k < old(NoComponents()) ==>
                      components.items == old(components.items)[..k] + old(components.items)[k + 1..])
    {
      if i <= |components.items| {
        components.items := RemoveAt(components.items, i);
        return Pass;
      } else {
        return Fail(Raise(PlainError));
      }
    }

    /** `concat(other)`: `other` rendered with "." and split at "." again, put
        after the components in a new array; an `other` without components
        still adds one empty component. */
    method Concat(other: NameView)
      modifies this
      ensures delimiter == old(delimiter) && fresh(components)
      ensures components.items == old(components.items) + Split(Join(other.components, "."), '.')
      ensures |other.components| == 0 ==> components.items == old(components.items) + [""]
      ensures |other.components| >= 1 ==>
                components.items == old(components.items) + SplitAll(other.components, '.')
    {
      var otherArray := Split(Join(other.components, "."), '.');
      if |other.components| >= 1 {
        SplitJoinAll(other.components, '.');
      }
      var joined := new StringList(components.items + otherArray);
      SetAllComponents(joined);
    }
  }

  // ---------------------------------------------------------------- StringName

  class StringName {
    var name: string
    var delimiter: char

    /** `new StringName(other, delimiter)`: the given delimiter, else the default. */
    constructor (other: string, delimiter: Option<char>)
      ensures name == other && this.delimiter == DelimiterOr(delimiter)
    {
      name := other;
      this.delimiter := DelimiterOr(delimiter);
    }

    /** `getAllComponents()`: the stored string split at the delimiter, so
        the empty string has one empty component here. */
    function AllComponents(): seq<string>
      reads this
    {
      Split(name, delimiter)
    }

    /** `isEmpty()`: the stored string is empty. */
    function IsEmpty(): (b: bool)
      reads this
      ensures b <==> name == ""
    {
      |name| == 0
    }

    /** `getNoComponents()`: 0 for the empty string, else one more than the
        delimiter occurrences. */
    function NoComponents(): (n: nat)
      reads this
      ensures n == 0 <==> name == ""
      ensures name != "" ==> n == Count(name, delimiter) + 1 == |AllComponents()|
    {
      SplitLength(name, delimiter);
      if IsEmpty() then 0 else |AllComponents()|
    }

    /** `getComponent(x)`: an Error on the empty string; otherwise the split
        element, `undefined` (None) outside the components. */
    function GetComponent(x: int): (r: Result<Option<string>>)
      reads this
      ensures r.Err? <==> name == ""
      ensures r.Err? ==> r.error == Raise(PlainError)
      ensures r.Ok? ==> (r.value.Some? <==> 0 <= x < NoComponents())
      ensures r.Ok? && r.value.Some? ==> r.value.value == AllComponents()[x] && delimiter !in r.value.value
    {
      if IsEmpty() then Err(Raise(PlainError)) else Ok(ElementAt(AllComponents(), x))
    }

    /** `asString(sep)`: the split components joined by `sep`. */
    function AsString(sep: string): (s: string)
      reads this
      ensures sep == [delimiter] ==> s == name
      ensures name == "" ==> s == ""
    {
      JoinSplit(name, delimiter);
      Join(AllComponents(), sep)
    }

    /** `asDataString()`: the stored string with only its first delimiter escaped. */
    function AsDataString(): (s: string)
      reads this
      ensures delimiter !in name ==> s == name
      ensures delimiter in name ==> var k := IndexOf(name, delimiter);
                && name[k] == delimiter && delimiter !in name[..k]
                && s == name[..k] + [ESCAPE_CHARACTER, delimiter] + name[k + 1..]
    {
      EscapeFirst(name, delimiter)
    }

    /** `setComponent(n, c)`: an Error above the split count; otherwise
        `components[n] = c` and a join (nothing changes for a negative index). */
    method SetComponent(n: int, c: string) returns (r: Outcome)
      modifies this
      ensures delimiter == old(delimiter)
      ensures n > old(|AllComponents()|) ==> r == Fail(Raise(PlainError)) && name == old(name)
      ensures n < 0 ==> r == Pass && name == old(name)
      ensures 0 <= n < old(|AllComponents()|) ==>
                r == Pass && AllComponents() == old(AllComponents())[..n] + Split(c, delimiter) + old(AllComponents())[n + 1..]
      ensures n == old(|AllComponents()|) ==> r == Pass && AllComponents() == old(AllComponents()) + Split(c, delimiter)
    {
      var components := AllComponents();
      if |components| >= n {
        JoinSplit(name, delimiter);
        if 0 <= n < |components| {
          SplitJoinReplace(components, n, c, delimiter);
          assert Store(components, n, c) == components[n := c];
        } else if n == |components| {
          AppendResplit(components, c, delimiter);
        }
        if n >= 0 {
          components := Store(components, n, c);
        }
        name := Join(components, [delimiter]);
        return Pass;
      } else {
        return Fail(Raise(PlainError));
      }
    }

    /** `insert(n, c)`: an Error above the split count; otherwise `c` goes
        between the prefix and the suffix cut where `slice` cuts at `n`. */
    method Insert(n: int, c: string) returns (r: Outcome)
      modifies this
      ensures delimiter == old(delimiter)
      ensures n > old(|AllComponents()|) ==> r == Fail(Raise(PlainError)) && name == old(name)
      ensures n <= old(|AllComponents()|) ==>
                var k := StartIndex(n, old(|AllComponents()|));
                r == Pass && AllComponents() == old(AllComponents())[..k] + Split(c, delimiter) + old(AllComponents())[k..]
    {
      var components := AllComponents();
      if |components| >= n {
        var k := StartIndex(n, |components|);
        SplitJoinInsert(components, k, c, delimiter);
        components := InsertAt(components, n, c);
        assert components == old(AllComponents())[..k] + [c] + old(AllComponents())[k..];
        name := Join(components, [delimiter]);
        return Pass;
      } else {
        return Fail(Raise(PlainError));
      }
    }

    /** `append(c)`: the delimiter and `c` are added to the stored string,
        even when it is empty, which then gains a leading empty component. */
    method Append(c: string)
      modifies this
      ensures delimiter == old(delimiter)
      ensures name == old(name) + [delimiter] + c
      ensures AllComponents() == old(AllComponents()) + Split(c, delimiter)
      ensures old(name) == "" ==> AllComponents() == [""] + Split(c, delimiter)
    {
      SplitAround(name, c, delimiter);
      name := name + [delimiter] + c;
    }

    /** `remove(n)`: no bound check; `splice(n, 1)` removes nothing from the
        count on and the component at the index it makes of `n` otherwise. */
    method Remove(n: int)
      modifies this
      ensures delimiter == old(delimiter)
      ensures StartIndex(n, old(|AllComponents()|)) == old(|AllComponents()|) ==> name == old(name)
      ensures StartIndex(n, old(|AllComponents()|)) < old(|AllComponents()|) ==>
                AllComponents() == AfterRemoval(old(AllComponents()), StartIndex(n, old(|AllComponents()|)))
    {
      var components := AllComponents();
      var k := StartIndex(n, |components|);
      if k < |components| {
        RemoveResplit(components, k, delimiter);
      } else {
        JoinSplit(name, delimiter);
      }
      components := RemoveAt(components, n);
      name := Join(components, [delimiter]);
    }

    /** `concat(other)`: the delimiter and `other`'s own rendering are added
        to the stored string. */
    method Concat(other: NameView)
      modifies this
      ensures delimiter == old(delimiter)
      ensures name == old(name) + [delimiter] + Join(other.components, [other.delimiter])
      ensures AllComponents() == old(AllComponents()) + Split(Join(other.components, [other.delimiter]), delimiter)
    {
      var rendered := Join(other.components, [other.delimiter]);
      SplitAround(name, rendered, delimiter);
      name := name + [delimiter] + rendered;
    }
  }

  /** Concatenating a name that shares the delimiter and has clean components
      appends exactly those components. */
  lemma ConcatSameDelimiter(mine: string, theirs: seq<string>, d: char)
    requires |theirs| >= 1 && forall k :: 0 <= k < |theirs| ==> d !in theirs[k]
    ensures Split(mine + [d] + Join(theirs, [d]), d) == Split(mine, d) + theirs
  {
    SplitAround(mine, Join(theirs, [d]), d);
    SplitJoin(theirs, d);
  }
}
