/** The third Name iteration: a mutable name kept as one delimited string plus
    a cached `length`. Nothing is validated: the delimiter is always the
    default, index checks reject only indices above the count, and the
    rendering puts the separator after every component. */
module NamesB03 {
  import opened Common
  import opened Text

  /** `x | 0`: the integer congruent to `x` modulo 2^32 in the signed 32-bit range. */
  function ToInt32(x: int): (n: int)
    ensures -0x8000_0000 <= n < 0x8000_0000
    ensures (n - x) % 0x1_0000_0000 == 0
  {
    var m := x % 0x1_0000_0000;
    if m < 0x8000_0000 then m else m - 0x1_0000_0000
  }

  /** The AbstractName hash over `s`: from 0, `h = ((h << 5) - h + code) | 0`
      per character. `<< 5` is a multiplication by 32 modulo 2^32, which the
      final `| 0` absorbs. */
  function RollingHash(s: string): (h: int)
    ensures -0x8000_0000 <= h < 0x8000_0000
  {
    if |s| == 0 then 0
    else
      var h := RollingHash(s[..|s| - 1]);
      ToInt32(h * 32 - h + s[|s| - 1] as int)
  }

  class StringName {
    var name: string
    var length: int
    const delimiter: char

    /** The cached length is the length of the stored string. */
    ghost predicate Valid()
      reads this
    {
      length == |name|
    }

    /** The components: the stored string split at the delimiter. */
    function Components(): seq<string>
      reads this
    {
      Split(name, delimiter)
    }

    /** `new StringName(other, delimiter)`: the delimiter argument is ignored
        and the default is used. */
    constructor (other: string, delimiter: Option<string>)
      ensures Valid() && name == other && this.delimiter == DEFAULT_DELIMITER
    {
      name := other;
      length := |other|;
      this.delimiter := DEFAULT_DELIMITER;
    }

    /** `getNoComponents()`: the split length, one more than the delimiter occurrences. */
    function NoComponents(): (n: nat)
      reads this
      ensures n == Count(name, delimiter) + 1
      ensures n >= 1
    {
      SplitLength(name, delimiter);
      |Components()|
    }

    /** `isEmpty()`: the count is 0, which never happens for a string name. */
    function IsEmpty(): (b: bool)
      reads this
      ensures !b
    {
      NoComponents() == 0
    }

    /** `getComponent(i)`: the split element, `undefined` (None) outside the components. */
    function GetComponent(i: int): (r: Option<string>)
      reads this
      ensures r.Some? <==> 0 <= i < NoComponents()
      ensures r.Some? ==> r.value == Components()[i] && delimiter !in r.value
    {
      ElementAt(Components(), i)
    }

    /** `setComponent(i, c)`: an Error above the count; `components[i] = c`
        otherwise, which appends at the count and, for a negative index, sets
        no element at all. */
    method SetComponent(i: int, c: string) returns (r: Outcome)
      requires Valid()
      modifies this
      ensures Valid()
      ensures i > old(NoComponents()) ==> r == Fail(Raise(PlainError)) && name == old(name)
      ensures i < 0 ==> r == Pass && name == old(name)
      ensures 0 <= i < old(NoComponents()) ==>
                r == Pass && Components() == old(Components())[..i] + Split(c, delimiter) + old(Components())[i + 1..]
      ensures i == old(NoComponents()) ==> r == Pass && Components() == old(Components()) + Split(c, delimiter)
    {
      var components := Split(name, delimiter);
      if |components| >= i {
        JoinSplit(name, delimiter);
        if 0 <= i < |components| {
          SplitJoinReplace(components, i, c, delimiter);
          assert Store(components, i, c) == components[i := c];
        } else if i == |components| {
          AppendResplit(components, c, delimiter);
        }
        if i >= 0 {
          components := Store(components, i, c);
        }
        name := Join(components, [delimiter]);
        length := |name|;
        return Pass;
      } else {
        return Fail(Raise(PlainError));
      }
    }

    /** `insert(i, c)`: an Error above the count; otherwise `c` is spliced in
        at the index `splice` makes of `i`. */
    method Insert(i: int, c: string) returns (r: Outcome)
      requires Valid()
      modifies this
      ensures Valid()
      ensures i > old(NoComponents()) ==> r == Fail(Raise(PlainError)) && name == old(name)
      ensures i <= old(NoComponents()) ==>
                var k := StartIndex(i, old(NoComponents()));
                r == Pass && Components() == old(Components())[..k] + Split(c, delimiter) + old(Components())[k..]
    {
      var components := Split(name, delimiter);
      if |components| >= i {
        var k := StartIndex(i, |components|);
        SplitJoinInsert(components, k, c, delimiter);
        components := InsertAt(components, i, c);
        assert components == old(Components())[..k] + [c] + old(Components())[k..];
        name := Join(components, [delimiter]);
        length := |name|;
        return Pass;
      } else {
        return Fail(Raise(PlainError));
      }
    }

    /** `append(c)`: the delimiter and `c` are added to the stored string, so
        a `c` holding the delimiter adds several components. */
    method Append(c: string)
      requires Valid()
      modifies this
      ensures Valid()
      ensures name == old(name) + [delimiter] + c
      ensures Components() == old(Components()) + Split(c, delimiter)
    {
      SplitAround(name, c, delimiter);
      name := name + ([delimiter] + c);
      length := |name|;
    }

    /** `remove(i)`: an Error above the count; otherwise the component at the
        index `splice` makes of `i` is dropped, and at the count nothing is. */
    method Remove(i: int) returns (r: Outcome)
      requires Valid()
      modifies this
      ensures Valid()
      ensures i > old(NoComponents()) ==> r == Fail(Raise(PlainError)) && name == old(name)
      ensures i <= old(NoComponents()) ==> r == Pass
      ensures i <= old(NoComponents()) && StartIndex(i, old(NoComponents())) == old(NoComponents()) ==>
                name == old(name)
      ensures i <= old(NoComponents()) && StartIndex(i, old(NoComponents())) < old(NoComponents()) ==>
                Components() == AfterRemoval(old(Components()), StartIndex(i, old(NoComponents())))
    {
      var components := Split(name, delimiter);
      if |components| >= i {
        var k := StartIndex(i, |components|);
        if k < |components| {
          RemoveResplit(components, k, delimiter);
        } else {
          JoinSplit(name, delimiter);
        }
        components := RemoveAt(components, i);
        name := Join(components, [delimiter]);
        length := |name|;
        return Pass;
      } else {
        return Fail(Raise(PlainError));
      }
    }

    /** `asString(sep)`: every component followed by `sep`, the last one included. */
    method AsString(sep: string) returns (s: string)
      ensures s == JoinTrailing(Components(), sep)
    {
      var amount := NoComponents();
      s := "";
      var i := 0;
      while i < amount
        invariant 0 <= i <= amount
        invariant s == JoinTrailing(Components()[..i], sep)
      {
        var got := GetComponent(i);
        assert Components()[..i + 1] == Components()[..i] + [Components()[i]];
        JoinTrailingSnoc(Components()[..i], Components()[i], sep);
        s := s + got.value + sep;
        i := i + 1;
      }
      assert Components()[..amount] == Components();
    }

    /** `asDataString()`: the trailing rendering with escape character plus delimiter as separator. */
    method AsDataString() returns (s: string)
      ensures s == JoinTrailing(Components(), [ESCAPE_CHARACTER, delimiter])
    {
      s := AsString([ESCAPE_CHARACTER, delimiter]);
    }

    /** `isEqual(other)`: the same count and the same components; the
        delimiters are not compared. */
    method IsEqual(other: StringName) returns (b: bool)
      ensures b <==> Components() == other.Components()
    {
      if NoComponents() != other.NoComponents() {
        return false;
      }
      var i := 0;
      while i < NoComponents()
        invariant 0 <= i <= NoComponents()
        invariant Components()[..i] == other.Components()[..i]
      {
        if GetComponent(i) != other.GetComponent(i) {
          return false;
        }
        assert Components()[..i + 1] == Components()[..i] + [Components()[i]];
        assert other.Components()[..i + 1] == other.Components()[..i] + [other.Components()[i]];
        i := i + 1;
      }
      assert Components() == Components()[..i];
      assert other.Components() == other.Components()[..i];
      return true;
    }

    /** `getHashCode()`: the 32-bit rolling hash of the data string, read as signed. */
    method GetHashCode() returns (h: int)
      ensures h == RollingHash(JoinTrailing(Components(), [ESCAPE_CHARACTER, delimiter]))
    {
      var s := AsDataString();
      h := 0;
      var i := 0;
      while i < |s|
        invariant 0 <= i <= |s|
        invariant h == RollingHash(s[..i])
      {
        assert s[..i + 1][..i] == s[..i];
        h := ToInt32(h * 32 - h + s[i] as int);
        i := i + 1;
      }
      assert s[..i] == s;
    }

    /** `concat(other)`: appends `other`'s components one by one; each append
        splits a component that holds this delimiter. */
    method Concat(other: NameView)
      requires Valid()
      modifies this
      ensures Valid()
      ensures Components() == old(Components()) + SplitAll(other.components, delimiter)
    {
      var j := 0;
      while j < |other.components|
        invariant 0 <= j <= |other.components|
        invariant Valid()
        invariant Components() == old(Components()) + SplitAll(other.components[..j], delimiter)
      {
        assert other.components[..j + 1] == other.components[..j] + [other.components[j]];
        SplitAllAppend(other.components[..j], [other.components[j]], delimiter);
        assert SplitAll([other.components[j]], delimiter) == Split(other.components[j], delimiter) + SplitAll([], delimiter);
        Append(other.components[j]);
        j := j + 1;
      }
      assert other.components[..j] == other.components;
    }
  }

  /** Concatenating a name whose components hold no delimiter appends exactly those components. */
  lemma ConcatClean(mine: seq<string>, theirs: seq<string>, d: char)
    requires forall k :: 0 <= k < |theirs| ==> d !in theirs[k]
    ensures mine + SplitAll(theirs, d) == mine + theirs
  {
    SplitAllClean(theirs, d);
  }
}
