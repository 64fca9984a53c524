/** The fifth Name iteration: a mutable name kept as one delimited string.
    Every mutator takes a backup first and, when its own postcondition check
    fails, restores the backup and throws MethodFailed. Index checks accept
    the count itself; the rendering puts the separator after every component. */
module NamesB05 {
  import opened Common
  import opened Text

  /** The delimiter a new name gets: the default when none is given, the given
      one when it is a single character other than the escape character, and a
      MethodFailed otherwise. */
  function DelimiterFor(delimiter: Option<string>): (r: Result<char>)
    ensures delimiter.None? ==> r == Ok(DEFAULT_DELIMITER)
    ensures delimiter.Some? ==>
              (r.Ok? <==> |delimiter.value| == 1 && delimiter.value[0] != ESCAPE_CHARACTER)
    ensures delimiter.Some? && r.Ok? ==> delimiter.value == [r.value]
    ensures r.Err? ==> r.error == Raise(MethodFailed)
  {
    match delimiter
    case None => Ok(DEFAULT_DELIMITER)
    case Some(d) =>
      if |d| == 1 && d[0] != ESCAPE_CHARACTER then Ok(d[0]) else Err(Raise(MethodFailed))
  }

  /** The index of the first part that contains `d`, or the number of parts. */
  function FirstContaining(parts: seq<string>, d: char): (k: nat)
    ensures k <= |parts|
    ensures forall j :: 0 <= j < k ==> d !in parts[j]
    ensures k < |parts| ==> d in parts[k]
  {
    if |parts| == 0 then 0
    else if d in parts[0] then 0
    else 1 + FirstContaining(parts[1..], d)
  }

  /** The StringName hash: `h = 22 * h + code` over the stored string, from 0. */
  function Hash22(s: string): int
  {
    if |s| == 0 then 0 else 22 * Hash22(s[..|s| - 1]) + s[|s| - 1] as int
  }

  // ------------------------------------------------------------ hashing

  /** Names with the same delimiter and the same components store the same
      string, so their hash codes agree. */
  lemma SameComponentsSameHash(a: string, b: string, d: char)
    requires Split(a, d) == Split(b, d)
    ensures a == b
    ensures Hash22(a) == Hash22(b)
  {
    JoinSplit(a, d);
    JoinSplit(b, d);
  }

  /** `isEqual` ignores the delimiter but the hash reads the stored string:
      "a.b" under '.' and "a#b" under '#' have equal components and different hashes. */
  lemma EqualNamesHashApart()
    ensures Split("a.b", '.') == Split("a#b", '#') == ["a", "b"]
    ensures Hash22("a.b") != Hash22("a#b")
  {
    assert "a.b"[1..] == ".b" && ".b"[1..] == "b" && "b"[1..] == [];
    assert "a#b"[1..] == "#b" && "#b"[1..] == "b";
    SplitSingle("b", '.');
    SplitSingle("b", '#');
    assert Split(".b", '.') == ["", "b"] && Split("#b", '#') == ["", "b"];
    assert "a.b"[0] == 'a' && "a#b"[0] == 'a' && ['a'] + "" == "a";
    assert Split("a.b", '.') == [['a'] + Split(".b", '.')[0]] + Split(".b", '.')[1..];
    assert Split("a#b", '#') == [['a'] + Split("#b", '#')[0]] + Split("#b", '#')[1..];
    assert "a.b"[..2] == "a." && "a."[..1] == "a" && "a"[..0] == [];
    assert "a#b"[..2] == "a#" && "a#"[..1] == "a";
    assert Hash22("a") == 97;
    assert Hash22("a.") == 22 * 97 + 46;
    assert Hash22("a#") == 22 * 97 + 35;
  }

  // ------------------------------------------------------------ the name

  /** `new StringName(other, delimiter)`: checks the delimiter (MethodFailed)
      and stores the string as given. */
  method Create(other: string, delimiter: Option<string>) returns (r: Result<StringName>)
    ensures r.Err? <==> DelimiterFor(delimiter).Err?
    ensures r.Err? ==> r.error == Raise(MethodFailed)
    ensures r.Ok? ==> fresh(r.value) && r.value.Valid()
    ensures r.Ok? ==> r.value.name == other && r.value.delimiter == DelimiterFor(delimiter).value
  {
    var d := DelimiterFor(delimiter);
    if d.Err? {
      return Err(d.error);
    }
    var n := new StringName(other, d.value);
    return Ok(n);
  }

  class StringName {
    var name: string
    var delimiter: char

    /** The class invariant: the delimiter is not the escape character. */
    ghost predicate Valid()
      reads this
    {
      delimiter != ESCAPE_CHARACTER
    }

    /** The components: the stored string split at the delimiter. */
    function Components(): seq<string>
      reads this
    {
      Split(name, delimiter)
    }

    constructor (name: string, delimiter: char)
      requires delimiter != ESCAPE_CHARACTER
      ensures Valid() && this.name == name && this.delimiter == delimiter
    {
      this.name := name;
      this.delimiter := delimiter;
    }

    /** `getNoComponents()`: one more than the delimiter occurrences, never 0. */
    function NoComponents(): (n: nat)
      reads this
      ensures n == Count(name, delimiter) + 1
      ensures n >= 1
    {
      SplitLength(name, delimiter);
      |Components()|
    }

    /** `isEmpty()`: the count is 0, which never happens for a string name. */
    function IsEmpty(): (b: bool)
      reads this
      ensures !b
    {
      NoComponents() == 0
    }

    /** `assertIndexInBound(i)`: accepts 0 <= i <= count, the count included. */
    function IndexInBound(i: int): (r: Outcome)
      reads this
      ensures r.Pass? <==> 0 <= i <= NoComponents()
      ensures r.Fail? ==> r.error == Raise(IllegalArgument)
    {
      Check(0 <= i <= NoComponents(), IllegalArgument)
    }

    /** `getComponent(i)`: IllegalArgument out of bound; `undefined` (None) at the count. */
    function GetComponent(i: int): (r: Result<Option<string>>)
      reads this
      ensures r.Err? <==> !(0 <= i <= NoComponents())
      ensures r.Err? ==> r.error == Raise(IllegalArgument)
      ensures r.Ok? ==> (r.value.Some? <==> i < NoComponents())
      ensures r.Ok? && r.value.Some? ==> r.value.value == Components()[i]
    {
      var bound := IndexInBound(i);
      if bound.Fail? then Err(bound.error) else Ok(ElementAt(Components(), i))
    }

    /** `setComponent(i, c)`: replaces component `i` (appends at the count);
        a component holding the delimiter is rolled back with MethodFailed. */
    method SetComponent(i: int, c: string) returns (r: Outcome)
      requires Valid()
      modifies this
      ensures Valid() && delimiter == old(delimiter)
      ensures !(0 <= i <= old(NoComponents())) ==> r == Fail(Raise(IllegalArgument)) && name == old(name)
      ensures 0 <= i <= old(NoComponents()) && delimiter in c ==>
                r == Fail(Raise(MethodFailed)) && name == old(name)
      ensures 0 <= i <= old(NoComponents()) && delimiter !in c ==>
                r == Pass && Components() == Store(old(Components()), i, c)
    {
      var bound := IndexInBound(i);
      if bound.Fail? {
        return bound;
      }
      var backupName, backupDelimiter := name, delimiter;
      var components := Split(name, delimiter);
      StoreResplit(components, i, c, delimiter);
      components := Store(components, i, c);
      name := Join(components, [delimiter]);
      var got := GetComponent(i);
      if got != Ok(Some(c)) {
        name, delimiter := backupName, backupDelimiter;
        return Fail(Raise(MethodFailed));
      }
      return Pass;
    }

    /** `insert(i, c)`: splices `c` in at `i`; a component holding the
        delimiter is rolled back with MethodFailed. */
    method Insert(i: int, c: string) returns (r: Outcome)
      requires Valid()
      modifies this
      ensures Valid() && delimiter == old(delimiter)
      ensures !(0 <= i <= old(NoComponents())) ==> r == Fail(Raise(IllegalArgument)) && name == old(name)
      ensures 0 <= i <= old(NoComponents()) && delimiter in c ==>
                r == Fail(Raise(MethodFailed)) && name == old(name)
      ensures 0 <= i <= old(NoComponents()) && delimiter !in c ==>
                r == Pass && Components() == old(Components())[..i] + [c] + old(Components())[i..]
    {
      var bound := IndexInBound(i);
      if bound.Fail? {
        return bound;
      }
      var backupName, backupDelimiter := name, delimiter;
      var components := Split(name, delimiter);
      InsertResplit(components, i, c, delimiter);
      components := InsertAt(components, i, c);
      name := Join(components, [delimiter]);
      var got := GetComponent(i);
      if got != Ok(Some(c)) {
        name, delimiter := backupName, backupDelimiter;
        return Fail(Raise(MethodFailed));
      }
      return Pass;
    }

    /** `append(c)`: adds `c` last; a component holding the delimiter is
        rolled back with MethodFailed. */
    method Append(c: string) returns (r: Outcome)
      requires Valid()
      modifies this
      ensures Valid() && delimiter == old(delimiter)
      ensures delimiter in c ==> r == Fail(Raise(MethodFailed)) && name == old(name)
      ensures delimiter !in c ==> r == Pass && Components() == old(Components()) + [c]
    {
      var backupName, backupDelimiter := name, delimiter;
      var components := Split(name, delimiter);
      AppendResplit(components, c, delimiter);
      SplitLastWhole(c, delimiter);
      SplitSingle(c, delimiter);
      components := components + [c];
      name := Join(components, [delimiter]);
      var last := NoComponents() - 1;
      var got := GetComponent(last);
      if got != Ok(Some(c)) {
        name, delimiter := backupName, backupDelimiter;
        return Fail(Raise(MethodFailed));
      }
      return Pass;
    }

    /** `remove(i)`: drops component `i` (nothing at the count); when the
        dropped value still occurs among the components, the name is rolled
        back with MethodFailed. */
    method Remove(i: int) returns (r: Outcome)
      requires Valid()
      modifies this
      ensures Valid() && delimiter == old(delimiter)
      ensures !(0 <= i <= old(NoComponents())) ==> r == Fail(Raise(IllegalArgument)) && name == old(name)
      ensures i == old(NoComponents()) ==> r == Pass && name == old(name)
      ensures 0 <= i < old(NoComponents()) ==>
                (r.Fail? <==> old(Components())[i] in AfterRemoval(old(Components()), i))
      ensures 0 <= i < old(NoComponents()) && r.Fail? ==> r == Fail(Raise(MethodFailed)) && name == old(name)
      ensures 0 <= i < old(NoComponents()) && r.Pass? ==> Components() == AfterRemoval(old(Components()), i)
    {
      var bound := IndexInBound(i);
      if bound.Fail? {
        return bound;
      }
      var backupName, backupDelimiter := name, delimiter;
      var components := Split(name, delimiter);
      var removed := ElementAt(components, i);
      if i < |components| {
        RemoveResplit(components, i, delimiter);
      } else {
        JoinSplit(name, delimiter);
      }
      components := RemoveAt(components, i);
      name := Join(components, [delimiter]);
      if removed.Some? && removed.value in Components() {
        name, delimiter := backupName, backupDelimiter;
        return Fail(Raise(MethodFailed));
      }
      return Pass;
    }

    /** `asString(sep)`: every component followed by `sep`, the last one included. */
    method AsString(sep: string) returns (s: string)
      ensures s == JoinTrailing(Components(), sep)
    {
      var amount := NoComponents();
      s := "";
      var i := 0;
      while i < amount
        invariant 0 <= i <= amount
        invariant s == JoinTrailing(Components()[..i], sep)
      {
        var got := GetComponent(i);
        assert Components()[..i + 1] == Components()[..i] + [Components()[i]];
        JoinTrailingSnoc(Components()[..i], Components()[i], sep);
        s := s + got.value.value + sep;
        i := i + 1;
      }
      assert Components()[..amount] == Components();
    }

    /** `asDataString()`: the trailing rendering with escape character plus delimiter as separator. */
    method AsDataString() returns (s: string)
      ensures s == JoinTrailing(Components(), [ESCAPE_CHARACTER, delimiter])
    {
      s := AsString([ESCAPE_CHARACTER, delimiter]);
    }

    /** `isEqual(other)`: the same count and the same components; the
        delimiters are not compared. */
    method IsEqual(other: StringName) returns (b: bool)
      requires Valid() && other.Valid()
      ensures b <==> Components() == other.Components()
    {
      if NoComponents() != other.NoComponents() {
        return false;
      }
      var i := 0;
      while i < NoComponents()
        invariant 0 <= i <= NoComponents()
        invariant Components()[..i] == other.Components()[..i]
      {
        if GetComponent(i) != other.GetComponent(i) {
          return false;
        }
        assert Components()[..i + 1] == Components()[..i] + [Components()[i]];
        assert other.Components()[..i + 1] == other.Components()[..i] + [other.Components()[i]];
        i := i + 1;
      }
      assert Components() == Components()[..i];
      assert other.Components() == other.Components()[..i];
      return true;
    }

    /** `isEqual` as the name contract means it: delimiter and components, so
        that equal names hash alike. */
    method IsSameName(other: StringName) returns (b: bool)
      requires Valid() && other.Valid()
      ensures b <==> delimiter == other.delimiter && Components() == other.Components()
      ensures b ==> Hash22(name) == Hash22(other.name)
    {
      var sameComponents := IsEqual(other);
      b := delimiter == other.delimiter && sameComponents;
      if b {
        SameComponentsSameHash(name, other.name, delimiter);
      }
    }

    /** `getHashCode()` of StringName: `22 * h + code` over the stored string. */
    method GetHashCode() returns (h: int)
      ensures h == Hash22(name)
    {
      h := 0;
      var i := 0;
      while i < |name|
        invariant 0 <= i <= |name|
        invariant h == Hash22(name[..i])
      {
        assert name[..i + 1][..i] == name[..i];
        h := 22 * h + name[i] as int;
        i := i + 1;
      }
      assert name[..i] == name;
    }

    /** The view another name's `concat` takes of this one. */
    function View(): (v: NameView)
      reads this
      ensures v.delimiter == delimiter && v.components == Components()
    {
      NameView(delimiter, Components())
    }

    /** `concat(other)`: InvalidState when `other` renders as "" (it has no
        components); otherwise appends its components one by one, stopping at
        the first that holds this delimiter, whose append fails with
        MethodFailed and leaves the earlier appends in place. */
    method Concat(other: NameView) returns (r: Outcome)
      requires Valid()
      modifies this
      ensures Valid() && delimiter == old(delimiter)
      ensures |other.components| == 0 ==> r == Fail(Raise(InvalidState)) && name == old(name)
      ensures |other.components| > 0 ==>
                var k := FirstContaining(other.components, delimiter);
                && Components() == old(Components()) + other.components[..k]
                && (r.Pass? <==> k == |other.components|)
                && (r.Fail? ==> r.error == Raise(MethodFailed))
    {
      var rendered := JoinTrailing(other.components, [other.delimiter]);
      TrailingEmpty(other.components, other.delimiter);
      var valid := Check(rendered != "", InvalidState);
      if valid.Fail? {
        return valid;
      }
      ghost var k := FirstContaining(other.components, delimiter);
      var j := 0;
      while j < |other.components|
        invariant 0 <= j <= |other.components|
        invariant Valid() && delimiter == old(delimiter)
        invariant j <= k
        invariant Components() == old(Components()) + other.components[..j]
      {
        var appended := Append(other.components[j]);
        if appended.Fail? {
          assert j == k;
          return appended;
        }
        assert other.components[..j + 1] == other.components[..j] + [other.components[j]];
        j := j + 1;
      }
      return Pass;
    }
  }

  /** Rendered with its own delimiter, a string name is its stored string plus one delimiter. */
  lemma OwnRendering(name: string, d: char)
    ensures JoinTrailing(Split(name, d), [d]) == name + [d]
  {
    JoinTrailingIsJoinThenSep(Split(name, d), [d]);
    JoinSplit(name, d);
  }
}
