/** The final, immutable Name (adap-b06): a value object with two
    representations. `StringArrayName` keeps its own copy of the component
    list; `StringName` keeps one string and derives the components by
    splitting it on the delimiter. Every operation returns a new value and
    leaves the receiver as it was; a failed check is an `Err` result. */
module NamesB06 {
  import opened Common
  import opened Text

  datatype Name =
    | StringArrayName(delimiter: char, components: seq<string>)
    | StringName(delimiter: char, name: string)

  /** `getComponents()`: the copied array, or the split of the stored string. */
  function Components(n: Name): (r: seq<string>)
    ensures n.StringName? ==> |r| >= 1 && forall k :: 0 <= k < |r| ==> n.delimiter !in r[k]
    ensures n.StringName? ==> Join(r, [n.delimiter]) == n.name
  {
    match n
    case StringArrayName(_, comps) => comps
    case StringName(d, s) => JoinSplit(s, d); Split(s, d)
  }

  /** `getNoComponents()`: for a StringName, one more than the delimiters in its string. */
  function NoComponents(n: Name): (count: nat)
    ensures n.StringName? ==> count == Count(n.name, n.delimiter) + 1
  {
    if n.StringName? then SplitLength(n.name, n.delimiter); |Components(n)|
    else |Components(n)|
  }

  /** Two names denote the same value: same delimiter, same components in the same order. */
  predicate SameValue(a: Name, b: Name)
  {
    a.delimiter == b.delimiter && Components(a) == Components(b)
  }

  /** The invariant the constructor establishes: the delimiter is not the escape character. */
  predicate Valid(n: Name)
  {
    n.delimiter != ESCAPE_CHARACTER
  }

  /** The component `c` cannot be stored: a StringName would split it apart. */
  predicate SplitsApart(n: Name, c: string)
  {
    n.StringName? && n.delimiter in c
  }

  // ---------------------------------------------------------------- construction

  /** The delimiter check of the AbstractName constructor: an omitted
      delimiter is the default; a given one must be one character other than
      the escape character, else IllegalArgument. */
  function CheckedDelimiter(delimiter: Option<string>): (r: Result<char>)
    ensures r.Ok? <==> delimiter.None? || (|delimiter.value| == 1 && delimiter.value[0] != ESCAPE_CHARACTER)
    ensures r.Ok? && delimiter.None? ==> r.value == DEFAULT_DELIMITER
    ensures r.Ok? && delimiter.Some? ==> [r.value] == delimiter.value
    ensures r.Ok? ==> r.value != ESCAPE_CHARACTER
    ensures r.Err? ==> r.error == Raise(IllegalArgument)
  {
    match delimiter
    case None => Ok(DEFAULT_DELIMITER)
    case Some(d) =>
      if |d| == 1 && d[0] != ESCAPE_CHARACTER then Ok(d[0]) else Err(Raise(IllegalArgument))
  }

  /** `new StringArrayName(source, delimiter)`: copies the source array. */
  function NewStringArrayName(source: seq<string>, delimiter: Option<string>): (r: Result<Name>)
    ensures r.Ok? <==> CheckedDelimiter(delimiter).Ok?
    ensures r.Ok? ==> r.value.StringArrayName? && Valid(r.value) && Components(r.value) == source
    ensures r.Err? ==> r.error == Raise(IllegalArgument)
  {
    match CheckedDelimiter(delimiter)
    case Ok(d) => Ok(StringArrayName(d, source))
    case Err(e) => Err(e)
  }

  /** `new StringName(name, delimiter)`: stores the string as given. */
  function NewStringName(name: string, delimiter: Option<string>): (r: Result<Name>)
    ensures r.Ok? <==> CheckedDelimiter(delimiter).Ok?
    ensures r.Ok? ==> r.value.StringName? && Valid(r.value) && r.value.name == name
    ensures r.Ok? ==> NoComponents(r.value) == Count(name, r.value.delimiter) + 1
    ensures r.Err? ==> r.error == Raise(IllegalArgument)
  {
    match CheckedDelimiter(delimiter)
    case Ok(d) => SplitLength(name, d); Ok(StringName(d, name))
    case Err(e) => Err(e)
  }

  // ---------------------------------------------------------------- queries

  /** `getComponent(i)`: a plain Error outside `0 <= i < count`. */
  function GetComponent(n: Name, i: int): (r: Result<string>)
    ensures r.Ok? <==> 0 <= i < NoComponents(n)
    ensures r.Ok? ==> r.value == Components(n)[i]
    ensures r.Err? ==> r.error == Raise(PlainError)
  {
    var comps := Components(n);
    if 0 <= i < |comps| then Ok(comps[i]) else Err(Raise(PlainError))
  }

  /** `isEmpty()`: no components. A StringName is never empty. */
  function IsEmpty(n: Name): (r: bool)
    ensures r <==> Components(n) == []
    ensures n.StringName? ==> !r
  {
    NoComponents(n) == 0
  }

  /** `assertIndexInBound(i)`: accepts `0 <= i <= count`, the count itself included. */
  function AssertIndexInBound(n: Name, i: int): (r: Outcome)
    ensures r.Pass? <==> 0 <= i <= NoComponents(n)
    ensures r.Fail? ==> r.error == Raise(IllegalArgument)
  {
    Check(i >= 0 && i <= NoComponents(n), IllegalArgument)
  }

  /** `clone()`: a name with the same representation, delimiter and components. */
  function Clone(n: Name): (r: Name)
    ensures SameValue(r, n) && r.StringName? == n.StringName?
  {
    n
  }

  // ---------------------------------------------------------------- value operations

  /** `setComponent(i, c)`. */
  function SetComponent(n: Name, i: int, c: string): (r: Result<Name>)
    ensures r.Ok? <==> 0 <= i < NoComponents(n) && !SplitsApart(n, c)
    ensures r.Err? ==> r.error == Raise(if 0 <= i < NoComponents(n) then MethodFailed else PlainError)
    ensures r.Ok? ==> r.value.StringName? == n.StringName? && r.value.delimiter == n.delimiter
    ensures r.Ok? ==> Components(r.value) == Components(n)[i := c]
  {
    match n
    case StringArrayName(d, comps) =>
      if !(0 <= i < |comps|) then Err(Raise(PlainError))
      else
        var result := StringArrayName(d, comps[i := c]);
        if result.components[i] == c then Ok(result) else Err(Raise(MethodFailed))
    case StringName(d, s) =>
      var comps := Split(s, d);
      if !(0 <= i < |comps|) then Err(Raise(PlainError))
      else
        var result := StringName(d, Join(comps[i := c], [d]));
        SplitJoinReplace(comps, i, c, d);
        SplitSingle(c, d);
        SplitHeadWhole(c, d);
        assert Components(result)[i] == Split(c, d)[0];
        if GetComponent(result, i) == Ok(c) then Ok(result) else Err(Raise(MethodFailed))
  }

  /** `insert(i, c)`: `c` at position `i`, the old components around it. */
  function Insert(n: Name, i: int, c: string): (r: Result<Name>)
    ensures r.Ok? <==> 0 <= i <= NoComponents(n) && !SplitsApart(n, c)
    ensures r.Err? ==> r.error == Raise(if 0 <= i <= NoComponents(n) then MethodFailed else PlainError)
    ensures r.Ok? ==> r.value.StringName? == n.StringName? && r.value.delimiter == n.delimiter
    ensures r.Ok? ==> Components(r.value) == Components(n)[..i] + [c] + Components(n)[i..]
  {
    match n
    case StringArrayName(d, comps) =>
      if !(0 <= i <= |comps|) then Err(Raise(PlainError))
      else
        var result := StringArrayName(d, comps[..i] + [c] + comps[i..]);
        if NoComponents(result) == |comps| + 1 then Ok(result) else Err(Raise(MethodFailed))
    case StringName(d, s) =>
      var comps := Split(s, d);
      if !(0 <= i <= |comps|) then Err(Raise(PlainError))
      else
        var spliced := comps[..i] + [c] + comps[i..];
        var result := StringName(d, Join(spliced, [d]));
        SplitJoinInsert(comps, i, c, d);
        SplitSingle(c, d);
        SplitLength(c, d);
        if NoComponents(result) == |spliced| then Ok(result) else Err(Raise(MethodFailed))
  }

  /** `append(c)`: `c` after the last component. */
  function Append(n: Name, c: string): (r: Result<Name>)
    ensures r.Ok? <==> !SplitsApart(n, c)
    ensures r.Err? ==> r.error == Raise(MethodFailed)
    ensures r.Ok? ==> r.value.StringName? == n.StringName? && r.value.delimiter == n.delimiter
    ensures r.Ok? ==> Components(r.value) == Components(n) + [c]
  {
    match n
    case StringArrayName(d, comps) =>
      var result := StringArrayName(d, comps + [c]);
      if NoComponents(result) == |comps| + 1 then Ok(result) else Err(Raise(MethodFailed))
    case StringName(_, _) =>
      assert Components(n)[..NoComponents(n)] == Components(n);
      Insert(n, NoComponents(n), c)
  }

  /** `remove(i)`: the components without position `i`. A StringName refuses
      to drop its only component; a StringArrayName may become empty. */
  function Remove(n: Name, i: int): (r: Result<Name>)
    ensures r.Ok? <==> 0 <= i < NoComponents(n) && (n.StringName? ==> NoComponents(n) > 1)
    ensures r.Err? ==> r.error == Raise(if 0 <= i < NoComponents(n) then MethodFailed else PlainError)
    ensures r.Ok? ==> r.value.StringName? == n.StringName? && r.value.delimiter == n.delimiter
    ensures r.Ok? ==> Components(r.value) == Components(n)[..i] + Components(n)[i + 1..]
  {
    match n
    case StringArrayName(d, comps) =>
      if !(0 <= i < |comps|) then Err(Raise(PlainError))
      else
        var result := StringArrayName(d, comps[..i] + comps[i + 1..]);
        if NoComponents(result) == |comps| - 1 then Ok(result) else Err(Raise(MethodFailed))
    case StringName(d, s) =>
      var comps := Split(s, d);
      if !(0 <= i < |comps|) then Err(Raise(PlainError))
      else if !(|comps| > 1) then Err(Raise(MethodFailed))
      else
        var rest := comps[..i] + comps[i + 1..];
        var result := StringName(d, Join(rest, [d]));
        SplitJoin(rest, d);
        if NoComponents(result) == |rest| then Ok(result) else Err(Raise(MethodFailed))
  }

  // ---------------------------------------------------------------- rendering

  /** `asString(sep)`: the components joined by `sep`, no trailing separator. */
  method AsString(n: Name, sep: string) returns (s: string)
    ensures s == Join(Components(n), sep)
  {
    var count := NoComponents(n);
    var comps := Components(n);
    s := "";
    var i := 0;
    while i < count
      invariant count == |comps|
      invariant 0 <= i <= count
      invariant s == Join(comps[..i], sep) + (if 0 < i < count then sep else "")
    {
      assert comps[..i + 1] == comps[..i] + [comps[i]];
      JoinSnoc(comps[..i], comps[i], sep);
      s := s + comps[i];
      if i < count - 1 {
        s := s + sep;
      }
      i := i + 1;
    }
    assert comps[..count] == comps;
  }

  /** `asDataString()`: the components joined by the escape character
      followed by the delimiter. The component text itself is not escaped. */
  method AsDataString(n: Name) returns (s: string)
    ensures s == Join(Components(n), [ESCAPE_CHARACTER, n.delimiter])
  {
    s := AsString(n, [ESCAPE_CHARACTER, n.delimiter]);
  }

  /** `asString()` of a StringName with its own delimiter is the stored string. */
  lemma StringNameRendersItself(d: char, s: string)
    ensures Join(Components(StringName(d, s)), [d]) == s
  {
    JoinSplit(s, d);
  }

  // ---------------------------------------------------------------- equality and hashing

  /** AbstractName `isEqual(other)`: false for an argument that is no name
      (None), else delimiter, count and every component must agree. */
  method AbstractIsEqual(n: Name, other: Option<Name>) returns (r: bool)
    ensures r <==> other.Some? && SameValue(n, other.value)
  {
    if other.None? {
      return false;
    }
    var o := other.value;
    if n.delimiter != o.delimiter {
      return false;
    }
    var a, b := Components(n), Components(o);
    if |a| != |b| {
      return false;
    }
    var i := 0;
    while i < |a|
      invariant 0 <= i <= |a|
      invariant a[..i] == b[..i]
    {
      if a[i] != b[i] {
        return false;
      }
      assert a[..i + 1] == a[..i] + [a[i]] && b[..i + 1] == b[..i] + [b[i]];
      i := i + 1;
    }
    assert a == a[..i] && b == b[..i];
    return true;
  }

  /** StringName's own `isEqual(other)`, comparing the split arrays with `every`. */
  function StringNameIsEqual(n: Name, other: Option<Name>): (r: bool)
    requires n.StringName?
    ensures r <==> other.Some? && SameValue(n, other.value)
  {
    match other
    case None => false
    case Some(o) =>
      var mine, theirs := Split(n.name, n.delimiter), Components(o);
      n.delimiter == o.delimiter && |mine| == |theirs| &&
      (forall k :: 0 <= k < |mine| ==> mine[k] == theirs[k])
  }

  /** `isEqual(other)` as dispatched: StringName overrides, StringArrayName inherits. */
  method IsEqual(n: Name, other: Option<Name>) returns (r: bool)
    ensures r <==> other.Some? && SameValue(n, other.value)
  {
    if n.StringName? {
      r := StringNameIsEqual(n, other);
    } else {
      r := AbstractIsEqual(n, other);
    }
  }

  /** The code a hash step uses for one character (`charCodeAt`). */
  function CharCode(ch: char): int
  {
    ch as int
  }

  /** `s.split('').reduce((acc, ch) => 31 * acc + code(ch), acc)`. */
  function CharFold(acc: int, s: string): int
    decreases |s|
  {
    if |s| == 0 then acc else CharFold(31 * acc + CharCode(s[0]), s[1..])
  }

  /** The hash of one component. */
  function ComponentHash(s: string): int
  {
    CharFold(0, s)
  }

  /** `components.reduce((acc, c) => 31 * acc + hash(c), acc)`. */
  function ComponentsFold(acc: int, comps: seq<string>): int
    decreases |comps|
  {
    if |comps| == 0 then acc else ComponentsFold(31 * acc + ComponentHash(comps[0]), comps[1..])
  }

  /** The starting value: 17, then one step for the delimiter. */
  function HashSeed(d: char): int
  {
    31 * 17 + CharCode(d)
  }

  /** The hash both representations compute: a function of the delimiter and the components only. */
  function NameHash(n: Name): int
  {
    ComponentsFold(HashSeed(n.delimiter), Components(n))
  }

  /** AbstractName `getHashCode()`: the index loop. */
  method AbstractHashCode(n: Name) returns (h: int)
    ensures h == NameHash(n)
  {
    var comps := Components(n);
    h := 17;
    h := 31 * h + CharCode(n.delimiter);
    var i := 0;
    while i < |comps|
      invariant 0 <= i <= |comps|
      invariant ComponentsFold(h, comps[i..]) == NameHash(n)
    {
      assert comps[i..][1..] == comps[i + 1..];
      h := 31 * h + ComponentHash(comps[i]);
      i := i + 1;
    }
  }

  /** StringName's own `getHashCode()`: the same formula as a `reduce` over the split string. */
  function StringNameHashCode(n: Name): (h: int)
    requires n.StringName?
    ensures h == NameHash(n)
  {
    ComponentsFold(HashSeed(n.delimiter), Split(n.name, n.delimiter))
  }

  /** Equal names have equal hash codes, across representations. */
  lemma EqualNamesHashEqual(a: Name, b: Name)
    requires SameValue(a, b)
    ensures NameHash(a) == NameHash(b)
  {
  }

  // ---------------------------------------------------------------- concatenation

  /** One step of `concat`: appending the next component of `theirs` to a
      name holding `mine` and the components before it. */
  lemma AppendExtends(n: Name, mine: seq<string>, theirs: seq<string>, i: nat,
                      result: Name, next: Result<Name>)
    requires i < |theirs|
    requires result.StringName? == n.StringName? && result.delimiter == n.delimiter
    requires Components(result) == mine + theirs[..i]
    requires AllStorable(n, theirs[..i])
    requires next == Append(result, theirs[i])
    ensures next.Ok? <==> !SplitsApart(n, theirs[i])
    ensures next.Ok? ==> AllStorable(n, theirs[..i + 1])
    ensures next.Err? ==> !AllStorable(n, theirs)
    ensures next.Err? ==> next.error == Raise(MethodFailed)
    ensures next.Ok? ==> next.value.StringName? == n.StringName? && next.value.delimiter == n.delimiter
    ensures next.Ok? ==> Components(next.value) == mine + theirs[..i + 1]
  {
    assert theirs[..i + 1] == theirs[..i] + [theirs[i]];
    if next.Err? {
      NotAllStorable(n, theirs, i);
    }
  }

  /** `concat(other)`: a clone of the receiver with every component of `other`
      appended in order. A missing `other` is an IllegalArgument; for a
      StringName receiver a component containing its delimiter fails the
      append with MethodFailed. */
  method Concat(n: Name, other: Option<Name>) returns (r: Result<Name>)
    ensures other.None? ==> r == Err(Raise(IllegalArgument))
    ensures other.Some? ==> (r.Ok? <==> AllStorable(n, Components(other.value)))
    ensures other.Some? && r.Err? ==> r.error == Raise(MethodFailed)
    ensures r.Ok? ==> r.value.StringName? == n.StringName? && r.value.delimiter == n.delimiter
    ensures r.Ok? ==> Components(r.value) == Components(n) + Components(other.value)
  {
    if other.None? {
      return Err(Raise(IllegalArgument));
    }
    var o := other.value;
    ghost var mine, theirs := Components(n), Components(o);
    var result := Clone(n);
    var count := NoComponents(o);
    var i := 0;
    while i < count
      invariant count == |theirs|
      invariant 0 <= i <= |theirs|
      invariant result.StringName? == n.StringName? && result.delimiter == n.delimiter
      invariant Components(result) == mine + theirs[..i]
      invariant AllStorable(n, theirs[..i])
    {
      var c := GetComponent(o, i);
      var next := Append(result, c.value);
      AppendExtends(n, mine, theirs, i, result, next);
      if next.Err? {
        return next;
      }
      result := next.value;
      i := i + 1;
    }
    assert theirs[..i] == theirs;
    return Ok(result);
  }

  /** No component of `comps` would be split apart by `n`. */
  predicate AllStorable(n: Name, comps: seq<string>)
  {
    forall k :: 0 <= k < |comps| ==> !SplitsApart(n, comps[k])
  }

  /** One component that splits apart spoils every list that contains it. */
  lemma NotAllStorable(n: Name, comps: seq<string>, i: nat)
    requires i < |comps| && SplitsApart(n, comps[i])
    ensures !AllStorable(n, comps)
  {
  }

  // ---------------------------------------------------------------- laws

  /** `insert(i, c)` then `remove(i)` gives back the original name. */
  lemma InsertThenRemove(n: Name, i: int, c: string)
    requires 0 <= i <= NoComponents(n)
    requires !SplitsApart(n, c)
    ensures Insert(n, i, c).Ok?
    ensures Remove(Insert(n, i, c).value, i) == Ok(n)
  {
    var m := Insert(n, i, c).value;
    var comps := Components(n);
    assert Components(m)[..i] + Components(m)[i + 1..] == comps;
    var back := Remove(m, i).value;
    if n.StringName? {
      JoinSplit(n.name, n.delimiter);
    }
  }

  /** A StringArrayName and the StringName spelling the same components are the same value. */
  lemma RepresentationsAgree(d: char, comps: seq<string>)
    requires |comps| >= 1
    requires forall k :: 0 <= k < |comps| ==> d !in comps[k]
    ensures SameValue(StringArrayName(d, comps), StringName(d, Join(comps, [d])))
    ensures NameHash(StringArrayName(d, comps)) == NameHash(StringName(d, Join(comps, [d])))
  {
    SplitJoin(comps, d);
  }

  /** Every successful operation keeps the constructor's invariant. */
  lemma OperationsKeepValid(n: Name, i: int, c: string)
    requires Valid(n)
    ensures SetComponent(n, i, c).Ok? ==> Valid(SetComponent(n, i, c).value)
    ensures Insert(n, i, c).Ok? ==> Valid(Insert(n, i, c).value)
    ensures Append(n, c).Ok? ==> Valid(Append(n, c).value)
    ensures Remove(n, i).Ok? ==> Valid(Remove(n, i).value)
  {
  }
}
