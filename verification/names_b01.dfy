/** The first Name iteration: a mutable name over the caller's own string
    array, with no checks at all. Writes go to the shared array, except
    `insert`, which builds a new one. */
module NamesB01 {
  import opened Common
  import opened Text

  /** `components[i] = c` on a JavaScript array: a negative index sets no
      element, an index past the end leaves holes before `c`, which are
      taken here as empty strings (how `join` renders them). */
  function StoreSparse(xs: seq<string>, i: int, c: string): (r: seq<string>)
    ensures i < 0 ==> r == xs
    ensures 0 <= i ==> |r| == (if i < |xs| then |xs| else i + 1) && r[i] == c
    ensures 0 <= i ==> forall k :: 0 <= k < |xs| && k != i ==> r[k] == xs[k]
    ensures 0 <= i ==> forall k :: |xs| <= k < i ==> r[k] == ""
  {
    if i < 0 then xs
    else if i < |xs| then xs[i := c]
    else xs + seq(i - |xs|, _ => "") + [c]
  }

  /** Inserting at a position in range and removing there again gives back the list. */
  lemma InsertThenRemove(xs: seq<string>, i: int, c: string)
    requires 0 <= i <= |xs|
    ensures RemoveAt(InsertAt(xs, i, c), i) == xs
  {
    var ys := InsertAt(xs, i, c);
    assert StartIndex(i, |ys|) == i;
    assert ys[..i] + ys[i + 1..] == xs[..i] + xs[i..];
    assert xs[..i] + xs[i..] == xs;
  }

  /** Inserting at the count is appending. */
  lemma InsertAtEndIsAppend(xs: seq<string>, c: string)
    ensures InsertAt(xs, |xs|, c) == xs + [c]
  {
    var ys := InsertAt(xs, |xs|, c);
    assert ys[..|xs|] == xs;
    assert ys == ys[..|xs|] + [ys[|xs|]];
  }

  class Name {
    var components: StringList
    var delimiter: string

    /** `new Name(other, delimiter)`: keeps the caller's array itself; the
        delimiter is the given one, else ".". */
    constructor (other: StringList, delimiter: Option<string>)
      ensures components == other
      ensures delimiter.Some? ==> this.delimiter == delimiter.value
      ensures delimiter.None? ==> this.delimiter == [DEFAULT_DELIMITER]
    {
      components := other;
      this.delimiter := if delimiter.Some? then delimiter.value else [DEFAULT_DELIMITER];
    }

    /** `asNameString(sep)`: the components joined by `sep`; for a
        one-character `sep` absent from every component, splitting the
        result gives the components back. */
    function AsNameString(sep: string): (s: string)
      reads this, components
      ensures |components.items| == 0 ==> s == ""
      ensures |components.items| == 1 ==> s == components.items[0]
      ensures |sep| == 1 && |components.items| >= 1 &&
              (forall k :: 0 <= k < |components.items| ==> sep[0] !in components.items[k]) ==>
                Split(s, sep[0]) == components.items
    {
      if |sep| == 1 && |components.items| >= 1 &&
         (forall k :: 0 <= k < |components.items| ==> sep[0] !in components.items[k]) then
        assert [sep[0]] == sep;
        SplitJoin(components.items, sep[0]);
        Join(components.items, sep)
      else
        Join(components.items, sep)
    }

    /** `getComponent(i)`: the array element, `undefined` (None) where there is none. */
    function GetComponent(i: int): (r: Option<string>)
      reads this, components
      ensures r.Some? <==> 0 <= i < NoComponents()
      ensures r.Some? ==> r.value == components.items[i]
    {
      ElementAt(components.items, i)
    }

    /** `getNoComponents()`: the array length. */
    function NoComponents(): (n: nat)
      reads this, components
      ensures n == |components.items|
    {
      |components.items|
    }

    /** `setComponent(i, c)`: writes index `i` of the shared array and nothing else. */
    method SetComponent(i: int, c: string)
      modifies components
      ensures components.items == StoreSparse(old(components.items), i, c)
    {
      components.items := StoreSparse(components.items, i, c);
    }

    /** `insert(i, c)`: a new array of the prefix, `c` and the suffix, cut
        where `slice` cuts at `i`; the caller's array is no longer shared. */
    method Insert(i: int, c: string)
      modifies this
      ensures delimiter == old(delimiter) && fresh(components)
      ensures var k := StartIndex(i, old(|components.items|));
              components.items == old(components.items)[..k] + [c] + old(components.items)[k..]
    {
      var spliced := new StringList(InsertAt(components.items, i, c));
      components := spliced;
    }

    /** `append(c)`: pushes `c` onto the shared array. */
    method Append(c: string)
      modifies components
      ensures components.items == old(components.items) + [c]
    {
      components.items := components.items + [c];
    }

    /** `remove(i)`: `splice(i, 1)` on the shared array; an index at or past
        the end removes nothing. */
    method Remove(i: int)
      modifies components
      ensures var k := StartIndex(i, old(|components.items|));
              && (k == old(|components.items|) ==> components.items == old(components.items))
              && (k < old(|components.items|) ==>
                    components.items == old(components.items)[..k] + old(components.items)[k + 1..])
    {
      components.items := RemoveAt(components.items, i);
    }
  }
}
