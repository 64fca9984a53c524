/** The file tree of adap-b05: nodes with a base name and a parent
    directory, directories with a set of children, and a BuggyFile that
    corrupts its own base name whenever the name is read. The tree is kept
    as an arena: every node is a handle (an index), and each field of the
    nodes is a sequence indexed by handle. The root directory is given: its
    full name is a parameter of the tree and its parent is itself. */
module FilesB05 {
  import opened Common

  type Handle = nat

  /** `Node` and `File` behave alike and share the kind `File`. */
  datatype Kind = Directory | File | BuggyFile

  // ---------------------------------------------------------------- ancestry over parent links

  /** Every node reaches the root by following parent links: its depth is
      one more than its parent's, and the root (its own parent) has depth 0. */
  ghost predicate Layered(parents: seq<Handle>, depth: seq<nat>, root: Handle)
  {
    && root < |parents| == |depth|
    && parents[root] == root
    && depth[root] == 0
    && forall x {:trigger parents[x]} :: 0 <= x < |parents| && x != root ==>
         parents[x] < |parents| && depth[x] == depth[parents[x]] + 1
  }

  /** The node itself and every node on its way up to the root. */
  ghost function Ancestors(parents: seq<Handle>, depth: seq<nat>, root: Handle, x: Handle): (r: set<Handle>)
    requires Layered(parents, depth, root) && x < |parents|
    ensures x in r && root in r
    decreases depth[x]
  {
    if x == root then {root} else {x} + Ancestors(parents, depth, root, parents[x])
  }

  /** The nodes below `h`, `h` included. */
  ghost function Subtree(parents: seq<Handle>, depth: seq<nat>, root: Handle, h: Handle): set<Handle>
    requires Layered(parents, depth, root)
  {
    set x: Handle | x < |parents| && h in Ancestors(parents, depth, root, x)
  }

  /** The nodes in the subtrees of all of `heads`. */
  ghost function Below(parents: seq<Handle>, depth: seq<nat>, root: Handle, heads: set<Handle>): set<Handle>
    requires Layered(parents, depth, root)
  {
    set c, x | c in heads && x in Subtree(parents, depth, root, c) :: x
  }

  /** The handles whose parent link points at `h`. */
  ghost function Kids(parents: seq<Handle>, root: Handle, h: Handle): set<Handle>
  {
    set c: Handle | c < |parents| && c != root && parents[c] == h
  }

  /** An ancestor sits no deeper than the node, strictly higher unless it is the node. */
  lemma {:induction false} AncestorDepth(parents: seq<Handle>, depth: seq<nat>, root: Handle, x: Handle, a: Handle)
    requires Layered(parents, depth, root) && x < |parents|
    requires a in Ancestors(parents, depth, root, x)
    ensures a < |parents| && depth[a] <= depth[x]
    ensures a != x ==> depth[a] < depth[x]
    decreases depth[x]
  {
    if x != root && a != x {
      AncestorDepth(parents, depth, root, parents[x], a);
    }
  }

  /** The ancestors of an ancestor are ancestors. */
  lemma {:induction false} AncestorsTransitive(parents: seq<Handle>, depth: seq<nat>, root: Handle, x: Handle, a: Handle)
    requires Layered(parents, depth, root) && x < |parents|
    requires a in Ancestors(parents, depth, root, x)
    ensures a < |parents| && Ancestors(parents, depth, root, a) <= Ancestors(parents, depth, root, x)
    decreases depth[x]
  {
    if x != root && a != x {
      AncestorsTransitive(parents, depth, root, parents[x], a);
    }
  }

  /** A child's subtree lies strictly inside its parent's, so it is smaller. */
  lemma ChildSubtreeSmaller(parents: seq<Handle>, depth: seq<nat>, root: Handle, c: Handle)
    requires Layered(parents, depth, root) && c < |parents| && c != root
    ensures Subtree(parents, depth, root, c) < Subtree(parents, depth, root, parents[c])
    ensures |Subtree(parents, depth, root, c)| < |Subtree(parents, depth, root, parents[c])|
  {
    var h := parents[c];
    var small, big := Subtree(parents, depth, root, c), Subtree(parents, depth, root, h);
    forall x | x in small
      ensures x in big
    {
      AncestorsTransitive(parents, depth, root, x, c);
    }
    if h in small {
      AncestorDepth(parents, depth, root, h, c);
      assert false;
    }
    assert h in big - small;
    assert big == small + (big - small);
  }

  /** The child of `h` through which `x` hangs below `h`. */
  lemma {:induction false} KidOnPath(parents: seq<Handle>, depth: seq<nat>, root: Handle, h: Handle, x: Handle)
    returns (c: Handle)
    requires Layered(parents, depth, root) && x < |parents|
    requires h in Ancestors(parents, depth, root, x) && x != h
    ensures c in Kids(parents, root, h)
    ensures c in Ancestors(parents, depth, root, x)
    decreases depth[x]
  {
    var p := parents[x];
    if p == h {
      c := x;
    } else {
      c := KidOnPath(parents, depth, root, h, p);
    }
  }

  /** A subtree is its head plus the subtrees of the head's children. */
  lemma SubtreeSplits(parents: seq<Handle>, depth: seq<nat>, root: Handle, h: Handle)
    requires Layered(parents, depth, root) && h < |parents|
    ensures Subtree(parents, depth, root, h) == {h} + Below(parents, depth, root, Kids(parents, root, h))
  {
    var kids := Kids(parents, root, h);
    var whole := Subtree(parents, depth, root, h);
    var parts := {h} + Below(parents, depth, root, kids);
    forall x | x in whole
      ensures x in parts
    {
      if x != h {
        var c := KidOnPath(parents, depth, root, h, x);
        assert x in Subtree(parents, depth, root, c);
      }
    }
    forall x | x in parts
      ensures x in whole
    {
      if x != h {
        var c :| c in kids && x in Subtree(parents, depth, root, c);
        AncestorsTransitive(parents, depth, root, x, c);
      }
    }
  }

  /** `k` steps up the parent links (a dangling link stays put). */
  function Walk(parents: seq<Handle>, x: Handle, k: nat): Handle
    decreases k
  {
    if k == 0 || x >= |parents| then x else Walk(parents, parents[x], k - 1)
  }

  /** In a layered tree every node reaches the root in exactly its depth many steps. */
  lemma {:induction false} WalkReachesRoot(parents: seq<Handle>, depth: seq<nat>, root: Handle, x: Handle)
    requires Layered(parents, depth, root) && x < |parents|
    ensures Walk(parents, x, depth[x]) == root
    decreases depth[x]
  {
    if x != root {
      WalkReachesRoot(parents, depth, root, parents[x]);
    }
  }

  /** The depths after hanging the subtree of `h` below `to`. */
  ghost function Relocated(parents: seq<Handle>, depth: seq<nat>, root: Handle, h: Handle, to: Handle): (r: seq<nat>)
    requires Layered(parents, depth, root) && h < |parents| && to < |parents|
    ensures |r| == |depth|
  {
    seq(|depth|, x requires 0 <= x < |depth| =>
      if h in Ancestors(parents, depth, root, x) then
        AncestorDepth(parents, depth, root, x, h);
        depth[x] - depth[h] + depth[to] + 1
      else
        depth[x])
  }

  /** Re-parenting a node below a directory outside its own subtree keeps every node rooted. */
  lemma MoveKeepsLayered(parents: seq<Handle>, depth: seq<nat>, root: Handle, h: Handle, to: Handle)
    requires Layered(parents, depth, root) && h < |parents| && to < |parents|
    requires h !in Ancestors(parents, depth, root, to)
    ensures h != root
    ensures Layered(parents[h := to], Relocated(parents, depth, root, h, to), root)
  {
    var p2, d2 := parents[h := to], Relocated(parents, depth, root, h, to);
    forall x | 0 <= x < |p2| && x != root
      ensures p2[x] < |p2| && d2[x] == d2[p2[x]] + 1
    {
      if x != h {
        assert Ancestors(parents, depth, root, x) == {x} + Ancestors(parents, depth, root, parents[x]);
      }
    }
  }

  // ---------------------------------------------------------------- move as written

  /** `move(to)` exactly as Node.move does it: drop the node from the old
      parent's set, add it to the target's set, record the target as parent.
      Nothing stops `to` from lying inside the moved node's own subtree. */
  function MoveAsWritten(parents: seq<Handle>, children: seq<set<Handle>>, h: Handle, to: Handle)
    : (r: (seq<Handle>, seq<set<Handle>>))
    requires h < |parents| && parents[h] < |children| && to < |children|
    ensures r.0 == parents[h := to] && |r.1| == |children|
    ensures h in r.1[to]
    ensures parents[h] != to ==> h !in r.1[parents[h]]
    ensures forall d :: 0 <= d < |children| && d != to && d != parents[h] ==> r.1[d] == children[d]
  {
    var from := parents[h];
    var detached := children[from := children[from] - {h}];
    (parents[h := to], detached[to := detached[to] + {h}])
  }

  /** Moving a directory into itself, as the source allows, leaves it a
      parent chain that never reaches the root: `getFullName` and every walk
      up from it recurse forever. */
  lemma MoveIntoItselfLosesRoot(k: nat)
    ensures var moved := MoveAsWritten([0, 0], [{1}, {}], 1, 1);
            moved.0[1] == 1 && Walk(moved.0, 1, k) == 1 && Walk(moved.0, 1, k) != 0
  {
    var moved := MoveAsWritten([0, 0], [{1}, {}], 1, 1);
    SelfLoopWalk(moved.0, 1, k);
  }

  /** A node that is its own parent walks to itself. */
  lemma {:induction false} SelfLoopWalk(parents: seq<Handle>, x: Handle, k: nat)
    requires x < |parents| && parents[x] == x
    ensures Walk(parents, x, k) == x
  {
    if k > 0 {
      SelfLoopWalk(parents, x, k - 1);
    }
  }

  // ---------------------------------------------------------------- effective base names

  /** What `getBaseName()` answers for a node: a BuggyFile always answers "". */
  function Effective(kind: Kind, baseName: string): (bn: string)
    ensures kind == BuggyFile ==> bn == ""
    ensures kind != BuggyFile ==> bn == baseName
  {
    if kind == BuggyFile then "" else baseName
  }

  /** `after` differs from `before` only where a BuggyFile blanked its own name. */
  ghost predicate OnlyBuggyBlanked(kinds: seq<Kind>, before: seq<string>, after: seq<string>)
  {
    && |before| == |after| == |kinds|
    && forall x :: 0 <= x < |after| ==> after[x] == before[x] || (kinds[x] == BuggyFile && after[x] == "")
  }

  /** Blanking a BuggyFile's field never changes what `getBaseName()` answers. */
  lemma BlankingKeepsAnswers(kinds: seq<Kind>, before: seq<string>, after: seq<string>, x: Handle)
    requires OnlyBuggyBlanked(kinds, before, after) && x < |kinds|
    ensures Effective(kinds[x], after[x]) == Effective(kinds[x], before[x])
  {
  }

  /** The nodes among `nodes` whose base name, as `getBaseName()` answers it, is `bn`. */
  ghost function Hits(kinds: seq<Kind>, names: seq<string>, nodes: set<Handle>, bn: string): set<Handle>
  {
    set x | x in nodes && x < |kinds| && x < |names| && Effective(kinds[x], names[x]) == bn
  }

  /** No node among `nodes` answers "" for its base name. */
  ghost predicate AllNamed(kinds: seq<Kind>, names: seq<string>, nodes: set<Handle>)
  {
    forall x :: x in nodes && x < |kinds| && x < |names| ==> Effective(kinds[x], names[x]) != ""
  }

  /** Two rounds of blanking are one round of blanking. */
  lemma BlankedTwice(kinds: seq<Kind>, a: seq<string>, b: seq<string>, c: seq<string>)
    requires OnlyBuggyBlanked(kinds, a, b) && OnlyBuggyBlanked(kinds, b, c)
    ensures OnlyBuggyBlanked(kinds, a, c)
  {
  }

  /** Blanking changes neither which nodes match nor which answer "". */
  lemma HitsBlanked(kinds: seq<Kind>, a: seq<string>, b: seq<string>, nodes: set<Handle>, bn: string)
    requires OnlyBuggyBlanked(kinds, a, b)
    ensures Hits(kinds, a, nodes, bn) == Hits(kinds, b, nodes, bn)
    ensures AllNamed(kinds, a, nodes) <==> AllNamed(kinds, b, nodes)
  {
    forall x | x in nodes && x < |kinds|
      ensures Effective(kinds[x], a[x]) == Effective(kinds[x], b[x])
    {
      BlankingKeepsAnswers(kinds, a, b, x);
    }
  }

  /** Matching distributes over union. */
  lemma HitsUnion(kinds: seq<Kind>, names: seq<string>, a: set<Handle>, b: set<Handle>, bn: string)
    ensures Hits(kinds, names, a + b, bn) == Hits(kinds, names, a, bn) + Hits(kinds, names, b, bn)
    ensures AllNamed(kinds, names, a + b) <==> AllNamed(kinds, names, a) && AllNamed(kinds, names, b)
  {
  }

  /** Adding a head adds its subtree. */
  lemma BelowAddOne(parents: seq<Handle>, depth: seq<nat>, root: Handle, heads: set<Handle>, c: Handle)
    requires Layered(parents, depth, root)
    ensures Below(parents, depth, root, heads + {c})
         == Below(parents, depth, root, heads) + Subtree(parents, depth, root, c)
  {
  }

  /** Child sets and parent links describe the same edges. */
  ghost predicate Consistent(parents: seq<Handle>, children: seq<set<Handle>>, root: Handle)
  {
    && |children| == |parents|
    && (forall x {:trigger parents[x]} :: 0 <= x < |parents| && x != root ==>
          parents[x] < |children| && x in children[parents[x]])
    && (forall p, c {:trigger c in children[p]} :: 0 <= p < |children| && c in children[p] ==>
          c < |parents| && c != root && parents[c] == p)
  }

  /** Only directories have children. */
  ghost predicate BareLeaves(kinds: seq<Kind>, children: seq<set<Handle>>)
  {
    && |kinds| == |children|
    && forall x {:trigger kinds[x]} :: 0 <= x < |kinds| && kinds[x] != Directory ==> children[x] == {}
  }

  /** Moving a non-root node below a directory keeps child sets and parent links in step. */
  lemma MoveKeepsConsistent(kinds: seq<Kind>, parents: seq<Handle>, children: seq<set<Handle>>, root: Handle, h: Handle, to: Handle)
    requires Consistent(parents, children, root) && BareLeaves(kinds, children)
    requires h < |parents| && to < |parents| && h != root && kinds[to] == Directory
    ensures parents[h] < |children|
    ensures var moved := MoveAsWritten(parents, children, h, to);
            Consistent(moved.0, moved.1, root) && BareLeaves(kinds, moved.1)
  {
  }

  /** More heads, more nodes below them. */
  lemma BelowGrows(parents: seq<Handle>, depth: seq<nat>, root: Handle, small: set<Handle>, big: set<Handle>)
    requires Layered(parents, depth, root) && small <= big
    ensures Below(parents, depth, root, small) <= Below(parents, depth, root, big)
  {
  }

  /** What the nodes of a subtree answer, split into its head and the
      subtrees of its children; a non-directory has no children. */
  lemma SubtreeAnswers(kinds: seq<Kind>, names: seq<string>, parents: seq<Handle>, depth: seq<nat>,
                       children: seq<set<Handle>>, root: Handle, h: Handle, bn: string)
    requires Layered(parents, depth, root) && Consistent(parents, children, root)
    requires BareLeaves(kinds, children) && |names| == |kinds| && h < |parents|
    ensures kinds[h] != Directory ==> Below(parents, depth, root, children[h]) == {}
    ensures AllNamed(kinds, names, Subtree(parents, depth, root, h))
        <==> Effective(kinds[h], names[h]) != "" && AllNamed(kinds, names, Below(parents, depth, root, children[h]))
    ensures Hits(kinds, names, Subtree(parents, depth, root, h), bn)
         == (if Effective(kinds[h], names[h]) == bn then {h} else {})
            + Hits(kinds, names, Below(parents, depth, root, children[h]), bn)
  {
    SubtreeSplits(parents, depth, root, h);
    assert children[h] == Kids(parents, root, h);
    HitsUnion(kinds, names, {h}, Below(parents, depth, root, children[h]), bn);
  }

  /** Attaching a fresh leaf below a directory keeps the tree rooted and its
      child sets and parent links in step. */
  lemma AddLeafKeepsLinked(kinds: seq<Kind>, parents: seq<Handle>, depth: seq<nat>, children: seq<set<Handle>>,
                           root: Handle, kind: Kind, pn: Handle)
    requires Layered(parents, depth, root) && Consistent(parents, children, root)
    requires BareLeaves(kinds, children) && pn < |kinds| && kinds[pn] == Directory
    ensures var h := |parents|;
            var grown := (children + [{}])[pn := children[pn] + {h}];
            && Layered(parents + [pn], depth + [depth[pn] + 1], root)
            && Consistent(parents + [pn], grown, root)
            && BareLeaves(kinds + [kind], grown)
  {
  }

  /** One step of the child loop: the answers below the finished heads plus
      one more head are those below the finished heads and those of the new
      head's subtree, read before that subtree was searched. */
  lemma AmongStep(kinds: seq<Kind>, a: seq<string>, b: seq<string>, c: seq<string>,
                  parents: seq<Handle>, depth: seq<nat>, root: Handle, done: set<Handle>, x: Handle, bn: string)
    requires Layered(parents, depth, root)
    requires OnlyBuggyBlanked(kinds, a, b) && OnlyBuggyBlanked(kinds, b, c)
    ensures OnlyBuggyBlanked(kinds, a, c)
    ensures Hits(kinds, a, Below(parents, depth, root, done + {x}), bn)
         == Hits(kinds, a, Below(parents, depth, root, done), bn) + Hits(kinds, b, Subtree(parents, depth, root, x), bn)
    ensures AllNamed(kinds, a, Below(parents, depth, root, done + {x}))
        <==> AllNamed(kinds, a, Below(parents, depth, root, done)) && AllNamed(kinds, b, Subtree(parents, depth, root, x))
  {
    BlankedTwice(kinds, a, b, c);
    HitsBlanked(kinds, a, b, Subtree(parents, depth, root, x), bn);
    BelowAddOne(parents, depth, root, done, x);
    HitsUnion(kinds, a, Below(parents, depth, root, done), Subtree(parents, depth, root, x), bn);
  }

  /** A nameless node below some heads is below any superset of them. */
  lemma NotAllNamedBelow(kinds: seq<Kind>, names: seq<string>, parents: seq<Handle>, depth: seq<nat>, root: Handle,
                         small: set<Handle>, big: set<Handle>)
    requires Layered(parents, depth, root) && small <= big
    requires !AllNamed(kinds, names, Below(parents, depth, root, small))
    ensures !AllNamed(kinds, names, Below(parents, depth, root, big))
  {
    BelowGrows(parents, depth, root, small, big);
  }

  // ---------------------------------------------------------------- the tree

  class FileTree {
    var kinds: seq<Kind>
    var baseNames: seq<string>
    var parents: seq<Handle>
    var children: seq<set<Handle>>
    ghost var depth: seq<nat>
    const root: Handle
    const rootFullName: seq<string>

    /** Every node has a base name; see Linked for the rest. */
    ghost predicate Valid()
      reads this
    {
      Linked() && |baseNames| == |parents|
    }

    /** Parent links reach the root, child sets agree with parent links, and
        only directories have children. */
    ghost predicate Linked()
      reads this`kinds, this`parents, this`children, this`depth
    {
      && Layered(parents, depth, root)
      && Consistent(parents, children, root)
      && BareLeaves(kinds, children)
      && kinds[root] == Directory
    }

    /** What `getBaseName()` answers for `h`. */
    function EffectiveBaseName(h: Handle): string
      reads this
      requires h < |kinds| && h < |baseNames|
    {
      Effective(kinds[h], baseNames[h])
    }

    /** The subtree below `h` in the current tree. */
    ghost function SubtreeOf(h: Handle): set<Handle>
      reads this
      requires Valid()
    {
      Subtree(parents, depth, root, h)
    }

    /** The full name: the root's full name, then every base name on the way down to `h`. */
    function FullName(h: Handle): (r: seq<string>)
      reads this
      requires Valid() && h < |parents|
      ensures |r| == |rootFullName| + depth[h]
      ensures r[..|rootFullName|] == rootFullName
      ensures h != root ==> |r| > |rootFullName| && r[|r| - 1] == EffectiveBaseName(h)
      decreases depth[h]
    {
      if h == root then rootFullName
      else
        var prefix := FullName(parents[h]);
        assert (prefix + [EffectiveBaseName(h)])[..|rootFullName|] == prefix[..|rootFullName|];
        prefix + [EffectiveBaseName(h)]
    }

    /** A tree holding only the root directory. */
    constructor (rootBaseName: string, rootFullName: seq<string>)
      ensures Valid()
      ensures kinds == [Directory] && baseNames == [rootBaseName] && parents == [0] && children == [{}]
      ensures root == 0 && this.rootFullName == rootFullName
    {
      root := 0;
      this.rootFullName := rootFullName;
      kinds := [Directory];
      baseNames := [rootBaseName];
      parents := [0];
      children := [{}];
      depth := [0];
    }

    /** Directory `add(cn)`: set insertion, so adding a present child changes nothing. */
    method AddChild(d: Handle, cn: Handle)
      requires d < |children|
      modifies this`children
      ensures children == old(children)[d := old(children[d]) + {cn}]
      ensures cn in old(children[d]) ==> children == old(children)
    {
      if cn in children[d] {
        assert children[d] + {cn} == children[d];
      }
      children := children[d := children[d] + {cn}];
    }

    /** Directory `remove(cn)`: set deletion, a no-op for an absent child. */
    method RemoveChild(d: Handle, cn: Handle)
      requires d < |children|
      modifies this`children
      ensures children == old(children)[d := old(children[d]) - {cn}]
      ensures cn !in old(children[d]) ==> children == old(children)
    {
      if cn !in children[d] {
        assert children[d] - {cn} == children[d];
      }
      children := children[d := children[d] - {cn}];
    }

    /** `new Node(bn, pn)` (and File, BuggyFile, Directory): stores the base
        name unchecked, records the parent and registers in its child set. */
    method NewNode(kind: Kind, bn: string, pn: Handle) returns (h: Handle)
      requires Valid() && pn < |kinds| && kinds[pn] == Directory
      modifies this
      ensures Valid()
      ensures h == old(|parents|)
      ensures kinds == old(kinds) + [kind] && baseNames == old(baseNames) + [bn] && parents == old(parents) + [pn]
      ensures children == (old(children) + [{}])[pn := old(children[pn]) + {h}]
    {
      h := |parents|;
      AddLeafKeepsLinked(kinds, parents, depth, children, root, kind, pn);
      kinds := kinds + [kind];
      baseNames := baseNames + [bn];
      parents := parents + [pn];
      children := children + [{}];
      AddChild(pn, h);
      depth := depth + [depth[pn] + 1];
    }

    /** `getBaseName()` / `doGetBaseName()`: a BuggyFile first overwrites its
        base name with "" and then returns it. */
    method GetBaseName(h: Handle) returns (bn: string)
      requires Valid() && h < |parents|
      modifies this`baseNames
      ensures Valid()
      ensures bn == old(EffectiveBaseName(h))
      ensures baseNames == if kinds[h] == BuggyFile then old(baseNames)[h := ""] else old(baseNames)
    {
      if kinds[h] == BuggyFile {
        baseNames := baseNames[h := ""];
      }
      bn := baseNames[h];
    }

    /** `rename(bn)`: stores the new base name unchecked; no link changes. */
    method Rename(h: Handle, bn: string)
      requires Valid() && h < |parents|
      modifies this`baseNames
      ensures Valid()
      ensures baseNames == old(baseNames)[h := bn]
    {
      baseNames := baseNames[h := bn];
    }

    /** `getParentNode()`: the one directory whose child set holds the node. */
    function ParentNode(h: Handle): (p: Handle)
      reads this
      requires Valid() && h < |parents|
      ensures p < |parents|
      ensures h != root ==> h in children[p] && forall q :: 0 <= q < |children| && h in children[q] ==> q == p
    {
      parents[h]
    }

    /** `getFullName()`: the parent's full name with the own base name appended. */
    method GetFullName(h: Handle) returns (n: seq<string>)
      requires Valid() && h < |parents|
      modifies this`baseNames
      ensures Valid()
      ensures n == old(FullName(h))
      ensures OnlyBuggyBlanked(kinds, old(baseNames), baseNames)
      decreases depth[h]
    {
      if h == root {
        return rootFullName;
      }
      var prefix := GetFullName(parents[h]);
      BlankingKeepsAnswers(kinds, old(baseNames), baseNames, h);
      var bn := GetBaseName(h);
      n := prefix + [bn];
    }

    /** Node `findNodes(bn)` for the node alone: `{h}` on a match, and a
        ServiceFailure carrying the InvalidState when the base name is empty. */
    method NodeFindNodes(h: Handle, bn: string) returns (r: Result<set<Handle>>)
      requires Valid() && h < |parents|
      modifies this`baseNames
      ensures Valid()
      ensures baseNames == if kinds[h] == BuggyFile then old(baseNames)[h := ""] else old(baseNames)
      ensures r.Ok? <==> old(EffectiveBaseName(h)) != ""
      ensures r.Ok? ==> r.value == if old(EffectiveBaseName(h)) == bn then {h} else {}
      ensures r.Err? ==> r.error == WrapAsServiceFailure(Raise(InvalidState))
    {
      var result: set<Handle> := {};
      var own := GetBaseName(h);
      if own == bn {
        result := {h};
      }
      var current := GetBaseName(h);
      var sound := Check(current != "", InvalidState);
      if sound.Fail? {
        return Err(WrapAsServiceFailure(sound.error));
      }
      return Ok(result);
    }

    /** `findNodes(bn)`: Node's own check, then, for a directory, the
        children's results: every node of the subtree whose base name is
        `bn`, or the first ServiceFailure met. */
    method FindNodes(h: Handle, bn: string) returns (r: Result<set<Handle>>)
      requires Valid() && h < |parents|
      modifies this`baseNames
      ensures Valid()
      ensures OnlyBuggyBlanked(kinds, old(baseNames), baseNames)
      ensures r.Ok? <==> AllNamed(kinds, old(baseNames), SubtreeOf(h))
      ensures r.Ok? ==> r.value == Hits(kinds, old(baseNames), SubtreeOf(h), bn)
      ensures r.Err? ==> r.error == WrapAsServiceFailure(Raise(InvalidState))
      decreases |SubtreeOf(h)|, 1
    {
      ghost var names0 := baseNames;
      SubtreeAnswers(kinds, names0, parents, depth, children, root, h, bn);
      var own := NodeFindNodes(h, bn);
      if own.Err? || kinds[h] != Directory {
        return own;
      }
      ghost var names1 := baseNames;
      var rest := FindAmong(h, children[h], bn);
      BlankedTwice(kinds, names0, names1, baseNames);
      HitsBlanked(kinds, names0, names1, Below(parents, depth, root, children[h]), bn);
      if rest.Err? {
        return rest;
      }
      return Ok(own.value + rest.value);
    }

    /** The loop of Directory `findNodes(bn)` over the child set: the union
        of the children's results, or the first ServiceFailure met. */
    method FindAmong(h: Handle, heads: set<Handle>, bn: string) returns (r: Result<set<Handle>>)
      requires Valid() && h < |parents| && heads <= children[h]
      modifies this`baseNames
      ensures Valid()
      ensures OnlyBuggyBlanked(kinds, old(baseNames), baseNames)
      ensures r.Ok? <==> AllNamed(kinds, old(baseNames), Below(parents, depth, root, heads))
      ensures r.Ok? ==> r.value == Hits(kinds, old(baseNames), Below(parents, depth, root, heads), bn)
      ensures r.Err? ==> r.error == WrapAsServiceFailure(Raise(InvalidState))
      decreases |SubtreeOf(h)|, 0
    {
      ghost var names0 := baseNames;
      var found: set<Handle> := {};
      var remaining := heads;
      ghost var done: set<Handle> := {};
      while remaining != {}
        invariant Valid()
        invariant remaining + done == heads && remaining !! done
        invariant OnlyBuggyBlanked(kinds, names0, baseNames)
        invariant AllNamed(kinds, names0, Below(parents, depth, root, done))
        invariant found == Hits(kinds, names0, Below(parents, depth, root, done), bn)
        decreases remaining
      {
        var c :| c in remaining;
        ChildSubtreeSmaller(parents, depth, root, c);
        ghost var names1 := baseNames;
        var sub := FindNodes(c, bn);
        AmongStep(kinds, names0, names1, baseNames, parents, depth, root, done, c, bn);
        if sub.Err? {
          NotAllNamedBelow(kinds, names0, parents, depth, root, done + {c}, heads);
          return sub;
        }
        found := found + sub.value;
        remaining := remaining - {c};
        done := done + {c};
      }
      return Ok(found);
    }

    /** `move(to)`, refusing a target inside the moved node's own subtree
        (which the source lets through, see MoveIntoItselfLosesRoot). */
    method Move(h: Handle, to: Handle) returns (r: Outcome)
      requires Valid() && h < |parents| && to < |kinds| && kinds[to] == Directory
      modifies this`parents, this`children, this`depth
      ensures Valid()
      ensures r.Fail? <==> old(to in SubtreeOf(h))
      ensures r.Fail? ==> r.error == Raise(IllegalArgument) && parents == old(parents) && children == old(children)
      ensures r.Pass? ==> (parents, children) == MoveAsWritten(old(parents), old(children), h, to)
    {
      var cur: Handle := to;
      while cur != root && cur != h
        invariant cur < |parents|
        invariant h in Ancestors(parents, depth, root, to) <==> h in Ancestors(parents, depth, root, cur)
        decreases depth[cur]
      {
        cur := parents[cur];
      }
      if cur == h {
        return Fail(Raise(IllegalArgument));
      }
      MoveKeepsLayered(parents, depth, root, h, to);
      MoveKeepsConsistent(kinds, parents, children, root, h, to);
      depth := Relocated(parents, depth, root, h, to);
      var from := parents[h];
      RemoveChild(from, h);
      AddChild(to, h);
      parents := parents[h := to];
      r := Pass;
    }
  }
}
