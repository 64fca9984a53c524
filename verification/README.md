# adap-names in Dafny

This project models the core of the TypeScript repository `adap-names`. Its
main abstraction is a **Name**: an ordered sequence of string components with
a one-character delimiter. The repository builds it several times over. Next
to it is a small **file tree** of nodes and directories.

The modules follow the repository's iterations:

- `Common` (`common.dfy`) holds the shared vocabulary:
  - the default delimiter `'.'` and the escape character `'\\'`;
  - `Option`, and `Result`/`Outcome` for calls that may throw;
  - the exception kinds, each exception with an optional trigger;
  - the `X.assert(cond)` check, and the wrapping of a caught exception into
    a ServiceFailure;
  - `StringList`, a JavaScript `string[]` that several objects may share.
- `Text` (`text.dfy`) models the JavaScript built-ins the names rely on and
  proves their laws:
  - `split` on one character, `join`, `indexOf`, and `replace` with a string
    pattern (first occurrence only);
  - index normalisation in `slice`/`splice`, and array stores;
  - laws such as `join(split(s, d), d) == s`, the split count being the
    delimiter count plus one, and what a split after an edit and a join
    gives back.
- `NamesB06` (`names_b06.dfy`) is the final immutable Name. Its two
  representations, `StringArrayName` and `StringName`, are variants of one
  datatype. The AbstractName loops (`asString`, `isEqual`, `getHashCode`,
  `concat`) are methods proved against specification functions.
- `NamesB05` (`names_b05.dfy`) is the mutable `StringName` class with its
  backup-and-recover rollback, plus the b05 AbstractName operations on it.
- `NamesB03` (`names_b03.dfy`) is the mutable `StringName` class with its
  cached `length` field, plus the b03 AbstractName operations.
- `NamesB02` (`names_b02.dfy`) has two classes:
  - `StringArrayName`, which shares the caller's array;
  - `StringName`, where the empty string means zero components.
- `NamesB01` (`names_b01.dfy`) is the `Name` class over the caller's own
  array.
- `FilesB05` (`files_b05.dfy`) is the b05 file tree as a class `FileTree`.
  - Nodes are handles into per-node sequences: kind, base name, parent and
    child set.
  - A ghost depth shows that every parent chain reaches the root. This gives
    `getFullName` and `findNodes` their termination argument. It also keeps
    `move` from creating a cycle (see Findings).

## Model

| member | source | states |
|---|---|---|
| Common.Check | test/adap-b04/common/Exceptions.test.ts:11-18 | `X.assert(cond)` passes exactly when `cond` holds and otherwise throws an `X` with no trigger |
| Common.WrapAsServiceFailure | src/adap-b05/files/Node.ts:71-74 | a caught exception becomes a ServiceFailure whose trigger is the caught exception's trigger, or the caught exception itself when it has none |
| Text.SplitLength | src/adap-b06/names/StringName.ts:22-24 | the component count of a split is one more than the occurrences of the delimiter |
| Text.JoinSplit | src/adap-b06/names/StringName.ts:161-163 | joining the split of `s` with the same one-character delimiter gives `s` back |
| Text.SplitJoin | src/adap-b06/names/StringName.ts:55-60 | splitting the join of at least one component, none holding the delimiter, gives the components back; this is what the new StringName's count check relies on after an insert (and after a remove, StringName.ts:83-89) |
| Text.SplitJoinReplace | src/adap-b05/names/StringName.ts:23-36 | after a component is replaced and the list is joined, a split yields the old prefix, the pieces of the new component, and the old suffix |
| Text.SplitJoinInsert | src/adap-b05/names/StringName.ts:69-81 | after a component is inserted and the list is joined, a split yields the old prefix, the pieces of the new component, and the old suffix |
| Text.StoreResplit | src/adap-b05/names/StringName.ts:121-127 | after `components[i] = c` and a join, component `i` reads back as `c` exactly when `c` holds no delimiter; then the components are the stored ones |
| Text.InsertResplit | src/adap-b05/names/StringName.ts:131-137 | after a splice of `c` at `i` and a join, component `i` reads back as `c` exactly when `c` holds no delimiter |
| Text.SplitLastWhole | src/adap-b05/names/StringName.ts:139-146 | the last piece of `c` is `c` itself exactly when `c` holds no delimiter, so the append check fails exactly then |
| Text.RemoveResplit | src/adap-b05/names/StringName.ts:95-106 | dropping component `i` and joining leaves the other components, or one empty component when none is left |
| Text.ReplaceFirst | src/adap-b02/names/StringArrayName.ts:48-50 | `replace` with a string pattern changes only the first occurrence, and nothing when there is none |
| Text.StartIndex | src/adap-b02/names/StringArrayName.ts:82-89 | the index `slice`/`splice` make of `i`: negative values count from the end and are clamped at 0, values past the end are clamped to the length |
| Text.InsertAt | src/adap-b01/names/Name.ts:38-40 | `slice(0, i).concat([c], slice(i))` has one more element: `c` at the normalised index, with the prefix and suffix unchanged |
| Text.RemoveAt | src/adap-b01/names/Name.ts:48-50 | `splice(i, 1)` drops the element at the normalised index, and nothing when that index is the length |
| NamesB06.Components | src/adap-b06/names/StringName.ts:161-163 | a StringName's components are the split of its string: at least one, none holding the delimiter, and joining them gives the string back (StringArrayName.ts:104-106 returns its copy) |
| NamesB06.NoComponents | src/adap-b06/names/StringName.ts:22-24 | a StringName has one more component than its string has delimiters (StringArrayName.ts:20-22 counts its array) |
| NamesB06.CheckedDelimiter | src/adap-b06/names/AbstractName.ts:122-127 | construction succeeds exactly when the delimiter is omitted (default `'.'`) or is one character other than the escape character; otherwise IllegalArgument |
| NamesB06.NewStringArrayName | src/adap-b06/names/StringArrayName.ts:14-18 | a StringArrayName holds a copy equal to the source components, or the delimiter check fails |
| NamesB06.NewStringName | src/adap-b06/names/StringName.ts:16-20 | a StringName stores the string and has one more component than the string has delimiters |
| NamesB06.GetComponent | src/adap-b06/names/StringName.ts:26-30 | component `i` for `0 <= i < count`, else a plain Error (the same in StringArrayName.ts:24-28) |
| NamesB06.IsEmpty | src/adap-b06/names/Name.ts:47-50 | true exactly when there are no components, which never holds for a StringName |
| NamesB06.AssertIndexInBound | src/adap-b06/names/AbstractName.ts:133-138 | passes exactly for `0 <= i <= count`, else IllegalArgument |
| NamesB06.Clone | src/adap-b06/names/AbstractName.ts:62-64 | the clone has the same representation, delimiter and components |
| NamesB06.SetComponent | src/adap-b06/names/StringName.ts:32-48 | a new name whose component `i` is `c` and whose other components and delimiter are unchanged; a plain Error out of range; MethodFailed when a StringName would split `c` apart |
| NamesB06.Insert | src/adap-b06/names/StringArrayName.ts:49-66 | a new name: prefix, then `c`, then suffix, for `0 <= i <= count`; the error cases as for SetComponent |
| NamesB06.Append | src/adap-b06/names/StringArrayName.ts:68-84 | a new name with `c` last; MethodFailed when a StringName would split `c` apart |
| NamesB06.Remove | src/adap-b06/names/StringName.ts:72-93 | a new name without component `i`; a plain Error out of range; MethodFailed when a StringName would lose its only component |
| NamesB06.AsString | src/adap-b06/names/AbstractName.ts:94-104 | the components joined by the separator with no trailing one; "" for no components |
| NamesB06.AsDataString | src/adap-b06/names/AbstractName.ts:106-108 | the rendering with escape character plus delimiter as separator; components are not escaped |
| NamesB06.StringNameRendersItself | src/adap-b06/names/StringName.ts:161-163 | a StringName rendered with its own delimiter is its stored string |
| NamesB06.AbstractIsEqual | src/adap-b06/names/AbstractName.ts:66-83 | true exactly for another name with the same delimiter and the same components |
| NamesB06.StringNameIsEqual | src/adap-b06/names/StringName.ts:99-121 | the StringName override answers the same as the AbstractName comparison |
| NamesB06.IsEqual | src/adap-b06/names/Name.ts:13 | value equality: same delimiter and same components, whichever representation |
| NamesB06.AbstractHashCode | src/adap-b06/names/AbstractName.ts:85-92 | the loop computes the hash function of delimiter and components (17, then 31·h + code per step) |
| NamesB06.StringNameHashCode | src/adap-b06/names/StringName.ts:123-133 | the StringName `reduce` hash equals the AbstractName hash of the same value |
| NamesB06.EqualNamesHashEqual | src/adap-b06/names/Name.ts:14 | equal names have equal hash codes, across representations |
| NamesB06.Concat | src/adap-b06/names/AbstractName.ts:49-56 | the receiver's components followed by the other's, in order; IllegalArgument for a missing other; MethodFailed when a StringName receiver would split one apart |
| NamesB06.AppendExtends | src/adap-b06/names/AbstractName.ts:52-54 | one step of the concat loop: the append succeeds exactly when the receiver can store the component, and then the result holds one more of the other's components |
| NamesB06.InsertThenRemove | src/adap-b06/names/StringArrayName.ts:86-102 | `insert(i, c)` followed by `remove(i)` restores the original name |
| NamesB06.RepresentationsAgree | src/adap-b06/names/StringName.ts:123-133 | a StringArrayName and the StringName spelling the same clean components are the same value with the same hash |
| NamesB06.OperationsKeepValid | src/adap-b06/names/AbstractName.ts:140-146 | every successful operation keeps the class invariant that the delimiter is not the escape character |
| NamesB05.DelimiterFor | src/adap-b05/names/AbstractName.ts:119-122 | the default delimiter when none is given, the given one when it is one character other than the escape character, else MethodFailed |
| NamesB05.Create | src/adap-b05/names/StringName.ts:13-21 | a new StringName stores the string unchanged with the checked delimiter, or MethodFailed |
| NamesB05.StringName.NoComponents | src/adap-b05/names/StringName.ts:50-54 | the split length: the delimiter count plus one, never 0 |
| NamesB05.StringName.IsEmpty | src/adap-b05/names/AbstractName.ts:77-81 | never true for a string name |
| NamesB05.StringName.IndexInBound | src/adap-b05/names/AbstractName.ts:151-155 | accepts exactly `0 <= i <= count`, the count included, else IllegalArgument |
| NamesB05.StringName.GetComponent | src/adap-b05/names/StringName.ts:56-63 | component `i` below the count, `undefined` at the count, IllegalArgument otherwise |
| NamesB05.StringName.SetComponent | src/adap-b05/names/StringName.ts:23-36 | replaces component `i` (appends at the count); IllegalArgument out of bound; MethodFailed with the old name restored when `c` holds the delimiter |
| NamesB05.StringName.Insert | src/adap-b05/names/StringName.ts:69-81 | `c` at `i` with the rest shifted; the error cases as for SetComponent |
| NamesB05.StringName.Append | src/adap-b05/names/StringName.ts:83-93 | `c` last; MethodFailed with the old name restored when `c` holds the delimiter |
| NamesB05.StringName.Remove | src/adap-b05/names/StringName.ts:95-106 | drops component `i` (nothing at the count); MethodFailed with the old name restored exactly when the dropped value still occurs among the remaining components |
| NamesB05.StringName.AsString | src/adap-b05/names/AbstractName.ts:22-32 | every component followed by the separator, the last one included |
| NamesB05.StringName.AsDataString | src/adap-b05/names/AbstractName.ts:40-44 | the trailing rendering with escape character plus delimiter |
| NamesB05.OwnRendering | src/adap-b05/names/AbstractName.ts:22-32 | rendered with its own delimiter, a string name is its stored string plus one delimiter |
| NamesB05.StringName.IsEqual | src/adap-b05/names/AbstractName.ts:46-58 | true exactly when the component sequences agree; the delimiters are not compared |
| NamesB05.StringName.GetHashCode | src/adap-b05/names/StringName.ts:108-119 | the loop computes `22·h + code` over the stored string |
| NamesB05.SameComponentsSameHash | src/adap-b05/names/StringName.ts:108-119 | names with the same delimiter and components store the same string, so their hashes agree |
| NamesB05.EqualNamesHashApart | src/adap-b05/names/AbstractName.ts:46-58 | "a.b" under `'.'` and "a#b" under `'#'` are equal to `isEqual` but hash apart |
| NamesB05.StringName.IsSameName | src/adap-b05/names/AbstractName.ts:46-58 | equality over delimiter and components, under which equal names hash alike |
| NamesB05.StringName.Concat | src/adap-b05/names/AbstractName.ts:99-107 | InvalidState when the other renders as ""; otherwise the other's components are appended in order up to the first holding this delimiter, whose append fails with MethodFailed |
| NamesB05.FirstContaining | src/adap-b05/names/AbstractName.ts:102-105 | the first component holding the delimiter: every earlier one is clean |
| NamesB03.StringName.constructor | src/adap-b03/names/StringName.ts:9-13 | the delimiter argument is ignored, so the delimiter is the default; `length` is the string length |
| NamesB03.StringName.NoComponents | src/adap-b03/names/StringName.ts:15-17 | the split length, the delimiter count plus one |
| NamesB03.StringName.IsEmpty | src/adap-b03/names/AbstractName.ts:56-58 | never true for a string name |
| NamesB03.StringName.GetComponent | src/adap-b03/names/StringName.ts:19-21 | the split element, `undefined` outside the components |
| NamesB03.StringName.SetComponent | src/adap-b03/names/StringName.ts:22-32 | an Error only above the count; component `i` is replaced by the pieces of `c`; at the count they are appended; a negative index changes nothing; `length` stays in step |
| NamesB03.StringName.Insert | src/adap-b03/names/StringName.ts:34-44 | an Error only above the count; the pieces of `c` go in at the normalised index |
| NamesB03.StringName.Append | src/adap-b03/names/StringName.ts:45-48 | the stored string gains the delimiter and `c`, so the components gain the pieces of `c` |
| NamesB03.StringName.Remove | src/adap-b03/names/StringName.ts:49-59 | an Error only above the count; `remove(count)` changes nothing; otherwise the component at the normalised index is dropped |
| NamesB03.StringName.AsString | src/adap-b03/names/AbstractName.ts:14-21 | every component followed by the separator, the last one included |
| NamesB03.StringName.AsDataString | src/adap-b03/names/AbstractName.ts:27-29 | the trailing rendering with escape character plus delimiter |
| NamesB03.StringName.IsEqual | src/adap-b03/names/AbstractName.ts:31-39 | true exactly when the component sequences agree |
| NamesB03.ToInt32 | src/adap-b03/names/AbstractName.ts:46-47 | `x | 0` is the value congruent to `x` modulo 2^32 in the signed 32-bit range |
| NamesB03.RollingHash | src/adap-b03/names/AbstractName.ts:41-50 | the hash of a string is always a signed 32-bit value: from 0, each character takes `31·h + code` back into that range |
| NamesB03.StringName.GetHashCode | src/adap-b03/names/AbstractName.ts:41-50 | the loop computes the 32-bit rolling hash of the data string |
| NamesB03.StringName.Concat | src/adap-b03/names/AbstractName.ts:73-77 | the other's components are appended in order, each split at this delimiter |
| NamesB03.ConcatClean | src/adap-b03/names/AbstractName.ts:73-77 | when no component of the other holds the delimiter, exactly those components are appended |
| NamesB02.DelimiterOr | src/adap-b02/names/StringArrayName.ts:9-14 | the given delimiter, else the default |
| NamesB02.EscapeFirst | src/adap-b02/names/StringName.ts:47-49 | unchanged without a delimiter; otherwise the escape character goes in front of the first delimiter only, with everything before it (free of delimiters) and after it unchanged |
| NamesB02.EscapeFirstOnly | src/adap-b02/names/StringArrayName.ts:48-50 | "a.b.c" becomes "a\\.b.c": later delimiters stay unescaped |
| NamesB02.StringArrayName.constructor | src/adap-b02/names/StringArrayName.ts:9-14 | the name keeps the caller's array itself |
| NamesB02.StringArrayName.SetAllComponents | src/adap-b02/names/StringArrayName.ts:36-38 | the name now shares the given array; the delimiter is unchanged |
| NamesB02.StringArrayName.GetComponents | src/adap-b02/names/StringArrayName.ts:32-34 | returns the shared array itself |
| NamesB02.StringArrayName.NoComponents | src/adap-b02/names/StringArrayName.ts:60-62 | the array length |
| NamesB02.StringArrayName.IsEmpty | src/adap-b02/names/StringArrayName.ts:52-54 | true exactly for zero components |
| NamesB02.StringArrayName.AsString | src/adap-b02/names/StringArrayName.ts:44-46 | the components joined with no trailing separator; with the own delimiter its split is the components split again |
| NamesB02.StringArrayName.AsDataString | src/adap-b02/names/StringArrayName.ts:48-50 | the own-delimiter rendering, unchanged without a delimiter; otherwise only its first delimiter gains the escape character and the rest is kept |
| NamesB02.StringArrayName.GetComponent | src/adap-b02/names/StringArrayName.ts:64-71 | an Error only above the count; `undefined` where there is no element |
| NamesB02.StringArrayName.SetComponent | src/adap-b02/names/StringArrayName.ts:73-80 | an Error only above the count; otherwise the shared array is written at `i`, appending at the count |
| NamesB02.StringArrayName.Insert | src/adap-b02/names/StringArrayName.ts:82-89 | an Error only above the count; otherwise a new array with `c` at the normalised index |
| NamesB02.StringArrayName.Append | src/adap-b02/names/StringArrayName.ts:91-95 | `c` is pushed onto the shared array |
| NamesB02.StringArrayName.Remove | src/adap-b02/names/StringArrayName.ts:97-106 | an Error only above the count; `remove(count)` changes nothing; otherwise the element at the normalised index is dropped |
| NamesB02.StringArrayName.Concat | src/adap-b02/names/StringArrayName.ts:108-112 | the other is rendered with "." and split at "." again; an other without components adds one empty component |
| NamesB02.StringName.constructor | src/adap-b02/names/StringName.ts:10-16 | the name stores the given string; the delimiter is the given one, else the default |
| NamesB02.StringName.AllComponents | src/adap-b02/names/StringName.ts:68-70 | the split of the stored string |
| NamesB02.StringName.IsEmpty | src/adap-b02/names/StringName.ts:51-53 | true exactly for the empty string |
| NamesB02.StringName.NoComponents | src/adap-b02/names/StringName.ts:59-66 | 0 for the empty string, else the delimiter count plus one |
| NamesB02.StringName.GetComponent | src/adap-b02/names/StringName.ts:72-79 | an Error on the empty string, else the split element or `undefined` |
| NamesB02.StringName.AsString | src/adap-b02/names/StringName.ts:42-45 | with the own delimiter, the stored string itself |
| NamesB02.StringName.AsDataString | src/adap-b02/names/StringName.ts:47-49 | the stored string, unchanged without a delimiter; otherwise only its first delimiter gains the escape character and the rest is kept |
| NamesB02.StringName.SetComponent | src/adap-b02/names/StringName.ts:81-90 | an Error only above the split count; component `n` is replaced by the pieces of `c`; at the count they are appended |
| NamesB02.StringName.Insert | src/adap-b02/names/StringName.ts:92-101 | an Error only above the split count; the pieces of `c` go in at the normalised index |
| NamesB02.StringName.Append | src/adap-b02/names/StringName.ts:103-105 | the delimiter and `c` are always added, so an empty name gains a leading empty component |
| NamesB02.StringName.Remove | src/adap-b02/names/StringName.ts:107-111 | no bound check: from the count on nothing changes, else the component at the normalised index is dropped |
| NamesB02.StringName.Concat | src/adap-b02/names/StringName.ts:113-116 | the stored string gains the delimiter and the other's own rendering |
| NamesB02.ConcatSameDelimiter | src/adap-b02/names/StringName.ts:113-116 | with a shared delimiter and clean components, exactly the other's components are appended |
| NamesB01.Name.constructor | src/adap-b01/names/Name.ts:10-15 | the name keeps the caller's array; the delimiter is the given one, else "." |
| NamesB01.Name.AsNameString | src/adap-b01/names/Name.ts:18-20 | the components joined by the separator; for clean components and a one-character separator, a split gives them back |
| NamesB01.Name.GetComponent | src/adap-b01/names/Name.ts:23-25 | the array element, `undefined` where there is none |
| NamesB01.Name.NoComponents | src/adap-b01/names/Name.ts:33-35 | the array length |
| NamesB01.StoreSparse | src/adap-b01/names/Name.ts:28-30 | `components[i] = c` changes only index `i`; a negative index changes nothing |
| NamesB01.Name.SetComponent | src/adap-b01/names/Name.ts:28-30 | writes through to the shared array |
| NamesB01.Name.Insert | src/adap-b01/names/Name.ts:38-40 | a new array: prefix, then `c`, then suffix |
| NamesB01.Name.Append | src/adap-b01/names/Name.ts:43-45 | `c` is pushed onto the shared array |
| NamesB01.Name.Remove | src/adap-b01/names/Name.ts:48-50 | the element at the normalised index is dropped, nothing from the end on |
| NamesB01.InsertThenRemove | src/adap-b01/names/Name.ts:38-50 | inserting at an in-range index and removing there restores the components |
| NamesB01.InsertAtEndIsAppend | src/adap-b01/names/Name.ts:38-45 | inserting at the count is appending |
| FilesB05.FileTree.NewNode | src/adap-b05/files/Node.ts:15-25 | a new node records its base name and parent and is added to that parent's child set; the tree stays linked |
| FilesB05.AddLeafKeepsLinked | src/adap-b05/files/Node.ts:22-25 | registering a fresh leaf below a directory keeps parent links, child sets and rootedness in step |
| FilesB05.FileTree.AddChild | src/adap-b05/files/Directory.ts:11-13 | set insertion; adding a present child changes nothing |
| FilesB05.FileTree.RemoveChild | src/adap-b05/files/Directory.ts:15-17 | set deletion; removing an absent child changes nothing |
| FilesB05.Effective | src/adap-b05/files/BuggyFile.ts:16-19 | a BuggyFile answers "" for its base name, any other node its field |
| FilesB05.FileTree.GetBaseName | src/adap-b05/files/BuggyFile.ts:16-19 | a BuggyFile blanks its field and answers ""; other nodes answer the field (Node.ts:39-45) and change nothing |
| FilesB05.BlankingKeepsAnswers | src/adap-b05/files/BuggyFile.ts:16-19 | blanking BuggyFile fields never changes what any node answers |
| FilesB05.FileTree.Rename | src/adap-b05/files/Node.ts:47-53 | stores the new base name unchecked; links are unchanged |
| FilesB05.FileTree.ParentNode | src/adap-b05/files/Node.ts:55-57 | the recorded parent, which is the one directory whose child set holds the node |
| FilesB05.FileTree.GetFullName | src/adap-b05/files/Node.ts:33-37 | the parent's full name with the own base name appended |
| FilesB05.FileTree.FullName | src/adap-b05/files/Node.ts:33-37 | the full name starts with the root's full name, has one more component per level below the root, and ends with the node's own base name |
| FilesB05.WalkReachesRoot | src/adap-b05/files/Node.ts:33-37 | following parents from any node reaches the root, so the recursion ends |
| FilesB05.FileTree.NodeFindNodes | src/adap-b05/files/Node.ts:63-87 | `{this}` on a match, else {}; an empty base name throws ServiceFailure with the InvalidState as trigger |
| FilesB05.FileTree.FindNodes | src/adap-b05/files/Directory.ts:19-30 | every node of the subtree whose base name is `bn`; a ServiceFailure exactly when some node in it answers "" |
| FilesB05.FileTree.FindAmong | src/adap-b05/files/Directory.ts:22-26 | the union of the children's results, or the first child's ServiceFailure passed on unchanged |
| FilesB05.SubtreeSplits | src/adap-b05/files/Directory.ts:19-30 | a subtree is its head plus the subtrees of the head's children |
| FilesB05.SubtreeAnswers | src/adap-b05/files/Directory.ts:19-30 | the matches of a subtree are the head's own match plus its children's; a non-directory has no children |
| FilesB05.ChildSubtreeSmaller | src/adap-b05/files/Directory.ts:22-26 | a child's subtree is strictly smaller than its parent's, so the recursion ends |
| FilesB05.MoveAsWritten | src/adap-b05/files/Node.ts:27-31 | the node's parent becomes `to`; it is in `to`'s set and absent from the old parent's unless that is `to`; other sets are unchanged |
| FilesB05.MoveIntoItselfLosesRoot | src/adap-b05/files/Node.ts:27-31 | moving a directory into itself leaves a node whose parent chain never reaches the root |
| FilesB05.FileTree.Move | src/adap-b05/files/Node.ts:27-31 | fails with IllegalArgument exactly when `to` lies in the node's own subtree; otherwise performs the move as written and keeps the tree rooted and linked |
| FilesB05.MoveKeepsConsistent | src/adap-b05/files/Node.ts:27-31 | moving a non-root node below a directory keeps child sets and parent links in step |
| FilesB05.MoveKeepsLayered | src/adap-b05/files/Node.ts:27-31 | moving a node below a directory outside its subtree keeps every parent chain ending at the root |

## Left out

- Console output (`console.log` in src/adap-b05/names/AbstractName.ts:110) is I/O and not modelled.
- `toString` is a thin alias of `asString` and is not modelled.
- `clone` is not modelled in b03 and b05, where it is an object spread that drops the prototype. In b06 it delegates to a `doClone` that neither shown class defines; NamesB06.Clone stands for "a name with the same delimiter and components". NamesB06.Concat starts from that stand-in; as written, b06 `concat` (src/adap-b06/names/AbstractName.ts:51) reaches the undefined `doClone` and fails.
- Some iterations are not part of this model because no working instance exists:
  - b04 names: the null check rejects every delimiter, so the constructor always throws.
  - b05 StringArrayName: it calls helpers its AbstractName does not define.
  - b03 StringArrayName: its constructor reads an undefined identifier.
- Some collaborators are not shown and are not part of this model:
  - the exception classes, modelled as a kind with an optional trigger;
  - `File`;
  - the root directory, whose full name is a parameter of the tree;
  - `Printable`, whose two characters are taken from src/adap-b01/names/Name.ts:3-4.
- Node calls `addChildNode`/`removeChildNode`, but Directory defines `add`/`remove`. FileTree.AddChild and FileTree.RemoveChild model both as the same set insertion and deletion.
- FilesB05.FileTree.GetFullName: the full name is a sequence of components, and the base name is always added as exactly one component. The source appends the base name to the Name object the parent returns, changing that object in place. With a b05 StringName, a base name holding the delimiter would make that `append` fail with MethodFailed. Which Name class is used is chosen by the root directory, which is not part of this model.
- Directory `findNodes` visits children in set insertion order; the model picks them in any order. Every failure is the same ServiceFailure, so the outcome is the same.
- Checks that can never fire are not modelled: the b05 `assert` null checks (their condition `value !== null || null !== undefined` always holds), and null or `undefined` arguments in general.
- Indices are integers; fractional, NaN or non-numeric indices are not modelled.
- Characters are Unicode scalar values. A character outside the Basic Multilingual Plane is two UTF-16 code units to `charCodeAt` and to `length`, but one character here.
- `concat` takes a snapshot of the other name (`NameView`). Concatenating a b03 or b05 name with itself re-reads a growing count and never ends; that case is not modelled.
- NamesB06.AbstractHashCode: computes with unbounded integers; the source's doubles lose precision past 2^53.
- NamesB06.StringNameHashCode: computes with unbounded integers; the source's doubles lose precision past 2^53.
- NamesB05.StringName.GetHashCode: computes with unbounded integers; the source's doubles lose precision past 2^53.
- The b05 AbstractName `getHashCode` (the 32-bit rolling hash) is overridden by StringName, the only b05 name modelled. The same formula is modelled as NamesB03.RollingHash.
- NamesB02.StringArrayName.constructor: takes a one-character delimiter, because the model's split and first-occurrence replace work on one character; b02 accepts any string.
- NamesB02.StringName.constructor: takes a one-character delimiter for the same reason.
- NamesB01.StoreSparse: an index past the end leaves holes that read back as "" here, while JavaScript reads them back as `undefined` (`join` renders both as "").
- Accessors that only return a field (`getDelimiterCharacter`, `getDelimiter`, `getName`, `setName`, `doGet…`/`doSet…`) are read or written directly.

## Findings

| source | as written | input that shows it | evidently intended | confidence | as-written member | corrected member |
|---|---|---|---|---|---|---|
| src/adap-b05/files/Node.ts:27-31 | `move(to)` does not check whether `to` lies in the moved node's own subtree | a directory moved into itself: its parent becomes itself, and its full name recurses forever | refuse a target inside the node's own subtree so that every node keeps a path to the root | medium, not executed | FilesB05.MoveIntoItselfLosesRoot | FilesB05.FileTree.Move |
| src/adap-b05/names/AbstractName.ts:46-58 | `isEqual` ignores the delimiter while StringName `getHashCode` (src/adap-b05/names/StringName.ts:108-119) reads the stored string, delimiters included | "a.b" with `'.'` and "a#b" with `'#'`: equal, with hashes 48058 and 47816 | equal names hash alike; b06 compares the delimiter in `isEqual` | medium, not executed | NamesB05.EqualNamesHashApart | NamesB05.StringName.IsSameName |
