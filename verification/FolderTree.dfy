/**
 * Moving folders (apps/web/src/uiState.ts, `isFolderDescendant` and `canDropWorkspaceTarget`;
 * what an accepted move means: crates/core-server/src/workspace.rs, `move_workspace_entity`).
 */
module FolderTree {
  import opened Sequences

  /** The parent of each folder, as the browser knows it; nothing keeps it from being cyclic. */
  type Parents = map<string, Option<string>>

  /** An absent, a null and an empty parent all end the walk. */
  function Parent(parents: Parents, folder: string): Option<string> {
    if folder in parents && parents[folder].Some? && parents[folder].value != "" then parents[folder] else None
  }

  /** The folder `n` levels up. */
  function Up(parents: Parents, folder: string, n: nat): Option<string> {
    if n == 0 then Some(folder)
    else
      match Up(parents, folder, n - 1)
      case None => None
      case Some(below) => Parent(parents, below)
  }

  ghost predicate Ancestor(parents: Parents, ancestor: string, folder: string) {
    exists n: nat :: n > 0 && Up(parents, folder, n) == Some(ancestor)
  }

  predicate Link(parents: Parents, path: seq<string>, i: nat)
    requires i + 1 < |path|
  {
    path[i + 1] != "" && path[i] in parents && parents[path[i]] == Some(path[i + 1])
  }

  /** A path upwards: every folder is followed by the parent that its row names. */
  ghost predicate Chain(parents: Parents, path: seq<string>) {
    forall i: nat | i + 1 < |path| :: Link(parents, path, i)
  }

  lemma {:induction false} ChainIsUp(parents: Parents, path: seq<string>)
    requires path != [] && Chain(parents, path)
    ensures Up(parents, path[0], |path| - 1) == Some(path[|path| - 1])
  {
    if |path| > 1 {
      var n := |path| - 1;
      forall i: nat | i + 1 < n
        ensures Link(parents, path[..n], i)
      {
        assert Link(parents, path, i);
      }
      ChainIsUp(parents, path[..n]);
      assert Link(parents, path, n - 1);
    }
  }

  lemma {:induction false} UpIsChain(parents: Parents, folder: string, n: nat) returns (path: seq<string>)
    requires Up(parents, folder, n).Some?
    ensures |path| == n + 1 && Chain(parents, path)
    ensures path[0] == folder && path[n] == Up(parents, folder, n).value
  {
    if n == 0 {
      path := [folder];
    } else {
      var below := UpIsChain(parents, folder, n - 1);
      path := below + [Up(parents, folder, n).value];
      forall i: nat | i + 1 < |path|
        ensures Link(parents, path, i)
      {
        assert i + 1 < n ==> Link(parents, below, i);
      }
    }
  }

  /** The one lies above the other when rows lead from the other to it. */
  lemma AncestorIff(parents: Parents, ancestor: string, folder: string)
    ensures Ancestor(parents, ancestor, folder)
       <==> exists path :: |path| > 1 && Chain(parents, path) && path[0] == folder && path[|path| - 1] == ancestor
  {
    if Ancestor(parents, ancestor, folder) {
      var n: nat :| n > 0 && Up(parents, folder, n) == Some(ancestor);
      var path := UpIsChain(parents, folder, n);
      assert path[|path| - 1] == ancestor;
    }
    forall path | |path| > 1 && Chain(parents, path) && path[0] == folder && path[|path| - 1] == ancestor
      ensures Ancestor(parents, ancestor, folder)
    {
      ChainIsUp(parents, path);
    }
  }

  ghost predicate Acyclic(parents: Parents) {
    forall folder: string :: !Ancestor(parents, folder, folder)
  }

  function Targets(parents: Parents): set<string> {
    set folder | folder in parents && parents[folder].Some? :: parents[folder].value
  }

  /** The folders passed so far: what lies above each is passed too, or comes next. */
  ghost predicate Walked(parents: Parents, visited: set<string>, current: Option<string>) {
    forall folder | folder in visited :: Parent(parents, folder) == current
      || (Parent(parents, folder).Some? && Parent(parents, folder).value in visited)
  }

  /** When the walk has come to an end or closed a circle, everything above was passed. */
  lemma {:induction false} AllPassed(parents: Parents, folder: string, visited: set<string>, current: Option<string>,
                                    n: nat)
    requires Walked(parents, visited, current) && (current.Some? ==> current.value in visited)
    requires var first := Parent(parents, folder); first == current || (first.Some? && first.value in visited)
    requires n > 0
    ensures Up(parents, folder, n).Some? ==> Up(parents, folder, n).value in visited
  {
    if n > 1 {
      AllPassed(parents, folder, visited, current, n - 1);
    }
  }

  /**
   * The walk ends on every map, cyclic or not, and answers exactly whether the one folder lies
   * above the other.
   */
  method IsFolderDescendant(folder: string, ancestor: string, parents: Parents) returns (descends: bool)
    ensures descends <==> Ancestor(parents, ancestor, folder)
  {
    var current := Parent(parents, folder);
    var visited: set<string> := {};
    ghost var level: nat := 1;
    assert Up(parents, folder, 0) == Some(folder);
    while current.Some? && current.value !in visited
      invariant Up(parents, folder, level) == current && level > 0
      invariant Walked(parents, visited, current)
      invariant visited <= Targets(parents) && ancestor !in visited
      invariant current.Some? ==> current.value in Targets(parents)
      invariant var first := Parent(parents, folder); first == current || (first.Some? && first.value in visited)
      decreases Targets(parents) - visited
    {
      if current.value == ancestor { return true; }
      visited := visited + {current.value};
      current := Parent(parents, current.value);
      level := level + 1;
    }
    forall n: nat | n > 0
      ensures Up(parents, folder, n) != Some(ancestor)
    {
      AllPassed(parents, folder, visited, current, n);
    }
    return false;
  }

  // Moves

  datatype Intent = Before | Inside | After

  datatype Target = Root | Folder(id: string, intent: Intent)

  /** May this folder be dropped there? */
  ghost predicate CanDrop(source: string, target: Target, parents: Parents) {
    match target
    case Root => true
    case Folder(id, _) => source != id && !Ancestor(parents, source, id)
  }

  /** Dropped inside it becomes a child, before or after it a sibling. */
  function NewParent(target: Target, parents: Parents): Option<string> {
    match target
    case Root => None
    case Folder(id, Inside) => Some(id)
    case Folder(id, _) => Parent(parents, id)
  }

  function Moved(source: string, target: Target, parents: Parents): Parents {
    parents[source := NewParent(target, parents)]
  }

  /**
   * Dropped inside, the folder stands under the target; dropped before or after it, the two have
   * the same parent then; dropped at the root, it has none. No other folder moves.
   */
  lemma DropIsPlaced(source: string, target: Target, parents: Parents, other: string)
    requires CanDrop(source, target, parents)
    ensures target.Root? ==> Parent(Moved(source, target, parents), source) == None
    ensures target.Folder? && target.intent == Inside && target.id != "" ==>
      Parent(Moved(source, target, parents), source) == Some(target.id)
    ensures target.Folder? && target.intent != Inside ==>
      Parent(Moved(source, target, parents), source) == Parent(Moved(source, target, parents), target.id)
    ensures other != source ==> Parent(Moved(source, target, parents), other) == Parent(parents, other)
  {
  }

  lemma {:induction false} UpAdds(parents: Parents, folder: string, a: nat, b: nat)
    ensures Up(parents, folder, a + b)
         == match Up(parents, folder, a)
            case None => None
            case Some(above) => Up(parents, above, b)
  {
    if b > 0 {
      UpAdds(parents, folder, a, b - 1);
    }
  }

  /** The walk does not meet `source` before level `n`. */
  ghost predicate Avoids(parents: Parents, folder: string, source: string, n: nat) {
    forall k: nat | k < n :: Up(parents, folder, k) != Some(source)
  }

  /** Until the walk meets the moved folder it is the same before and after the move. */
  lemma {:induction false} SameUntilSource(before: Parents, after: Parents, source: string, folder: string, n: nat)
    requires forall other | other != source :: Parent(before, other) == Parent(after, other)
    requires Avoids(before, folder, source, n)
    ensures Up(before, folder, n) == Up(after, folder, n)
  {
    if n > 0 {
      SameUntilSource(before, after, source, folder, n - 1);
    }
  }

  /** The first time the walk meets the folder. */
  lemma {:induction false} FirstMeeting(parents: Parents, folder: string, source: string, n: nat) returns (first: nat)
    requires Up(parents, folder, n) == Some(source)
    ensures first <= n && Up(parents, folder, first) == Some(source) && Avoids(parents, folder, source, first)
  {
    if Avoids(parents, folder, source, n) {
      first := n;
    } else {
      var k: nat :| k < n && Up(parents, folder, k) == Some(source);
      first := FirstMeeting(parents, folder, source, k);
    }
  }

  /** If the moved folder lies on a circle after the move, its new parent is itself or was below it. */
  lemma CircleThroughSource(parents: Parents, source: string, parent: Option<string>, n: nat)
    requires n > 0 && Up(parents[source := parent], source, n) == Some(source)
    ensures parent.Some? && (parent.value == source || Ancestor(parents, source, parent.value))
  {
    var moved := parents[source := parent];
    UpAdds(moved, source, 1, n - 1);
    assert Up(moved, source, 0) == Some(source);
    var first := FirstMeeting(moved, parent.value, source, n - 1);
    SameUntilSource(moved, parents, source, parent.value, first);
    if first == 0 {
      assert Up(moved, parent.value, 0) == Some(parent.value);
    }
  }

  lemma NewParentIsAbove(source: string, target: Target, parents: Parents)
    requires CanDrop(source, target, parents)
    ensures
      var parent := NewParent(target, parents);
      parent.Some? ==> parent.value != source && !Ancestor(parents, source, parent.value)
  {
    if target.Folder? && target.intent != Inside && Parent(parents, target.id).Some? {
      var parent := Parent(parents, target.id).value;
      assert Up(parents, target.id, 0) == Some(target.id);
      assert Up(parents, target.id, 1) == Some(parent);
      if Ancestor(parents, source, parent) {
        var n: nat :| n > 0 && Up(parents, parent, n) == Some(source);
        UpAdds(parents, target.id, 1, n);
      }
    }
  }

  /** An accepted drop keeps the folders a forest. */
  lemma DropKeepsForest(source: string, target: Target, parents: Parents)
    requires Acyclic(parents) && CanDrop(source, target, parents)
    ensures Acyclic(Moved(source, target, parents))
  {
    var parent := NewParent(target, parents);
    var moved := Moved(source, target, parents);
    NewParentIsAbove(source, target, parents);
    forall folder: string
      ensures !Ancestor(moved, folder, folder)
    {
      if Ancestor(moved, folder, folder) {
        var n: nat :| n > 0 && Up(moved, folder, n) == Some(folder);
        if Avoids(moved, folder, source, n) {
          SameUntilSource(moved, parents, source, folder, n);
          assert Ancestor(parents, folder, folder);
        } else {
          var k: nat :| k < n && Up(moved, folder, k) == Some(source);
          UpAdds(moved, folder, k, n - k);
          UpAdds(moved, source, n - k, k);
          CircleThroughSource(parents, source, parent, n);
        }
      }
    }
  }

  /** Drops in sequence; one that is not accepted is ignored. */
  ghost function AfterDrops(drops: seq<(string, Target)>, parents: Parents): Parents {
    if drops == [] then parents
    else
      var (source, target) := drops[0];
      AfterDrops(drops[1..], if CanDrop(source, target, parents) then Moved(source, target, parents) else parents)
  }

  lemma {:induction false} DropsKeepForest(drops: seq<(string, Target)>, parents: Parents)
    requires Acyclic(parents)
    ensures Acyclic(AfterDrops(drops, parents))
  {
    if drops != [] {
      var (source, target) := drops[0];
      if CanDrop(source, target, parents) {
        DropKeepsForest(source, target, parents);
        DropsKeepForest(drops[1..], Moved(source, target, parents));
      } else {
        DropsKeepForest(drops[1..], parents);
      }
    }
  }

  /** The guard is exact: apart from a folder dropped beside itself, what it refuses would close a circle. */
  lemma RefusedDropClosesCircle(source: string, id: string, intent: Intent, parents: Parents)
    requires id != "" && !CanDrop(source, Folder(id, intent), parents) && (intent == Inside || source != id)
    ensures !Acyclic(Moved(source, Folder(id, intent), parents))
  {
    var moved := Moved(source, Folder(id, intent), parents);
    var levels: nat := 0;
    assert Up(parents, id, 0) == Some(id);
    if source != id {
      levels :| levels > 0 && Up(parents, id, levels) == Some(source);
    }
    var parent := id;
    if intent != Inside {
      UpAdds(parents, id, 1, levels - 1);
      parent := Parent(parents, id).value;
      levels := levels - 1;
    }
    assert Up(moved, source, 0) == Some(source) && Up(moved, source, 1) == Some(parent);
    var first := FirstMeeting(parents, parent, source, levels);
    SameUntilSource(parents, moved, source, parent, first);
    UpAdds(moved, source, 1, first);
    assert Ancestor(moved, source, source);
  }
}
