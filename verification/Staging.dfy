/** Expanding a committed plan into a directory tree, from whatever is there. */
module Staging {
  import opened Wrappers
  import opened DurableFiles
  import opened MaterialPlan

  /** A name in the staged tree: a path of the plan, or the pending file under
      which the plan's n-th file is born in its directory. */
  datatype Place = At(path: Path) | Pending(parent: Path, sequence: nat)

  type Tree = map<Place, Object>

  function Holder(place: Place): Path {
    if place.At? then Parent(place.path) else place.parent
  }

  predicate FolderThere(tree: Tree, path: Path) {
    path == [] || (At(path) in tree && tree[At(path)] == Folder)
  }

  /** A directory tree: everything has its directory, and only the top lies in the
      transaction root. */
  ghost predicate Rooted(tree: Tree) {
    forall place | place in tree ::
      && FolderThere(tree, Holder(place)) && (Holder(place) == [] ==> place == At(TOP))
      && (place.Pending? ==> tree[place].File?)
  }

  /** Files of the plan are numbered from one. */
  function FileNumber(entries: seq<Entry>, i: nat): nat
    requires i <= |entries|
  {
    if i == 0 then 1 else FileNumber(entries, i - 1) + if entries[i - 1].content.File? then 1 else 0
  }

  function PendingOf(entries: seq<Entry>, i: nat): Place
    requires i < |entries|
  {
    Pending(Parent(entries[i].path), FileNumber(entries, i))
  }

  lemma {:induction false} NumbersGrow(entries: seq<Entry>, i: nat, j: nat)
    requires i < j <= |entries| && entries[i].content.File?
    ensures FileNumber(entries, i) < FileNumber(entries, j)
    decreases j
  {
    if i < j - 1 {
      NumbersGrow(entries, i, j - 1);
    }
  }

  /** No two files of a plan share a pending name. */
  lemma PendingsDiffer(entries: seq<Entry>, i: nat, j: nat)
    requires i < |entries| && j < |entries| && entries[i].content.File? && entries[j].content.File?
    ensures PendingOf(entries, i) == PendingOf(entries, j) ==> i == j
  {
    if i < j {
      NumbersGrow(entries, i, j);
    } else if j < i {
      NumbersGrow(entries, j, i);
    }
  }

  /** A pending file that an interrupted step left: the final name is missing and
      the content is a beginning of the payload. */
  ghost predicate Torn(entries: seq<Entry>, tree: Tree, place: Place, i: nat)
    requires place in tree
  {
    && i < |entries| && entries[i].content.File? && place == PendingOf(entries, i)
    && At(entries[i].path) !in tree
    && tree[place].File? && tree[place].payload <= entries[i].content.payload
  }

  ghost predicate Good(entries: seq<Entry>, tree: Tree, place: Place)
    requires place in tree
  {
    match place
    case At(path) => KindAt(entries, path) == Some(tree[place])
    case Pending(_, _) => exists i :: Torn(entries, tree, place, i)
  }

  /** The tree holds nothing but finished objects of the plan and torn pendings. */
  ghost predicate Convergent(entries: seq<Entry>, tree: Tree) {
    forall place | place in tree :: Good(entries, tree, place)
  }

  /** The tree is the plan. */
  ghost predicate Exactly(entries: seq<Entry>, tree: Tree) {
    && (forall place :: place in tree <==> place.At? && KindAt(entries, place.path).Some?)
    && (forall place | place in tree :: KindAt(entries, place.path) == Some(tree[place]))
  }

  function WithFolder(tree: Tree, path: Path): Tree {
    if At(path) in tree then tree else tree[At(path) := Folder]
  }

  function WithFile(tree: Tree, path: Path, sequence: nat, payload: Bytes): Tree {
    (tree - {Pending(Parent(path), sequence)})[At(path) := File(payload)]
  }

  /** When one file of the plan cannot be brought about. */
  predicate FileRefused(tree: Tree, path: Path, sequence: nat, payload: Bytes) {
    var pending := Pending(Parent(path), sequence);
    || !FolderThere(tree, Parent(path))
    || (At(path) in tree && (pending in tree || tree[At(path)] != File(payload)))
    || (At(path) !in tree && pending in tree && !(tree[pending].File? && tree[pending].payload <= payload))
  }

  /** What a death inside one file's step leaves. */
  ghost predicate FileLeft(before: Tree, after: Tree, path: Path, sequence: nat, payload: Bytes) {
    var pending := Pending(Parent(path), sequence);
    || after == before
    || (&& At(path) !in before
        && (|| after == before - {pending}
            || exists torn | torn <= payload :: after == (before - {pending})[pending := File(torn)]))
  }

  lemma GoodLater(entries: seq<Entry>, before: Tree, after: Tree, place: Place)
    requires place in before && place in after && before[place] == after[place] && Good(entries, before, place)
    requires forall j: nat | Torn(entries, before, place, j) :: At(entries[j].path) !in after
    ensures Good(entries, after, place)
  {
    if place.Pending? {
      var j :| Torn(entries, before, place, j);
      assert Torn(entries, after, place, j);
    }
  }

  lemma GoodEarlier(entries: seq<Entry>, before: Tree, after: Tree, place: Place)
    requires place in before && place in after && before[place] == after[place] && Good(entries, after, place)
    requires forall path :: At(path) in before ==> At(path) in after
    ensures Good(entries, before, place)
  {
    GoodLater(entries, after, before, place);
  }

  /** One more object: what the plan says of the tree stays as it was. */
  lemma GrowthConverges(entries: seq<Entry>, before: Tree, after: Tree, i: nat, cleared: set<Place>)
    requires UniquePaths(entries) && i < |entries| && At(entries[i].path) !in before
    requires after == (before - cleared)[At(entries[i].path) := entries[i].content]
    requires forall place | place in cleared && place in before :: Torn(entries, before, place, i)
    requires entries[i].content.File? ==> PendingOf(entries, i) in cleared
    ensures Convergent(entries, after) <==> Convergent(entries, before)
  {
    hide KindAt, FileNumber, Parent, NameStart, UniquePaths;
    ListedHasKind(entries, i);
    if Convergent(entries, before) {
      forall place | place in after ensures Good(entries, after, place) {
        if place != At(entries[i].path) {
          forall j: nat | Torn(entries, before, place, j) ensures At(entries[j].path) !in after {
            TornElsewhere(entries, before, i, j, place, cleared);
          }
          GoodLater(entries, before, after, place);
        }
      }
    }
    if Convergent(entries, after) {
      forall place | place in before ensures Good(entries, before, place) {
        if place in after {
          GoodEarlier(entries, before, after, place);
        }
      }
    }
  }

  /** A pending left uncleared is not this entry's. */
  lemma TornElsewhere(entries: seq<Entry>, before: Tree, i: nat, j: nat, place: Place, cleared: set<Place>)
    requires UniquePaths(entries) && i < |entries| && place in before && Torn(entries, before, place, j)
    requires entries[i].content.File? ==> PendingOf(entries, i) in cleared
    requires place !in cleared
    ensures entries[j].path != entries[i].path
  {
  }

  lemma GrowthIsRooted(entries: seq<Entry>, before: Tree, path: Path, content: Object, cleared: set<Place>)
    requires Rooted(before) && WithinTop(path) && FolderThere(before, Parent(path))
    requires At(path) !in before && forall place | place in cleared :: place.Pending?
    ensures Rooted((before - cleared)[At(path) := content])
  {
    hide Parent, NameStart, WithinTop;
    WithinTopHasParent(path);
    hide Parent, NameStart;
    var after := (before - cleared)[At(path) := content];
    forall place | place in after
      ensures FolderThere(after, Holder(place)) && (Holder(place) == [] ==> place == At(TOP))
      ensures place.Pending? ==> after[place].File?
    {
      if place != At(path) {
        assert place in before && FolderThere(before, Holder(place));
      }
    }
  }

  /** Every entry is there, and every file has its payload. */
  ghost predicate AllThere(entries: seq<Entry>, n: nat, tree: Tree) {
    n <= |entries| && forall i | 0 <= i < n ::
      At(entries[i].path) in tree && (entries[i].content.File? ==> tree[At(entries[i].path)] == entries[i].content)
  }

  function Children(tree: Tree, path: Path): set<Place> {
    set place | place in tree && Holder(place) == path
  }

  function PlannedChildren(entries: seq<Entry>, path: Path): set<Place> {
    set i | 0 <= i < |entries| && Parent(entries[i].path) == path :: At(entries[i].path)
  }

  /** The closing check: every planned directory holds exactly what is planned. */
  ghost predicate InventoryHolds(entries: seq<Entry>, tree: Tree) {
    forall i | 0 <= i < |entries| && entries[i].content.Folder? ::
      FolderThere(tree, entries[i].path) && Children(tree, entries[i].path) == PlannedChildren(entries, entries[i].path)
  }

  /** Nothing in the tree escapes the closing check. */
  lemma {:induction false} NothingElse(entries: seq<Entry>, tree: Tree, place: Place)
    requires Admitted(entries) && Rooted(tree) && AllThere(entries, |entries|, tree) && InventoryHolds(entries, tree)
    requires place in tree
    ensures place.At? && KindAt(entries, place.path).Some?
    decreases |Holder(place)|
  {
    var holder := Holder(place);
    if holder != [] {
      assert FolderThere(tree, holder);
      NothingElse(entries, tree, At(holder));
      var h := KindIsListed(entries, holder);
      assert place in Children(tree, holder);
      var i :| 0 <= i < |entries| && Parent(entries[i].path) == holder && place == At(entries[i].path);
      ListedHasKind(entries, i);
    }
  }

  lemma PlanIsExact(entries: seq<Entry>, tree: Tree)
    requires Admitted(entries) && Rooted(tree) && AllThere(entries, |entries|, tree) && InventoryHolds(entries, tree)
    ensures Exactly(entries, tree) && Convergent(entries, tree)
  {
    forall place ensures place in tree <==> place.At? && KindAt(entries, place.path).Some? {
      if place in tree {
        NothingElse(entries, tree, place);
      } else if place.At? && KindAt(entries, place.path).Some? {
        var i := KindIsListed(entries, place.path);
      }
    }
    forall place | place in tree ensures KindAt(entries, place.path) == Some(tree[place]) {
      var i := KindIsListed(entries, place.path);
    }
  }

  lemma ConvergentIsExact(entries: seq<Entry>, tree: Tree)
    requires Admitted(entries) && AllThere(entries, |entries|, tree) && Convergent(entries, tree)
    ensures InventoryHolds(entries, tree)
  {
    forall place | place in tree ensures place.At? && KindAt(entries, place.path) == Some(tree[place]) {
      assert Good(entries, tree, place);
    }
    forall i | 0 <= i < |entries| && entries[i].content.Folder?
      ensures FolderThere(tree, entries[i].path)
      ensures Children(tree, entries[i].path) == PlannedChildren(entries, entries[i].path)
    {
      ListedHasKind(entries, i);
      forall place | place in Children(tree, entries[i].path)
        ensures place in PlannedChildren(entries, entries[i].path)
      {
        var k := KindIsListed(entries, place.path);
      }
    }
  }

  lemma FolderGrows(tree: Tree, path: Path)
    ensures WithFolder(tree, path) == if At(path) in tree then tree else (tree - {})[At(path) := Folder]
  {
    assert tree - {} == tree;
  }

  lemma FileGrows(entries: seq<Entry>, tree: Tree, i: nat)
    requires i < |entries| && entries[i].content.File? && !StepRefused(entries, tree, i)
    ensures var pending := PendingOf(entries, i);
            WithFile(tree, entries[i].path, FileNumber(entries, i), entries[i].content.payload)
            ==
              if At(entries[i].path) in tree then tree
              else (tree - {pending})[At(entries[i].path) := entries[i].content]
    ensures FolderThere(tree, Parent(entries[i].path))
    ensures At(entries[i].path) !in tree && PendingOf(entries, i) in tree ==>
      Torn(entries, tree, PendingOf(entries, i), i)
    ensures PendingOf(entries, i).Pending?
  {
    hide Parent, NameStart, FileNumber;
  }

  lemma FolderStep(entries: seq<Entry>, tree: Tree, i: nat)
    requires Admitted(entries) && i < |entries| && entries[i].content.Folder?
    requires Rooted(tree) && FolderThere(tree, Parent(entries[i].path))
    ensures Rooted(WithFolder(tree, entries[i].path))
    ensures Convergent(entries, WithFolder(tree, entries[i].path)) <==> Convergent(entries, tree)
  {
    hide *;
    UniqueInPlan(entries, i);
    FolderGrows(tree, entries[i].path);
    if At(entries[i].path) !in tree {
      GrowthIsRooted(entries, tree, entries[i].path, Folder, {});
      GrowthConverges(entries, tree, WithFolder(tree, entries[i].path), i, {});
    }
  }

  lemma UniqueInPlan(entries: seq<Entry>, i: nat)
    requires Admitted(entries) && i < |entries|
    ensures UniquePaths(entries) && WithinTop(entries[i].path) && (entries[i].content.File? ==> entries[i].path != TOP)
  {
    ListedHasKind(entries, i);
    assert entries[i] in entries;
  }

  /** The step of the i-th entry, when that is a file. */
  ghost predicate StepRefused(entries: seq<Entry>, tree: Tree, i: nat)
    requires i < |entries| && entries[i].content.File?
  {
    FileRefused(tree, entries[i].path, FileNumber(entries, i), entries[i].content.payload)
  }

  lemma FileStep(entries: seq<Entry>, tree: Tree, i: nat)
    requires Admitted(entries) && i < |entries| && entries[i].content.File?
    requires Rooted(tree) && !StepRefused(entries, tree, i)
    ensures var after := WithFile(tree, entries[i].path, FileNumber(entries, i), entries[i].content.payload);
            Rooted(after) && (Convergent(entries, after) <==> Convergent(entries, tree))
  {
    hide *;
    UniqueInPlan(entries, i);
    FileGrows(entries, tree, i);
    if At(entries[i].path) !in tree {
      var after := WithFile(tree, entries[i].path, FileNumber(entries, i), entries[i].content.payload);
      GrowthIsRooted(entries, tree, entries[i].path, entries[i].content, {PendingOf(entries, i)});
      GrowthConverges(entries, tree, after, i, {PendingOf(entries, i)});
    }
  }

  /** A death in the step leaves a tree the plan judges no differently. */
  lemma FileLeftConverges(entries: seq<Entry>, before: Tree, after: Tree, i: nat)
    requires Admitted(entries) && i < |entries| && entries[i].content.File?
    requires Rooted(before) && !StepRefused(entries, before, i)
    requires FileLeft(before, after, entries[i].path, FileNumber(entries, i), entries[i].content.payload)
    ensures Rooted(after) && (Convergent(entries, before) ==> Convergent(entries, after))
  {
    hide *;
    UniqueInPlan(entries, i);
    if after != before {
      FileGrows(entries, before, i);
      PendingLeft(entries, before, after, i);
      PendingIsRooted(entries, before, after, i);
      PendingConverges(entries, before, after, i);
    }
  }

  /** At most the pending of one file came or went. */
  ghost predicate PendingMoved(entries: seq<Entry>, before: Tree, after: Tree, i: nat)
    requires i < |entries|
  {
    && (forall place | place != PendingOf(entries, i) ::
          (place in after <==> place in before) && (place in before ==> after[place] == before[place]))
    && (PendingOf(entries, i) in after ==> Torn(entries, after, PendingOf(entries, i), i))
  }

  lemma PendingLeft(entries: seq<Entry>, before: Tree, after: Tree, i: nat)
    requires i < |entries| && entries[i].content.File? && after != before
    requires FileLeft(before, after, entries[i].path, FileNumber(entries, i), entries[i].content.payload)
    ensures PendingMoved(entries, before, after, i)
  {
    hide Parent, NameStart, FileNumber;
  }

  lemma PendingIsRooted(entries: seq<Entry>, before: Tree, after: Tree, i: nat)
    requires i < |entries| && Rooted(before) && PendingMoved(entries, before, after, i)
    requires WithinTop(entries[i].path) && entries[i].path != TOP && FolderThere(before, Parent(entries[i].path))
    ensures Rooted(after)
  {
    WithinTopHasParent(entries[i].path);
    hide Parent, NameStart, FileNumber;
  }

  lemma PendingConverges(entries: seq<Entry>, before: Tree, after: Tree, i: nat)
    requires i < |entries| && PendingMoved(entries, before, after, i)
    ensures Convergent(entries, before) ==> Convergent(entries, after)
  {
    hide Parent, NameStart, FileNumber, KindAt;
    if Convergent(entries, before) {
      forall place | place in after ensures Good(entries, after, place) {
        if place != PendingOf(entries, i) {
          GoodLater(entries, before, after, place);
        }
      }
    }
  }

  /** What no step ever touches: the objects under their final names. */
  ghost predicate FinalsKept(before: Tree, after: Tree) {
    forall path | At(path) in before :: At(path) in after && after[At(path)] == before[At(path)]
  }

  /** In a convergent tree the directory of the next entry is already there. */
  lemma ParentIsThere(entries: seq<Entry>, tree: Tree, i: nat)
    requires Admitted(entries) && i < |entries| && AllThere(entries, i, tree) && Convergent(entries, tree)
    ensures FolderThere(tree, Parent(entries[i].path))
  {
    if Parent(entries[i].path) != [] {
      var p := ParentComesFirst(entries, i);
      ListedHasKind(entries, p);
      assert Good(entries, tree, At(entries[p].path));
    }
  }

  /** A convergent tree refuses no step. */
  lemma NoStepRefused(entries: seq<Entry>, tree: Tree, i: nat)
    requires Admitted(entries) && i < |entries| && entries[i].content.File?
    requires AllThere(entries, i, tree) && Convergent(entries, tree)
    ensures !StepRefused(entries, tree, i)
  {
    ParentIsThere(entries, tree, i);
    ListedHasKind(entries, i);
    hide Admitted, KindAt, Parent, NameStart, FileNumber, AllThere;
    if At(entries[i].path) in tree {
      assert Good(entries, tree, At(entries[i].path));
    }
    if PendingOf(entries, i) in tree {
      assert Good(entries, tree, PendingOf(entries, i));
      var j: nat :| Torn(entries, tree, PendingOf(entries, i), j);
      PendingsDiffer(entries, i, j);
    }
  }

  lemma OneMoreThere(entries: seq<Entry>, i: nat, before: Tree, after: Tree)
    requires i < |entries| && AllThere(entries, i, before) && FinalsKept(before, after)
    requires At(entries[i].path) in after
    requires entries[i].content.File? ==> after[At(entries[i].path)] == entries[i].content
    ensures AllThere(entries, i + 1, after)
  {
  }

  lemma FinalsKeptFurther(first: Tree, second: Tree, third: Tree)
    requires FinalsKept(first, second) && FinalsKept(second, third)
    ensures FinalsKept(first, third)
  {
  }

  lemma NothingThere(entries: seq<Entry>, tree: Tree)
    ensures AllThere(entries, 0, tree) && FinalsKept(tree, tree) && FileNumber(entries, 0) == 1
  {
  }

  lemma ExactlyHas(entries: seq<Entry>, tree: Tree, i: nat)
    requires Admitted(entries) && Exactly(entries, tree) && i < |entries|
    ensures At(entries[i].path) in tree
  {
    hide KindAt;
    ListedHasKind(entries, i);
  }

  lemma NextNumber(entries: seq<Entry>, i: nat)
    requires i < |entries|
    ensures FileNumber(entries, i + 1) == FileNumber(entries, i) + if entries[i].content.File? then 1 else 0
  {
  }

  lemma UniqueAll(entries: seq<Entry>)
    requires Admitted(entries)
    ensures UniquePaths(entries)
  {
  }

  /** Births that stay: an object under its final name is never another object. */
  ghost predicate SameObjects(before: map<Place, nat>, after: map<Place, nat>) {
    forall path | At(path) in before :: At(path) in after && after[At(path)] == before[At(path)]
  }

  /** A tree, and which object each of its names stands for: objects are numbered in
      the order of their births, and the platform knows each by its number. */
  datatype Staged = Staged(tree: Tree, births: map<Place, nat>)

  ghost predicate Numbered(staged: Staged) {
    staged.births.Keys == staged.tree.Keys
  }

  /** The numbers of the objects that the first entries stand for. */
  function Numbers(entries: seq<Entry>, births: map<Place, nat>): (numbers: seq<nat>)
    requires forall entry | entry in entries :: At(entry.path) in births
    ensures |numbers| == |entries|
  {
    seq(|entries|, i requires 0 <= i < |entries| => births[At(entries[i].path)])
  }

  /** The numbers noted so far are those of the objects. */
  ghost predicate NumbersAre(entries: seq<Entry>, n: nat, births: map<Place, nat>, numbers: seq<nat>) {
    && n <= |entries| && |numbers| == n
    && forall i | 0 <= i < n :: At(entries[i].path) in births && numbers[i] == births[At(entries[i].path)]
  }

  lemma NothingNumbered(entries: seq<Entry>, births: map<Place, nat>)
    ensures NumbersAre(entries, 0, births, []) && SameObjects(births, births)
  {
  }

  lemma SameAsBefore(births: map<Place, nat>)
    ensures SameObjects(births, births)
  {
  }

  lemma SameObjectsFurther(first: map<Place, nat>, second: map<Place, nat>, third: map<Place, nat>)
    requires SameObjects(first, second) && SameObjects(second, third)
    ensures SameObjects(first, third)
  {
  }

  lemma ThereIsNumbered(entries: seq<Entry>, i: nat, staged: Staged)
    requires i < |entries| && AllThere(entries, i + 1, staged.tree) && Numbered(staged)
    ensures At(entries[i].path) in staged.births
  {
    assert At(entries[i].path) in staged.tree;
  }

  lemma OneMoreNumbered(entries: seq<Entry>, i: nat, before: map<Place, nat>, after: map<Place, nat>, numbers: seq<nat>)
    requires i < |entries| && NumbersAre(entries, i, before, numbers) && SameObjects(before, after)
    requires At(entries[i].path) in after
    ensures NumbersAre(entries, i + 1, after, numbers + [after[At(entries[i].path)]])
  {
  }

  class Workspace {
    var tree: Tree
    var births: map<Place, nat>
    var born: nat
    // How many more steps this process lives; None when it is not going to die.
    var stop: Option<nat>

    constructor (tree: Tree, births: map<Place, nat>, born: nat, stop: Option<nat>)
      ensures this.tree == tree && this.births == births && this.born == born && this.stop == stop
    {
      this.tree, this.births, this.born, this.stop := tree, births, born, stop;
    }

    /** A new object has a new number; one that is written to keeps its own. */
    method Put(place: Place, content: Object) returns (alive: bool)
      modifies this
      ensures old(stop).None? ==> alive && stop.None?
      ensures tree == if alive then old(tree)[place := content] else old(tree)
      ensures births == if !alive || place in old(births) then old(births) else old(births)[place := old(born)]
    {
      alive, stop := Spend(stop);
      if alive {
        tree := tree[place := content];
        if place !in births {
          births, born := births[place := born], born + 1;
        }
      }
    }

    method Unlink(place: Place) returns (alive: bool)
      modifies this
      ensures old(stop).None? ==> alive && stop.None?
      ensures tree == if alive then old(tree) - {place} else old(tree)
      ensures births == if alive then old(births) - {place} else old(births)
    {
      alive, stop := Spend(stop);
      if alive {
        tree, births := tree - {place}, births - {place};
      }
    }

    /** The object keeps its number under its new name. */
    method Rename(from: Place, to: Place) returns (alive: bool)
      requires from in tree && from in births
      modifies this
      ensures old(stop).None? ==> alive && stop.None?
      ensures tree == if alive then (old(tree) - {from})[to := old(tree)[from]] else old(tree)
      ensures births == if alive then (old(births) - {from})[to := old(births)[from]] else old(births)
    {
      alive, stop := Spend(stop);
      if alive {
        tree, births := (tree - {from})[to := tree[from]], (births - {from})[to := births[from]];
      }
    }

    method EnsureDirectory(path: Path) returns (r: Outcome)
      requires Numbered(Staged(tree, births))
      modifies this
      ensures Numbered(Staged(tree, births)) && SameObjects(old(births), births)
      ensures At(path) in old(tree) ==> tree == old(tree) && births == old(births) && !r.Stopped?
      ensures old(stop).None? ==> stop.None? && !r.Stopped?
      ensures r.Refused? <==> !FolderThere(old(tree), Parent(path))
      ensures tree == if r.Done? then WithFolder(old(tree), path) else old(tree)
    {
      if !FolderThere(tree, Parent(path)) {
        return Refused;
      }
      if At(path) !in tree {
        var alive := Put(At(path), Folder);
        return if alive then Done else Stopped;
      }
      return Done;
    }

    /** Write the pending file, whole, and give it its final name. */
    method Publish(pending: Place, path: Path, payload: Bytes) returns (r: Outcome)
      requires pending !in tree && pending.Pending? && At(path) !in tree && Numbered(Staged(tree, births))
      modifies this
      ensures Numbered(Staged(tree, births)) && SameObjects(old(births), births)
      ensures old(stop).None? ==> stop.None? && !r.Stopped?
      ensures !r.Refused?
      ensures r.Done? ==> tree == old(tree)[At(path) := File(payload)]
      ensures r.Stopped? ==>
        tree == old(tree) || exists torn | torn <= payload :: tree == old(tree)[pending := File(torn)]
    {
      var alive := Put(pending, File([]));
      if !alive {
        return Stopped;
      }
      var written := 0;
      while written < |payload|
        invariant written <= |payload|
        invariant old(stop).None? ==> stop.None?
        invariant tree == old(tree)[pending := File(payload[..written])]
        invariant births.Keys == tree.Keys && SameObjects(old(births), births)
      {
        assert payload[..written] <= payload;
        var more :| 0 < more <= |payload| - written;
        alive := Put(pending, File(payload[..written + more]));
        if !alive {
          return Stopped;
        }
        written := written + more;
      }
      assert payload[..written] == payload;
      alive := Rename(pending, At(path));
      assert alive ==> tree == old(tree)[At(path) := File(payload)];
      return if alive then Done else Stopped;
    }

    /** Recover the pending file of an interrupted step, then bring the file about. */
    method EnsureFile(path: Path, payload: Bytes, sequence: nat) returns (r: Outcome)
      requires Numbered(Staged(tree, births))
      modifies this
      ensures Numbered(Staged(tree, births)) && SameObjects(old(births), births)
      ensures At(path) in old(tree) ==> tree == old(tree) && births == old(births) && !r.Stopped?
      ensures old(stop).None? ==> stop.None? && !r.Stopped?
      ensures r.Refused? <==> FileRefused(old(tree), path, sequence, payload)
      ensures r.Refused? ==> tree == old(tree)
      ensures r.Done? ==> tree == WithFile(old(tree), path, sequence, payload)
      ensures r.Stopped? ==> FileLeft(old(tree), tree, path, sequence, payload)
    {
      if !FolderThere(tree, Parent(path)) {
        return Refused;
      }
      var pending := Pending(Parent(path), sequence);
      if At(path) in tree && pending in tree {
        return Refused;
      }
      var alive;
      if At(path) !in tree && pending in tree {
        if tree[pending].Folder? || |tree[pending].payload| > |payload| {
          return Refused;
        }
        var observed := tree[pending].payload;
        if observed == payload {
          alive := Rename(pending, At(path));
          if !alive {
            return Stopped;
          }
        } else if |observed| < |payload| && observed <= payload {
          alive := Unlink(pending);
          if !alive {
            return Stopped;
          }
        } else {
          return Refused;
        }
      }
      if At(path) !in tree {
        ghost var cleared := tree;
        assert cleared == old(tree) - {pending};
        r := Publish(pending, path, payload);
        if !r.Done? {
          return;
        }
      }
      return if tree[At(path)] == File(payload) then Done else Refused;
    }

    /** The step of one entry of the plan. */
    method EnsureEntry(entries: seq<Entry>, i: nat, sequence: nat) returns (r: Outcome)
      requires Admitted(entries) && Rooted(tree) && AllThere(entries, i, tree)
      requires i < |entries| && sequence == FileNumber(entries, i) && Numbered(Staged(tree, births))
      modifies this
      ensures Numbered(Staged(tree, births)) && SameObjects(old(births), births)
      ensures At(entries[i].path) in old(tree) ==> tree == old(tree) && births == old(births) && !r.Stopped?
      ensures old(stop).None? ==> stop.None? && !r.Stopped?
      ensures Rooted(tree) && FinalsKept(old(tree), tree)
      ensures r.Refused? ==> tree == old(tree) && !Convergent(entries, tree)
      ensures Convergent(entries, old(tree)) ==> Convergent(entries, tree)
      ensures r.Done? ==>
        AllThere(entries, i + 1, tree) && (Convergent(entries, tree) <==> Convergent(entries, old(tree)))
    {
      hide Rooted, Convergent, Admitted, KindAt, Parent, NameStart, FileNumber, AllThere;
      var entry := entries[i];
      if Convergent(entries, tree) {
        ParentIsThere(entries, tree, i);
      }
      if entry.content.Folder? {
        r := EnsureDirectory(entry.path);
        if r.Done? {
          FolderStep(entries, old(tree), i);
          OneMoreThere(entries, i, old(tree), tree);
        }
      } else {
        if Convergent(entries, tree) {
          NoStepRefused(entries, tree, i);
        }
        r := EnsureFile(entry.path, entry.content.payload, sequence);
        if r.Done? {
          FileStep(entries, old(tree), i);
          OneMoreThere(entries, i, old(tree), tree);
        } else if r.Stopped? {
          FileLeftConverges(entries, old(tree), tree, i);
        }
      }
    }

    /** The closing check of every planned directory. */
    method CheckInventory(entries: seq<Entry>) returns (holds: bool)
      ensures holds <==> InventoryHolds(entries, tree)
    {
      for i := 0 to |entries|
        invariant forall k | 0 <= k < i && entries[k].content.Folder? ::
          FolderThere(tree, entries[k].path)
            && Children(tree, entries[k].path) == PlannedChildren(entries, entries[k].path)
      {
        if entries[i].content.Folder? {
          if !FolderThere(tree, entries[i].path)
             || Children(tree, entries[i].path) != PlannedChildren(entries, entries[i].path) {
            return false;
          }
        }
      }
      return true;
    }

    /** Expand the plan over whatever is there, and note the number of each object.

        It succeeds exactly on the trees that hold nothing but finished objects of
        the plan and torn pendings, and then the tree is the plan. It never alters
        an object under its final name, nor puts another in its place, and a death
        leaves a tree that the next call judges no worse. */
    method Materialise(entries: seq<Entry>) returns (r: Outcome, numbers: seq<nat>)
      requires Admitted(entries) && Rooted(tree) && Numbered(Staged(tree, births))
      modifies this
      ensures old(stop).None? ==> stop.None? && !r.Stopped?
      ensures Rooted(tree) && FinalsKept(old(tree), tree)
      ensures Numbered(Staged(tree, births)) && SameObjects(old(births), births)
      ensures r.Done? ==> Exactly(entries, tree) && Convergent(entries, old(tree))
      ensures r.Done? ==> AllThere(entries, |entries|, tree) && NumbersAre(entries, |entries|, births, numbers)
      ensures r.Refused? ==> !Convergent(entries, old(tree))
      ensures Convergent(entries, old(tree)) ==> Convergent(entries, tree)
      ensures Exactly(entries, old(tree)) ==> tree == old(tree) && births == old(births) && !r.Stopped?
    {
      hide *;
      NothingThere(entries, tree);
      NothingNumbered(entries, births);
      var sequence := 1;
      numbers := [];
      for i := 0 to |entries|
        invariant old(stop).None? ==> stop.None?
        invariant Rooted(tree) && FinalsKept(old(tree), tree) && AllThere(entries, i, tree)
        invariant Numbered(Staged(tree, births)) && SameObjects(old(births), births)
        invariant NumbersAre(entries, i, births, numbers)
        invariant Convergent(entries, tree) <==> Convergent(entries, old(tree))
        invariant Exactly(entries, old(tree)) ==> tree == old(tree) && births == old(births)
        invariant sequence == FileNumber(entries, i)
      {
        ghost var before, earlier := tree, births;
        if Exactly(entries, old(tree)) {
          ExactlyHas(entries, old(tree), i);
        }
        r := EnsureEntry(entries, i, sequence);
        FinalsKeptFurther(old(tree), before, tree);
        SameObjectsFurther(old(births), earlier, births);
        if !r.Done? {
          return;
        }
        ThereIsNumbered(entries, i, Staged(tree, births));
        OneMoreNumbered(entries, i, earlier, births, numbers);
        numbers := numbers + [births[At(entries[i].path)]];
        NextNumber(entries, i);
        if entries[i].content.File? {
          sequence := sequence + 1;
        }
      }
      var holds := CheckInventory(entries);
      if !holds {
        if Convergent(entries, tree) {
          ConvergentIsExact(entries, tree);
        }
        return Refused, numbers;
      }
      PlanIsExact(entries, tree);
      return Done, numbers;
    }

    /** The same plan expanded again after every death: whatever the deaths, the
        tree that results is the plan. */
    method MaterialiseAcrossStops(entries: seq<Entry>, stops: seq<nat>) returns (r: Outcome)
      requires Admitted(entries) && Rooted(tree) && Convergent(entries, tree) && Numbered(Staged(tree, births))
      modifies this
      ensures r.Done? && Exactly(entries, tree) && SameObjects(old(births), births)
    {
      hide *;
      var numbers;
      SameAsBefore(births);
      for i := 0 to |stops|
        invariant Rooted(tree) && Convergent(entries, tree) && Numbered(Staged(tree, births))
        invariant SameObjects(old(births), births)
      {
        stop := Some(stops[i]);
        ghost var earlier := births;
        r, numbers := Materialise(entries);
        SameObjectsFurther(old(births), earlier, births);
      }
      stop := None;
      ghost var earlier := births;
      r, numbers := Materialise(entries);
      SameObjectsFurther(old(births), earlier, births);
    }
  }

  /** Interrupted expansions, as an observer may find them: the first objects of
      the plan, in order, and perhaps the next file cut short. */
  ghost predicate Interrupted(entries: seq<Entry>, tree: Tree, n: nat, torn: Option<Bytes>) {
    && n <= |entries|
    && (torn.Some? ==> n < |entries| && entries[n].content.File? && torn.value <= entries[n].content.payload)
    && (forall place :: place in tree <==>
          || (exists i | 0 <= i < n :: place == At(entries[i].path))
          || (torn.Some? && place == PendingOf(entries, n)))
    && (forall i | 0 <= i < n :: At(entries[i].path) in tree && tree[At(entries[i].path)] == entries[i].content)
    && (torn.Some? ==> tree[PendingOf(entries, n)] == File(torn.value))
  }

  lemma NotThereYet(entries: seq<Entry>, tree: Tree, n: nat, torn: Option<Bytes>)
    requires UniquePaths(entries) && Interrupted(entries, tree, n, torn) && n < |entries|
    ensures At(entries[n].path) !in tree
  {
    hide FileNumber;
  }

  lemma InterruptedConverges(entries: seq<Entry>, tree: Tree, n: nat, torn: Option<Bytes>)
    requires Admitted(entries) && Interrupted(entries, tree, n, torn)
    ensures Convergent(entries, tree)
  {
    hide Admitted, KindAt, Parent, NameStart, FileNumber, UniquePaths;
    UniqueAll(entries);
    if n < |entries| {
      NotThereYet(entries, tree, n, torn);
    }
    forall place | place in tree ensures Good(entries, tree, place) {
      if i :| 0 <= i < n && place == At(entries[i].path) {
        ListedHasKind(entries, i);
      } else {
        assert place == PendingOf(entries, n);
        assert Torn(entries, tree, place, n);
      }
    }
  }
}
