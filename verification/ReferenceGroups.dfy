/** Objects of the physical owners, as the inventory presents them. */
module RetentionObjects {
  import opened Wrappers

  datatype Identity = Identity(owner: string, store: string, nodeType: string, localId: string,
                               contract: Option<string>)

  datatype NodeState = Open | Closed | Deleted

  type Instant = nat

  datatype OwnerObject = OwnerObject(
    identity: Identity,
    version: string,
    state: NodeState,
    eligibleAfter: Option<Instant>,
    references: seq<Identity>,
    roots: set<string>)
}

/** Splitting the candidates into the sets that must be deleted together. */
module ReferenceGroups {
  import opened RetentionObjects

  type Graph = map<Identity, set<Identity>>

  /** One object per identity; a later one replaces an earlier one. */
  function ObjectsOf(candidates: seq<OwnerObject>): (objects: map<Identity, OwnerObject>)
    ensures forall id | id in objects :: objects[id].identity == id
    ensures forall id :: id in objects <==> IsCandidate(candidates, id)
  {
    if candidates == [] then map[]
    else
      var last := candidates[|candidates| - 1];
      ObjectsOf(candidates[..|candidates| - 1])[last.identity := last]
  }

  predicate IsCandidate(candidates: seq<OwnerObject>, id: Identity) {
    exists i | 0 <= i < |candidates| :: candidates[i].identity == id
  }

  predicate References(candidates: seq<OwnerObject>, a: Identity, b: Identity) {
    ReferencesBefore(candidates, |candidates|, a, b)
  }

  predicate ReferencesBefore(candidates: seq<OwnerObject>, n: nat, a: Identity, b: Identity)
    requires n <= |candidates|
  {
    exists i | 0 <= i < n :: candidates[i].identity == a && b in candidates[i].references
  }

  /** An undirected edge of the reference graph restricted to the candidates. */
  predicate Adjacent(candidates: seq<OwnerObject>, a: Identity, b: Identity) {
    && IsCandidate(candidates, a) && IsCandidate(candidates, b)
    && (References(candidates, a, b) || References(candidates, b, a))
  }

  ghost predicate Path(candidates: seq<OwnerObject>, path: seq<Identity>) {
    && |path| > 0 && IsCandidate(candidates, path[0])
    && forall i :: 0 <= i < |path| - 1 ==> Adjacent(candidates, path[i], path[i + 1])
  }

  ghost predicate Connected(candidates: seq<OwnerObject>, a: Identity, b: Identity) {
    exists path :: Path(candidates, path) && path[0] == a && path[|path| - 1] == b
  }

  /** No edge leaves the set. */
  ghost predicate ClosedUnder(candidates: seq<OwnerObject>, ids: set<Identity>) {
    forall a, b :: a in ids && Adjacent(candidates, a, b) ==> b in ids
  }

  lemma Extend(candidates: seq<OwnerObject>, a: Identity, b: Identity, c: Identity)
    requires Connected(candidates, a, b) && Adjacent(candidates, b, c)
    ensures Connected(candidates, a, c)
  {
    var path :| Path(candidates, path) && path[0] == a && path[|path| - 1] == b;
    var longer := path + [c];
    assert longer[0] == a && longer[|longer| - 1] == c;
    forall i | 0 <= i < |longer| - 1 ensures Adjacent(candidates, longer[i], longer[i + 1]) {
      if i < |path| - 1 {
        assert Adjacent(candidates, path[i], path[i + 1]);
      }
    }
    assert Path(candidates, longer);
  }

  lemma {:induction false} PathStays(candidates: seq<OwnerObject>, ids: set<Identity>, path: seq<Identity>)
    requires ClosedUnder(candidates, ids) && Path(candidates, path) && path[0] in ids
    ensures path[|path| - 1] in ids
  {
    if |path| > 1 {
      var n := |path| - 1;
      forall i | 0 <= i < n - 1 ensures Adjacent(candidates, path[..n][i], path[..n][i + 1]) {
        assert Adjacent(candidates, path[i], path[i + 1]);
      }
      PathStays(candidates, ids, path[..n]);
      assert Adjacent(candidates, path[n - 1], path[n - 1 + 1]);
    }
  }

  /** What is closed and reached from one object is that object's component. */
  lemma ClosedIsComponent(candidates: seq<OwnerObject>, start: Identity, ids: set<Identity>)
    requires start in ids && ClosedUnder(candidates, ids)
    requires forall id | id in ids :: Connected(candidates, start, id)
    ensures forall id :: id in ids <==> Connected(candidates, start, id)
  {
    forall id | Connected(candidates, start, id) ensures id in ids {
      var path :| Path(candidates, path) && path[0] == start && path[|path| - 1] == id;
      PathStays(candidates, ids, path);
    }
  }

  function SetOf(ids: seq<Identity>): set<Identity> {
    set id | id in ids
  }

  ghost predicate Distinct(ids: seq<Identity>) {
    forall i, j :: 0 <= i < j < |ids| ==> ids[i] != ids[j]
  }

  /** Record the edges of one object in both directions. */
  method AddReferences(obj: OwnerObject, before: Graph) returns (after: Graph)
    requires obj.identity in before
    ensures after.Keys == before.Keys
    ensures forall a, b :: a in after ==>
      (b in after[a] <==>
         b in before[a] || (b in before && ((a == obj.identity && b in obj.references)
                                            || (b == obj.identity && a in obj.references))))
  {
    after := before;
    for m := 0 to |obj.references|
      invariant after.Keys == before.Keys
      invariant forall a, b :: a in after ==>
        (b in after[a] <==>
           b in before[a] || (b in before && ((a == obj.identity && b in obj.references[..m])
                                              || (b == obj.identity && a in obj.references[..m]))))
    {
      var reference := obj.references[m];
      assert obj.references[..m + 1] == obj.references[..m] + [reference];
      if reference in after {
        after := after[obj.identity := after[obj.identity] + {reference}];
        after := after[reference := after[reference] + {obj.identity}];
      }
    }
    assert obj.references[..|obj.references|] == obj.references;
  }

  /** The edges of the first `n` candidates, between candidates. */
  ghost predicate Records(candidates: seq<OwnerObject>, n: nat, ids: set<Identity>, neighbours: Graph)
    requires n <= |candidates|
  {
    && neighbours.Keys == ids
    && forall a, b :: a in neighbours ==>
         (b in neighbours[a] <==>
            b in ids && (ReferencesBefore(candidates, n, a, b) || ReferencesBefore(candidates, n, b, a)))
  }

  lemma ReferencesGrow(candidates: seq<OwnerObject>, n: nat, a: Identity, b: Identity)
    requires n < |candidates|
    ensures ReferencesBefore(candidates, n + 1, a, b) <==>
      ReferencesBefore(candidates, n, a, b) || (candidates[n].identity == a && b in candidates[n].references)
  {
  }

  lemma RecordsGrow(candidates: seq<OwnerObject>, n: nat, ids: set<Identity>, before: Graph, after: Graph)
    requires n < |candidates| && Records(candidates, n, ids, before) && after.Keys == ids
    requires var obj := candidates[n]; forall a, b :: a in after ==>
      (b in after[a] <==>
         b in before[a] || (b in before && ((a == obj.identity && b in obj.references)
                                            || (b == obj.identity && a in obj.references))))
    ensures Records(candidates, n + 1, ids, after)
  {
    forall a, b | a in after
      ensures b in after[a] <==>
        b in ids && (ReferencesBefore(candidates, n + 1, a, b) || ReferencesBefore(candidates, n + 1, b, a))
    {
      hide ReferencesBefore;
      ReferencesGrow(candidates, n, a, b);
      ReferencesGrow(candidates, n, b, a);
    }
  }

  lemma NothingRecorded(candidates: seq<OwnerObject>, neighbours: Graph)
    requires forall id | id in neighbours :: neighbours[id] == {}
    ensures Records(candidates, 0, neighbours.Keys, neighbours)
  {
  }

  lemma ListedIsCandidate(candidates: seq<OwnerObject>, n: nat)
    requires n < |candidates|
    ensures IsCandidate(candidates, candidates[n].identity)
  {
  }

  lemma AllRecorded(candidates: seq<OwnerObject>, ids: set<Identity>, neighbours: Graph)
    requires Records(candidates, |candidates|, ids, neighbours)
    requires forall id :: id in ids <==> IsCandidate(candidates, id)
    ensures forall a, b :: a in neighbours ==> (b in neighbours[a] <==> Adjacent(candidates, a, b))
  {
    hide ReferencesBefore;
  }

  /** Each candidate's neighbours among the candidates. */
  method Neighbours(candidates: seq<OwnerObject>) returns (neighbours: Graph)
    ensures forall id :: id in neighbours <==> IsCandidate(candidates, id)
    ensures forall a, b :: a in neighbours ==> (b in neighbours[a] <==> Adjacent(candidates, a, b))
  {
    hide Adjacent, IsCandidate, Records, ReferencesBefore, ObjectsOf;
    var objects := ObjectsOf(candidates);
    neighbours := map id | id in objects :: {};
    assert neighbours.Keys == objects.Keys;
    NothingRecorded(candidates, neighbours);
    for n := 0 to |candidates|
      invariant Records(candidates, n, objects.Keys, neighbours) && neighbours.Keys == objects.Keys
    {
      ghost var before := neighbours;
      ListedIsCandidate(candidates, n);
      neighbours := AddReferences(candidates[n], neighbours);
      RecordsGrow(candidates, n, objects.Keys, before, neighbours);
    }
    AllRecorded(candidates, objects.Keys, neighbours);
  }

  lemma Append(ids: seq<Identity>, id: Identity)
    ensures SetOf(ids + [id]) == SetOf(ids) + {id}
    ensures id !in SetOf(ids) && Distinct(ids) ==> Distinct(ids + [id])
  {
  }

  lemma Concatenate(xs: seq<Identity>, ys: seq<Identity>)
    ensures SetOf(xs + ys) == SetOf(xs) + SetOf(ys)
    ensures Distinct(xs) && Distinct(ys) && SetOf(xs) !! SetOf(ys) ==> Distinct(xs + ys)
  {
    if Distinct(xs) && Distinct(ys) && SetOf(xs) !! SetOf(ys) {
      forall i, j | 0 <= i < |xs| && 0 <= j < |ys| ensures xs[i] != ys[j] {
        assert xs[i] in SetOf(xs) && ys[j] in SetOf(ys);
      }
    }
  }

  lemma {:induction false} Least(ids: set<Identity>, digest: Identity -> int)
    requires ids != {}
    ensures exists id | id in ids :: forall other | other in ids :: digest(id) <= digest(other)
    decreases |ids|
  {
    var id :| id in ids;
    if ids - {id} == {} {
      assert ids == {id};
    } else {
      Least(ids - {id}, digest);
      var least :| least in ids - {id} && forall other | other in ids - {id} :: digest(least) <= digest(other);
      var low := if digest(id) <= digest(least) then id else least;
      assert low in ids && forall other | other in ids :: digest(low) <= digest(other);
    }
  }

  predicate DigestOrder(ids: seq<Identity>, digest: Identity -> int) {
    forall i, j | 0 <= i < j < |ids| :: digest(ids[i]) <= digest(ids[j])
  }

  lemma AppendLargest(ids: seq<Identity>, id: Identity, digest: Identity -> int)
    requires DigestOrder(ids, digest) && forall x | x in SetOf(ids) :: digest(x) <= digest(id)
    ensures DigestOrder(ids + [id], digest)
  {
    forall i | 0 <= i < |ids| ensures digest(ids[i]) <= digest(id) {
      assert ids[i] in SetOf(ids);
    }
  }

  /** No two of the identities have one digest. */
  predicate NoTies(ids: set<Identity>, digest: Identity -> int) {
    forall a, b | a in ids && b in ids && digest(a) == digest(b) :: a == b
  }

  /** The members of a set in increasing digest order. */
  ghost function OrderOf(ids: set<Identity>, digest: Identity -> int): seq<Identity>
    decreases |ids|
  {
    if ids == {} then []
    else
      Least(ids, digest);
      var id :| id in ids && forall other | other in ids :: digest(id) <= digest(other);
      [id] + OrderOf(ids - {id}, digest)
  }

  lemma OrderUnfolds(ids: set<Identity>, digest: Identity -> int, id: Identity)
    requires NoTies(ids, digest) && id in ids && forall other | other in ids :: digest(id) <= digest(other)
    ensures OrderOf(ids, digest) == [id] + OrderOf(ids - {id}, digest)
    ensures NoTies(ids - {id}, digest)
  {
  }

  /** The smallest ones so far, in order, and what remains of the only order. */
  ghost predicate SortedSoFar(ids: set<Identity>, digest: Identity -> int, ordered: seq<Identity>,
                              rest: set<Identity>) {
    && SetOf(ordered) !! rest && SetOf(ordered) + rest == ids && Distinct(ordered) && DigestOrder(ordered, digest)
    && (forall x, y | x in SetOf(ordered) && y in rest :: digest(x) <= digest(y))
    && (NoTies(ids, digest) ==> NoTies(rest, digest) && ordered + OrderOf(rest, digest) == OrderOf(ids, digest))
  }

  lemma NothingSorted(ids: set<Identity>, digest: Identity -> int)
    ensures SortedSoFar(ids, digest, [], ids)
  {
    assert [] + OrderOf(ids, digest) == OrderOf(ids, digest);
  }

  lemma SortedMore(ids: set<Identity>, digest: Identity -> int, ordered: seq<Identity>, rest: set<Identity>,
                   id: Identity)
    requires SortedSoFar(ids, digest, ordered, rest)
    requires id in rest && forall other | other in rest :: digest(id) <= digest(other)
    ensures SortedSoFar(ids, digest, ordered + [id], rest - {id})
  {
    hide SetOf, Distinct, DigestOrder, OrderOf, NoTies;
    Append(ordered, id);
    AppendLargest(ordered, id, digest);
    if NoTies(ids, digest) {
      OrderUnfolds(rest, digest, id);
      assert ordered + ([id] + OrderOf(rest - {id}, digest)) == ordered + [id] + OrderOf(rest - {id}, digest);
    }
  }

  lemma AllSorted(ids: set<Identity>, digest: Identity -> int, ordered: seq<Identity>)
    requires SortedSoFar(ids, digest, ordered, {})
    ensures SetOf(ordered) == ids && Distinct(ordered) && DigestOrder(ordered, digest)
    ensures NoTies(ids, digest) ==> ordered == OrderOf(ids, digest)
  {
    hide SetOf, Distinct, DigestOrder, NoTies;
    assert ordered + [] == ordered;
  }

  /** The members of a set in increasing digest order: the one such order without ties. */
  method Sorted(ids: set<Identity>, digest: Identity -> int) returns (ordered: seq<Identity>)
    ensures SetOf(ordered) == ids && Distinct(ordered) && DigestOrder(ordered, digest)
    ensures NoTies(ids, digest) ==> ordered == OrderOf(ids, digest)
  {
    hide *;
    var rest := ids;
    ordered := [];
    NothingSorted(ids, digest);
    while rest != {}
      invariant SortedSoFar(ids, digest, ordered, rest)
      decreases |rest|
    {
      Least(rest, digest);
      var id :| id in rest && forall other | other in rest :: digest(id) <= digest(other);
      SortedMore(ids, digest, ordered, rest, id);
      ordered := ordered + [id];
      rest := rest - {id};
    }
    AllSorted(ids, digest, ordered);
  }

  /** The first occurrences that were not seen before. */
  function Unseen(ordered: seq<Identity>, seen: set<Identity>): seq<Identity> {
    if ordered == [] then []
    else
      var last, rest := ordered[|ordered| - 1], ordered[..|ordered| - 1];
      Unseen(rest, seen) + if last in seen + SetOf(rest) then [] else [last]
  }

  lemma UnseenMore(ordered: seq<Identity>, seen: set<Identity>, n: nat)
    requires n < |ordered|
    ensures Unseen(ordered[..n + 1], seen) ==
            Unseen(ordered[..n], seen) + if ordered[n] in seen + SetOf(ordered[..n]) then [] else [ordered[n]]
    ensures SetOf(ordered[..n + 1]) == SetOf(ordered[..n]) + {ordered[n]}
  {
    assert ordered[..n + 1] == ordered[..n] + [ordered[n]];
  }

  lemma {:induction false} UnseenAreNew(ordered: seq<Identity>, seen: set<Identity>)
    ensures SetOf(Unseen(ordered, seen)) == SetOf(ordered) - seen && Distinct(Unseen(ordered, seen))
  {
    hide SetOf, Distinct;
    if ordered == [] {
      EmptyIsDistinct();
    } else {
      var last, rest := ordered[|ordered| - 1], ordered[..|ordered| - 1];
      UnseenAreNew(rest, seen);
      assert ordered == rest + [last] && Unseen(rest, seen) + [] == Unseen(rest, seen);
      Append(rest, last);
      Append(Unseen(rest, seen), last);
    }
  }

  lemma EmptyIsDistinct()
    ensures SetOf([]) == {} && Distinct([])
  {
  }

  /** Push the unseen ones, in order, marking them seen at once. */
  method PushUnseen(ordered: seq<Identity>, seen: set<Identity>) returns (pushed: seq<Identity>)
    ensures pushed == Unseen(ordered, seen)
    ensures SetOf(pushed) == SetOf(ordered) - seen && Distinct(pushed)
  {
    pushed := [];
    var marked := seen;
    for n := 0 to |ordered|
      invariant marked == seen + SetOf(ordered[..n]) && pushed == Unseen(ordered[..n], seen)
    {
      UnseenMore(ordered, seen, n);
      if ordered[n] !in marked {
        marked := marked + {ordered[n]};
        pushed := pushed + [ordered[n]];
      }
    }
    assert ordered[..|ordered|] == ordered;
    UnseenAreNew(ordered, seen);
  }

  /** The search state: everything seen is older, collected or waiting. */
  ghost predicate Searching(candidates: seq<OwnerObject>, start: Identity, before: set<Identity>,
                            group: seq<Identity>, pending: seq<Identity>) {
    && Distinct(group) && Distinct(pending) && SetOf(group) !! SetOf(pending)
    && SetOf(group) + SetOf(pending) !! before
    && (forall id | id in SetOf(group) + SetOf(pending) ::
        Connected(candidates, start, id) && IsCandidate(candidates, id))
    && (forall a, b | a in SetOf(group) && Adjacent(candidates, a, b) ::
          b in before + SetOf(group) + SetOf(pending))
  }

  lemma SearchStep(candidates: seq<OwnerObject>, start: Identity, before: set<Identity>,
                   group: seq<Identity>, pending: seq<Identity>, pushed: seq<Identity>, around: set<Identity>)
    requires pending != [] && Searching(candidates, start, before, group, pending)
    requires forall b :: b in around <==> Adjacent(candidates, pending[|pending| - 1], b)
    requires SetOf(pushed) == around - (before + SetOf(group) + SetOf(pending)) && Distinct(pushed)
    ensures Searching(candidates, start, before, group + [pending[|pending| - 1]], pending[..|pending| - 1] + pushed)
  {
    var id := pending[|pending| - 1];
    var rest := pending[..|pending| - 1];
    assert pending == rest + [id];
    Append(rest, id);
    assert id !in SetOf(rest);
    Append(group, id);
    Concatenate(rest, pushed);
    forall other | other in SetOf(pushed)
      ensures Connected(candidates, start, other) && IsCandidate(candidates, other)
    {
      assert id in SetOf(pending);
      Extend(candidates, start, id, other);
    }
  }

  lemma SearchStarts(candidates: seq<OwnerObject>, start: Identity, before: set<Identity>)
    requires IsCandidate(candidates, start) && start !in before
    ensures Searching(candidates, start, before, [], [start])
  {
    assert Path(candidates, [start]);
  }

  lemma SearchedAreCandidates(candidates: seq<OwnerObject>, start: Identity, before: set<Identity>,
                              group: seq<Identity>, pending: seq<Identity>, neighbours: Graph)
    requires Searching(candidates, start, before, group, pending) && pending != []
    requires forall id :: id in neighbours <==> IsCandidate(candidates, id)
    ensures pending[|pending| - 1] in neighbours && pending[|pending| - 1] !in SetOf(group)
  {
    hide IsCandidate, Connected, Adjacent;
    assert pending[|pending| - 1] in SetOf(pending);
  }

  lemma SearchIsApart(candidates: seq<OwnerObject>, start: Identity, before: set<Identity>, group: seq<Identity>)
    requires Searching(candidates, start, before, group, [])
    ensures Distinct(group) && SetOf(group) !! before
  {
    hide IsCandidate, Connected, Adjacent;
  }

  lemma SearchDone(candidates: seq<OwnerObject>, start: Identity, before: set<Identity>, group: seq<Identity>)
    requires Searching(candidates, start, before, group, []) && ClosedUnder(candidates, before)
    requires |group| > 0 && group[0] == start
    ensures forall id :: id in SetOf(group) <==> Connected(candidates, start, id)
    ensures ClosedUnder(candidates, before + SetOf(group))
  {
    assert start in SetOf(group);
    forall a, b | a in SetOf(group) && Adjacent(candidates, a, b) ensures b in SetOf(group) {
      assert Adjacent(candidates, b, a);
    }
    ClosedIsComponent(candidates, start, SetOf(group));
  }

  /** The depth-first search with one list of what is pending: take the last one, push
      its unseen neighbours in digest order. */
  ghost function Visit(neighbours: Graph, digest: Identity -> int, group: seq<Identity>, pending: seq<Identity>,
                       seen: set<Identity>): seq<Identity>
    decreases neighbours.Keys - SetOf(group)
  {
    if pending == [] then group
    else
      var id := pending[|pending| - 1];
      if id !in neighbours || id in SetOf(group) then group
      else
        var pushed := Unseen(OrderOf(neighbours[id], digest), seen);
        Append(group, id);
        Visit(neighbours, digest, group + [id], pending[..|pending| - 1] + pushed, seen + SetOf(pushed))
  }

  lemma VisitStep(neighbours: Graph, digest: Identity -> int, group: seq<Identity>, pending: seq<Identity>,
                  seen: set<Identity>, pushed: seq<Identity>)
    requires pending != [] && pending[|pending| - 1] in neighbours && pending[|pending| - 1] !in SetOf(group)
    requires pushed == Unseen(OrderOf(neighbours[pending[|pending| - 1]], digest), seen)
    ensures Visit(neighbours, digest, group, pending, seen) ==
            Visit(neighbours, digest, group + [pending[|pending| - 1]], pending[..|pending| - 1] + pushed,
                  seen + SetOf(pushed))
  {
  }

  lemma FewerTies(large: set<Identity>, small: set<Identity>, digest: Identity -> int)
    requires small <= large && NoTies(large, digest)
    ensures NoTies(small, digest)
  {
  }

  /** Depth-first search from one unseen candidate: exactly its component, once each. */
  method Collect(candidates: seq<OwnerObject>, neighbours: Graph, digest: Identity -> int,
                 start: Identity, before: set<Identity>) returns (group: seq<Identity>)
    requires forall id :: id in neighbours <==> IsCandidate(candidates, id)
    requires forall a, b :: a in neighbours ==> (b in neighbours[a] <==> Adjacent(candidates, a, b))
    requires start in neighbours && start !in before && ClosedUnder(candidates, before)
    ensures |group| > 0 && group[0] == start && Distinct(group) && SetOf(group) !! before
    ensures forall id :: id in SetOf(group) <==> Connected(candidates, start, id)
    ensures ClosedUnder(candidates, before + SetOf(group))
    ensures NoTies(neighbours.Keys, digest) ==> group == Visit(neighbours, digest, [], [start], before + {start})
  {
    hide Adjacent, Connected, IsCandidate, Distinct, Path, Searching, ClosedUnder, Visit, OrderOf, Unseen, NoTies;
    var seen, pending := before + {start}, [start];
    group := [];
    SearchStarts(candidates, start, before);
    while pending != []
      invariant Searching(candidates, start, before, group, pending)
      invariant seen == before + SetOf(group) + SetOf(pending)
      invariant if group == [] then pending == [start] else group[0] == start
      invariant NoTies(neighbours.Keys, digest) ==>
        Visit(neighbours, digest, group, pending, seen) == Visit(neighbours, digest, [], [start], before + {start})
      decreases neighbours.Keys - SetOf(group)
    {
      var id := pending[|pending| - 1];
      assert id in SetOf(pending);
      SearchedAreCandidates(candidates, start, before, group, pending, neighbours);
      var ordered := Sorted(neighbours[id], digest);
      var pushed := PushUnseen(ordered, seen);
      SearchStep(candidates, start, before, group, pending, pushed, neighbours[id]);
      if NoTies(neighbours.Keys, digest) {
        AroundAreCandidates(candidates, neighbours, id);
        FewerTies(neighbours.Keys, neighbours[id], digest);
        VisitStep(neighbours, digest, group, pending, seen, pushed);
      }
      Append(group, id);
      assert pending == pending[..|pending| - 1] + [id];
      Append(pending[..|pending| - 1], id);
      Concatenate(pending[..|pending| - 1], pushed);
      group, pending, seen := group + [id], pending[..|pending| - 1] + pushed, seen + SetOf(pushed);
    }
    SearchDone(candidates, start, before, group);
    SearchIsApart(candidates, start, before, group);
    VisitEnds(neighbours, digest, group, seen);
  }

  lemma VisitEnds(neighbours: Graph, digest: Identity -> int, group: seq<Identity>, seen: set<Identity>)
    ensures Visit(neighbours, digest, group, [], seen) == group
  {
  }

  lemma AroundAreCandidates(candidates: seq<OwnerObject>, neighbours: Graph, id: Identity)
    requires forall x :: x in neighbours <==> IsCandidate(candidates, x)
    requires forall a, b :: a in neighbours ==> (b in neighbours[a] <==> Adjacent(candidates, a, b))
    requires id in neighbours
    ensures neighbours[id] <= neighbours.Keys
  {
    hide References;
    forall b | b in neighbours[id] ensures b in neighbours {
      assert Adjacent(candidates, id, b);
    }
  }

  function Ids(group: seq<OwnerObject>): (ids: seq<Identity>)
    ensures |ids| == |group| && forall i | 0 <= i < |group| :: ids[i] == group[i].identity
  {
    seq(|group|, i requires 0 <= i < |group| => group[i].identity)
  }

  function Covered(groups: seq<seq<OwnerObject>>): set<Identity> {
    if groups == [] then {} else Covered(groups[..|groups| - 1]) + SetOf(Ids(groups[|groups| - 1]))
  }

  /** A group is one connected component, each member once. */
  ghost predicate IsComponent(candidates: seq<OwnerObject>, group: seq<OwnerObject>) {
    && |group| > 0 && Distinct(Ids(group))
    && (forall obj | obj in group ::
        obj.identity in ObjectsOf(candidates) && ObjectsOf(candidates)[obj.identity] == obj)
    && (forall id :: id in SetOf(Ids(group)) <==> Connected(candidates, group[0].identity, id))
  }

  /** The groups are exactly the components: each candidate in one group, once. */
  ghost predicate Components(candidates: seq<OwnerObject>, groups: seq<seq<OwnerObject>>) {
    && (forall i | 0 <= i < |groups| :: IsComponent(candidates, groups[i]))
    && (forall i, j | 0 <= i < j < |groups| :: SetOf(Ids(groups[i])) !! SetOf(Ids(groups[j])))
    && (forall id :: id in Covered(groups) <==> IsCandidate(candidates, id))
  }

  lemma {:induction false} InCovered(groups: seq<seq<OwnerObject>>, id: Identity)
    ensures id in Covered(groups) <==> exists i | 0 <= i < |groups| :: id in SetOf(Ids(groups[i]))
  {
    if groups != [] {
      var n := |groups| - 1;
      InCovered(groups[..n], id);
      if id in Covered(groups[..n]) {
        var i :| 0 <= i < n && id in SetOf(Ids(groups[..n][i]));
        assert id in SetOf(Ids(groups[i]));
      }
      if i :| 0 <= i < |groups| && id in SetOf(Ids(groups[i])) {
        if i < n {
          assert id in SetOf(Ids(groups[..n][i]));
        }
      }
    }
  }

  /** The components found so far. */
  ghost predicate Found(candidates: seq<OwnerObject>, groups: seq<seq<OwnerObject>>, seen: set<Identity>) {
    && seen == Covered(groups) && ClosedUnder(candidates, seen)
    && (forall i | 0 <= i < |groups| :: IsComponent(candidates, groups[i]))
    && (forall i, j | 0 <= i < j < |groups| :: SetOf(Ids(groups[i])) !! SetOf(Ids(groups[j])))
    && (forall id | id in seen :: IsCandidate(candidates, id))
  }

  lemma FoundOneMore(candidates: seq<OwnerObject>, groups: seq<seq<OwnerObject>>, seen: set<Identity>,
                     group: seq<OwnerObject>)
    requires Found(candidates, groups, seen) && IsComponent(candidates, group)
    requires SetOf(Ids(group)) !! seen && ClosedUnder(candidates, seen + SetOf(Ids(group)))
    ensures Found(candidates, groups + [group], seen + SetOf(Ids(group)))
  {
    forall i | 0 <= i < |groups| ensures SetOf(Ids(groups[i])) !! SetOf(Ids(group)) {
      forall id | id in SetOf(Ids(groups[i])) ensures id in seen {
        InCovered(groups, id);
      }
    }
    assert (groups + [group])[..|groups|] == groups;
    forall id | id in SetOf(Ids(group)) ensures IsCandidate(candidates, id) {
      var k :| 0 <= k < |group| && group[k].identity == id;
      assert group[k] in group;
    }
  }

  lemma FoundNone(candidates: seq<OwnerObject>)
    ensures Found(candidates, [], {})
  {
  }

  lemma FoundAll(candidates: seq<OwnerObject>, groups: seq<seq<OwnerObject>>, seen: set<Identity>)
    requires Found(candidates, groups, seen) && forall m | 0 <= m < |candidates| :: candidates[m].identity in seen
    ensures Components(candidates, groups)
  {
  }

  ghost function NeighboursOf(candidates: seq<OwnerObject>): Graph {
    var objects := ObjectsOf(candidates);
    map id | id in objects :: set other | other in objects && Adjacent(candidates, id, other)
  }

  lemma GraphIsOne(candidates: seq<OwnerObject>, neighbours: Graph)
    requires forall id :: id in neighbours <==> IsCandidate(candidates, id)
    requires forall a, b :: a in neighbours ==> (b in neighbours[a] <==> Adjacent(candidates, a, b))
    ensures neighbours == NeighboursOf(candidates) && neighbours.Keys == ObjectsOf(candidates).Keys
  {
    hide References, ObjectsOf;
    var graph := NeighboursOf(candidates);
    forall id | id in neighbours ensures neighbours[id] == graph[id] {
      assert forall other | other in neighbours[id] ::
        Adjacent(candidates, id, other) && IsCandidate(candidates, other);
    }
    assert neighbours == graph;
  }

  /** The collected identities, as objects. */
  function Gathered(objects: map<Identity, OwnerObject>, ids: seq<Identity>): seq<OwnerObject> {
    if ids == [] then []
    else
      var last := ids[|ids| - 1];
      Gathered(objects, ids[..|ids| - 1]) + if last in objects then [objects[last]] else []
  }

  lemma {:induction false} GatheredAll(objects: map<Identity, OwnerObject>, group: seq<OwnerObject>)
    requires forall obj | obj in group :: obj.identity in objects && objects[obj.identity] == obj
    ensures Gathered(objects, Ids(group)) == group
  {
    if group != [] {
      var n := |group| - 1;
      GatheredAll(objects, group[..n]);
      assert Ids(group)[..n] == Ids(group[..n]) && group[n] in group;
      assert group == group[..n] + [group[n]];
    }
  }

  /** The groups of the first candidates, and every identity they hold. */
  ghost function GroupsFrom(candidates: seq<OwnerObject>, digest: Identity -> int, n: nat)
      : (seq<seq<OwnerObject>>, set<Identity>)
    requires n <= |candidates|
  {
    if n == 0 then ([], {})
    else
      var (groups, seen) := GroupsFrom(candidates, digest, n - 1);
      var start := candidates[n - 1].identity;
      if start in seen then (groups, seen)
      else
        var ids := Visit(NeighboursOf(candidates), digest, [], [start], seen + {start});
        (groups + [Gathered(ObjectsOf(candidates), ids)], seen + SetOf(ids))
  }

  /** The groups that candidates have, whoever computes them and whenever. */
  ghost function GroupsOf(candidates: seq<OwnerObject>, digest: Identity -> int): seq<seq<OwnerObject>> {
    GroupsFrom(candidates, digest, |candidates|).0
  }

  /** No two candidates have one digest. */
  ghost predicate Told(candidates: seq<OwnerObject>, digest: Identity -> int) {
    NoTies(ObjectsOf(candidates).Keys, digest)
  }

  lemma GroupsFromNone(candidates: seq<OwnerObject>, digest: Identity -> int)
    ensures GroupsFrom(candidates, digest, 0) == ([], {})
  {
  }

  lemma GroupsFromMore(candidates: seq<OwnerObject>, digest: Identity -> int, n: nat)
    requires n < |candidates|
    ensures var (groups, seen) := GroupsFrom(candidates, digest, n);
            var start := candidates[n].identity;
            GroupsFrom(candidates, digest, n + 1) ==
              if start in seen then (groups, seen)
              else
                var ids := Visit(NeighboursOf(candidates), digest, [], [start], seen + {start});
                (groups + [Gathered(ObjectsOf(candidates), ids)], seen + SetOf(ids))
  {
    hide Visit, NeighboursOf, Gathered, ObjectsOf;
  }

  /** The connected groups of the candidates, in order of their first member. */
  method IndependentGroups(candidates: seq<OwnerObject>, digest: Identity -> int)
      returns (groups: seq<seq<OwnerObject>>)
    ensures Components(candidates, groups)
    ensures Told(candidates, digest) ==> groups == GroupsOf(candidates, digest)
  {
    hide Components, Found, Told, GroupsFrom, ObjectsOf, IsCandidate, Adjacent, NeighboursOf;
    var objects := ObjectsOf(candidates);
    var neighbours := Neighbours(candidates);
    GraphIsOne(candidates, neighbours);
    var seen := {};
    groups := [];
    FoundNone(candidates);
    GroupsFromNone(candidates, digest);
    for n := 0 to |candidates|
      invariant Found(candidates, groups, seen)
      invariant forall m | 0 <= m < n :: candidates[m].identity in seen
      invariant Told(candidates, digest) ==> (groups, seen) == GroupsFrom(candidates, digest, n)
    {
      GroupsFromMore(candidates, digest, n);
      if candidates[n].identity !in seen {
        groups, seen := NextGroup(candidates, objects, neighbours, digest, n, groups, seen);
      }
    }
    FoundAll(candidates, groups, seen);
  }

  /** Search from the next candidate that no group holds yet. */
  method NextGroup(candidates: seq<OwnerObject>, objects: map<Identity, OwnerObject>, neighbours: Graph,
                   digest: Identity -> int, n: nat, before: seq<seq<OwnerObject>>, seen: set<Identity>)
      returns (groups: seq<seq<OwnerObject>>, seen': set<Identity>)
    requires n < |candidates| && candidates[n].identity !in seen && objects == ObjectsOf(candidates)
    requires neighbours == NeighboursOf(candidates) && neighbours.Keys == ObjectsOf(candidates).Keys
    requires forall id :: id in neighbours <==> IsCandidate(candidates, id)
    requires forall a, b :: a in neighbours ==> (b in neighbours[a] <==> Adjacent(candidates, a, b))
    requires Found(candidates, before, seen)
    ensures Found(candidates, groups, seen') && candidates[n].identity in seen' && seen <= seen'
    ensures Told(candidates, digest) ==>
      var ids := Visit(NeighboursOf(candidates), digest, [], [candidates[n].identity], seen + {candidates[n].identity});
      groups == before + [Gathered(ObjectsOf(candidates), ids)] && seen' == seen + SetOf(ids)
  {
    hide Adjacent, Connected, Covered, ClosedUnder, ObjectsOf, Visit, NeighboursOf, NoTies, Gathered;
    assert IsCandidate(candidates, candidates[n].identity);
    var ids := Collect(candidates, neighbours, digest, candidates[n].identity, seen);
    assert ids[0] in SetOf(ids);
    var group := Lookup(candidates, objects, ids, candidates[n].identity);
    GatheredAll(objects, group);
    FoundOneMore(candidates, before, seen, group);
    groups, seen' := before + [group], seen + SetOf(ids);
  }

  /** The collected identities, as objects. */
  method Lookup(candidates: seq<OwnerObject>, objects: map<Identity, OwnerObject>, ids: seq<Identity>, start: Identity)
      returns (group: seq<OwnerObject>)
    requires objects == ObjectsOf(candidates) && |ids| > 0 && ids[0] == start && Distinct(ids)
    requires IsCandidate(candidates, start)
    requires forall id :: id in SetOf(ids) <==> Connected(candidates, start, id)
    ensures Ids(group) == ids && IsComponent(candidates, group)
  {
    forall i | 0 <= i < |ids| ensures ids[i] in objects {
      assert ids[i] in SetOf(ids);
      ReachedIsCandidate(candidates, start, ids[i]);
    }
    group := seq(|ids|, i requires 0 <= i < |ids| && ids[i] in objects => objects[ids[i]]);
    assert Ids(group) == ids;
  }

  lemma ReachedIsCandidate(candidates: seq<OwnerObject>, start: Identity, id: Identity)
    requires Connected(candidates, start, id)
    ensures IsCandidate(candidates, id)
  {
    var path :| Path(candidates, path) && path[0] == start && path[|path| - 1] == id;
    if |path| > 1 {
      assert Adjacent(candidates, path[|path| - 2], path[|path| - 2 + 1]);
    }
  }

  /** No reference, in either direction, joins two groups. */
  lemma NoEdgeCrossesGroups(candidates: seq<OwnerObject>, groups: seq<seq<OwnerObject>>, i: nat, x: Identity,
                            y: Identity)
    requires Components(candidates, groups) && i < |groups| && x in SetOf(Ids(groups[i]))
    requires Adjacent(candidates, x, y)
    ensures y in SetOf(Ids(groups[i]))
  {
    assert IsComponent(candidates, groups[i]);
    Extend(candidates, groups[i][0].identity, x, y);
  }
}
