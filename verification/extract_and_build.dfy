/**
 * build_schema of Matrix/extract_and_build.py: from the (target, source) relationships
 * found by the column scan, every valid criterion gets a `linked_criteria` set (the
 * sources it pulls from) and a `root` set (the targets that pull from it); self links
 * are dropped, and of two criteria linking each other the one visited first keeps its
 * link. The result lists the criteria with any link, sorted, with sorted lists.
 *
 * The cleanup visits the criteria in the iteration order of a Python set, which the
 * language leaves unspecified; it is the parameter `order` (every valid id once), and
 * which side of a mutual pair survives depends on it.
 */
module ExtractAndBuild {
  import opened Strings
  import opened Seqs
  import opened SortedStrings
  import opened ColumnScan

  /** Position of `x` in `order`; `|order|` when it is absent. */
  function IndexIn(order: seq<string>, x: string): (k: nat)
    ensures k <= |order|
    ensures x in order ==> k < |order| && order[k] == x
    ensures x !in order ==> k == |order|
  {
    if order == [] then 0
    else if order[0] == x then 0
    else 1 + IndexIn(order[1..], x)
  }

  /** In an order without repeats, the code at a position has that position. */
  lemma IndexInAt(order: seq<string>, k: nat)
    requires NoDup(order) && k < |order|
    ensures IndexIn(order, order[k]) == k
  {
  }

  /**
   * Whether the link `x -> y` is still present after the cleanup has visited the first
   * `i` codes of `order`: it was recorded, it is not a self link of a visited code, and
   * it is not the back half of a mutual pair whose other end was visited first.
   */
  predicate KeptAt(rels: set<Pair>, order: seq<string>, i: nat, x: string, y: string) {
    && (x, y) in rels
    && !(y == x && IndexIn(order, x) < i)
    && !(y != x && (y, x) in rels && IndexIn(order, y) < i && IndexIn(order, y) < IndexIn(order, x))
  }

  /** A link that survives the whole cleanup. */
  predicate Kept(rels: set<Pair>, order: seq<string>, x: string, y: string) {
    && (x, y) in rels
    && y != x
    && !((y, x) in rels && IndexIn(order, y) < IndexIn(order, x))
  }

  /** The final `linked_criteria` of `x`. */
  function FinalLinked(rels: set<Pair>, validIds: set<string>, order: seq<string>, x: string): set<string> {
    set y | y in validIds && Kept(rels, order, x, y)
  }

  /** The final `root` of `x`: the criteria whose final links include `x`. */
  function FinalRoot(rels: set<Pair>, validIds: set<string>, order: seq<string>, x: string): set<string> {
    set t | t in validIds && Kept(rels, order, t, x)
  }

  /** The per-criterion sets after the cleanup has visited the first `i` codes of `order`. */
  predicate StateAt(rels: set<Pair>, validIds: set<string>, order: seq<string>, i: nat,
                    root: map<string, set<string>>, linked: map<string, set<string>>) {
    && root.Keys == validIds && linked.Keys == validIds
    && (forall x :: x in validIds ==> linked[x] <= validIds && root[x] <= validIds)
    && (forall x, y :: x in validIds && y in validIds ==> (y in linked[x] <==> KeptAt(rels, order, i, x, y)))
    && (forall x, t :: x in validIds && t in validIds ==> (t in root[x] <==> x in linked[t]))
  }

  /** The inputs build_schema relies on: relationships between valid codes, and a visiting order. */
  ghost predicate WellFormed(rels: set<Pair>, validIds: set<string>, order: seq<string>) {
    && (forall p :: p in rels ==> p.0 in validIds && p.1 in validIds)
    && NoDup(order)
    && (forall x :: x in order <==> x in validIds)
  }

  /** The first loop: an empty `root` and `linked_criteria` set for every valid code. */
  method EmptySets(validIds: set<string>, order: seq<string>)
    returns (root: map<string, set<string>>, linked: map<string, set<string>>)
    requires forall x :: x in order <==> x in validIds
    ensures root.Keys == validIds && linked.Keys == validIds
    ensures forall x :: x in validIds ==> root[x] == {} && linked[x] == {}
  {
    root, linked := map[], map[];
    for i := 0 to |order|
      invariant root.Keys == linked.Keys == set x | x in order[..i]
      invariant forall x :: x in root ==> root[x] == {} && linked[x] == {}
    {
      assert order[..i + 1] == order[..i] + [order[i]];
      root := root[order[i] := {}];
      linked := linked[order[i] := {}];
    }
    assert order[..|order|] == order;
  }

  /** The sets once the relationships outside `rest` have been added. */
  ghost predicate Adding(rels: set<Pair>, validIds: set<string>, rest: set<Pair>,
                         root: map<string, set<string>>, linked: map<string, set<string>>) {
    && rest <= rels
    && root.Keys == validIds && linked.Keys == validIds
    && (forall x :: x in validIds ==> linked[x] <= validIds && root[x] <= validIds)
    && (forall x, y :: x in validIds && y in validIds ==> (y in linked[x] <==> (x, y) in rels && (x, y) !in rest))
    && (forall x, t :: x in validIds && t in validIds ==> (t in root[x] <==> x in linked[t]))
  }

  /** The body of the second loop: `linked[target].add(source)` and `root[source].add(target)`. */
  method AddPair(ghost rels: set<Pair>, ghost validIds: set<string>, ghost rest: set<Pair>, p: Pair,
                 root0: map<string, set<string>>, linked0: map<string, set<string>>)
    returns (root: map<string, set<string>>, linked: map<string, set<string>>)
    requires forall q :: q in rels ==> q.0 in validIds && q.1 in validIds
    requires Adding(rels, validIds, rest, root0, linked0) && p in rest
    ensures Adding(rels, validIds, rest - {p}, root, linked)
  {
    var (target, source) := p;
    linked := linked0[target := linked0[target] + {source}];
    root := root0[source := root0[source] + {target}];
  }

  /** The first two loops: an empty entry per valid code, then every relationship in both directions. */
  method AddRelationships(rels: set<Pair>, validIds: set<string>, order: seq<string>)
    returns (root: map<string, set<string>>, linked: map<string, set<string>>)
    requires WellFormed(rels, validIds, order)
    ensures StateAt(rels, validIds, order, 0, root, linked)
  {
    root, linked := EmptySets(validIds, order);
    AddingStart(rels, validIds, root, linked);
    var rest := rels;
    while rest != {}
      invariant Adding(rels, validIds, rest, root, linked)
      decreases |rest|
    {
      var p :| p in rest;
      root, linked := AddPair(rels, validIds, rest, p, root, linked);
      RemoveShrinks(rest, p);
      rest := rest - {p};
    }
    AddingDone(rels, validIds, order, root, linked);
  }

  /** Empty sets for every valid code: nothing added yet. */
  lemma AddingStart(rels: set<Pair>, validIds: set<string>, root: map<string, set<string>>, linked: map<string, set<string>>)
    requires root.Keys == validIds && linked.Keys == validIds
    requires forall x :: x in validIds ==> root[x] == {} && linked[x] == {}
    ensures Adding(rels, validIds, rels, root, linked)
  {
  }

  /** Every relationship added: the state before the cleanup visits any code. */
  lemma AddingDone(rels: set<Pair>, validIds: set<string>, order: seq<string>,
                   root: map<string, set<string>>, linked: map<string, set<string>>)
    requires Adding(rels, validIds, {}, root, linked)
    ensures StateAt(rels, validIds, order, 0, root, linked)
  {
  }

  /**
   * The sets while the cleanup visits `cid`: its self link is gone, its own links are
   * `snapshot`, and the back links to `cid` of the sources visited so far (those of
   * `snapshot` no longer in `srcs`) are gone.
   */
  ghost predicate Visiting(rels: set<Pair>, validIds: set<string>, order: seq<string>, i: nat, cid: string,
                           snapshot: set<string>, srcs: set<string>,
                           root: map<string, set<string>>, linked: map<string, set<string>>) {
    && cid in validIds
    && srcs <= snapshot
    && root.Keys == validIds && linked.Keys == validIds
    && (forall x :: x in validIds ==> linked[x] <= validIds && root[x] <= validIds)
    && linked[cid] == snapshot
    && (forall x, y :: x in validIds && y in validIds ==>
          (y in linked[x] <==> KeptAt(rels, order, i, x, y) && !(x == cid && y == cid) && !(y == cid && x in snapshot && x !in srcs)))
    && (forall x, t :: x in validIds && t in validIds ==> (t in root[x] <==> x in linked[t]))
  }

  /** Dropping the self link of `order[i]` starts its visit. */
  lemma DropSelf(rels: set<Pair>, validIds: set<string>, order: seq<string>, i: nat,
                 root: map<string, set<string>>, linked: map<string, set<string>>)
    requires WellFormed(rels, validIds, order) && i < |order|
    requires StateAt(rels, validIds, order, i, root, linked)
    ensures Visiting(rels, validIds, order, i, order[i], linked[order[i]] - {order[i]}, linked[order[i]] - {order[i]},
                     root[order[i] := root[order[i]] - {order[i]}], linked[order[i] := linked[order[i]] - {order[i]}])
  {
  }

  /** Visiting one more source of `cid` drops its back link to `cid`, if it has one. */
  lemma VisitSource(rels: set<Pair>, validIds: set<string>, order: seq<string>, i: nat, cid: string,
                    snapshot: set<string>, srcs: set<string>, src: string,
                    root: map<string, set<string>>, linked: map<string, set<string>>)
    requires Visiting(rels, validIds, order, i, cid, snapshot, srcs, root, linked)
    requires src in srcs
    ensures cid in linked[src] ==>
              Visiting(rels, validIds, order, i, cid, snapshot, srcs - {src},
                       root[cid := root[cid] - {src}], linked[src := linked[src] - {cid}])
    ensures cid !in linked[src] ==> Visiting(rels, validIds, order, i, cid, snapshot, srcs - {src}, root, linked)
  {
  }

  /** A finished visit of `order[i]` is the state after `i + 1` visits. */
  lemma FinishVisit(rels: set<Pair>, validIds: set<string>, order: seq<string>, i: nat, snapshot: set<string>,
                    root: map<string, set<string>>, linked: map<string, set<string>>)
    requires WellFormed(rels, validIds, order) && i < |order|
    requires Visiting(rels, validIds, order, i, order[i], snapshot, {}, root, linked)
    ensures StateAt(rels, validIds, order, i + 1, root, linked)
  {
    var cid := order[i];
    IndexInAt(order, i);
    forall x, y | x in validIds && y in validIds
      ensures KeptAt(rels, order, i + 1, x, y) <==>
                KeptAt(rels, order, i, x, y) && !(x == cid && y == cid) && !(y == cid && x in snapshot)
    {
      if x != cid {
        assert order[IndexIn(order, x)] == x;
      }
      if y != cid {
        assert order[IndexIn(order, y)] == y;
      }
    }
  }

  /** Removing an absent member changes nothing. */
  lemma RemoveAbsent(m: map<string, set<string>>, k: string, v: string)
    requires k in m && v !in m[k]
    ensures m[k := m[k] - {v}] == m
  {
    assert m[k] - {v} == m[k];
  }

  /**
   * The body of the inner loop: when `src` still links back to `cid`, drop that link
   * and `src` from the roots of `cid`.
   */
  method VisitStep(ghost rels: set<Pair>, ghost validIds: set<string>, ghost order: seq<string>, ghost i: nat,
                   cid: string, ghost snapshot: set<string>, ghost srcs: set<string>, src: string,
                   root0: map<string, set<string>>, linked0: map<string, set<string>>)
    returns (root: map<string, set<string>>, linked: map<string, set<string>>)
    requires Visiting(rels, validIds, order, i, cid, snapshot, srcs, root0, linked0)
    requires src in srcs
    ensures Visiting(rels, validIds, order, i, cid, snapshot, srcs - {src}, root, linked)
  {
    root, linked := root0, linked0;
    VisitSource(rels, validIds, order, i, cid, snapshot, srcs, src, root, linked);
    if src in linked && cid in linked[src] {
      linked := linked[src := linked[src] - {cid}];
      if src in root[cid] {
        root := root[cid := root[cid] - {src}];
      } else {
        RemoveAbsent(root, cid, src);
      }
    }
  }

  /** One round of the cleanup, for the code at position `i` of `order`. */
  method CleanupStep(ghost rels: set<Pair>, ghost validIds: set<string>, order: seq<string>, i: nat,
                     root0: map<string, set<string>>, linked0: map<string, set<string>>)
    returns (root: map<string, set<string>>, linked: map<string, set<string>>)
    requires WellFormed(rels, validIds, order) && i < |order|
    requires StateAt(rels, validIds, order, i, root0, linked0)
    ensures StateAt(rels, validIds, order, i + 1, root, linked)
  {
    root, linked := root0, linked0;
    var cid := order[i];
    DropSelf(rels, validIds, order, i, root, linked);
    if cid in root[cid] {
      root := root[cid := root[cid] - {cid}];
    } else {
      RemoveAbsent(root, cid, cid);
    }
    if cid in linked[cid] {
      linked := linked[cid := linked[cid] - {cid}];
    } else {
      RemoveAbsent(linked, cid, cid);
    }
    var snapshot := linked[cid];
    var srcs := snapshot;
    while srcs != {}
      invariant Visiting(rels, validIds, order, i, cid, snapshot, srcs, root, linked)
      decreases |srcs|
    {
      var src :| src in srcs;
      root, linked := VisitStep(rels, validIds, order, i, cid, snapshot, srcs, src, root, linked);
      RemoveShrinks(srcs, src);
      srcs := srcs - {src};
    }
    FinishVisit(rels, validIds, order, i, snapshot, root, linked);
  }

  /** A criterion of the output: its code and its sorted `root` and `linked_criteria` lists. */
  datatype SchemaEntry = SchemaEntry(criteria: string, root: seq<string>, linkedCriteria: seq<string>)

  /** The codes of the output, in order. */
  function CriteriaOf(results: seq<SchemaEntry>): (cs: seq<string>)
    ensures |cs| == |results|
    ensures forall k :: 0 <= k < |results| ==> cs[k] == results[k].criteria
  {
    seq(|results|, k requires 0 <= k < |results| => results[k].criteria)
  }

  /** The last loop: the criteria with a link, by code, with sorted lists. */
  method Collect(root: map<string, set<string>>, linked: map<string, set<string>>)
    returns (results: seq<SchemaEntry>)
    requires root.Keys == linked.Keys
    ensures StrictlySorted(CriteriaOf(results))
    ensures forall x :: x in CriteriaOf(results) <==> x in linked && (root[x] != {} || linked[x] != {})
    ensures forall e :: e in results ==>
              && e.criteria in linked
              && StrictlySorted(e.linkedCriteria) && Members(e.linkedCriteria) == linked[e.criteria]
              && StrictlySorted(e.root) && Members(e.root) == root[e.criteria]
  {
    var keys := SortSet(linked.Keys);
    results := [];
    for k := 0 to |keys|
      invariant StrictlySorted(CriteriaOf(results))
      invariant forall c :: c in CriteriaOf(results) ==> c in keys[..k]
      invariant forall x :: x in keys[..k] ==> (x in CriteriaOf(results) <==> root[x] != {} || linked[x] != {})
      invariant forall e :: e in results ==>
                  && e.criteria in linked
                  && StrictlySorted(e.linkedCriteria) && Members(e.linkedCriteria) == linked[e.criteria]
                  && StrictlySorted(e.root) && Members(e.root) == root[e.criteria]
    {
      var cid := keys[k];
      assert keys[..k + 1] == keys[..k] + [cid];
      if root[cid] != {} || linked[cid] != {} {
        var r := SortSet(root[cid]);
        var l := SortSet(linked[cid]);
        forall c | c in CriteriaOf(results) ensures LexLess(c, cid) {
          var j :| 0 <= j < k && keys[j] == c;
        }
        assert CriteriaOf(results + [SchemaEntry(cid, r, l)]) == CriteriaOf(results) + [cid];
        results := results + [SchemaEntry(cid, r, l)];
      }
    }
    assert keys[..|keys|] == keys;
  }

  /** After the last visit every set is its final value. */
  lemma FinalState(rels: set<Pair>, validIds: set<string>, order: seq<string>,
                   root: map<string, set<string>>, linked: map<string, set<string>>)
    requires WellFormed(rels, validIds, order)
    requires StateAt(rels, validIds, order, |order|, root, linked)
    ensures forall x :: x in validIds ==> linked[x] == FinalLinked(rels, validIds, order, x)
    ensures forall x :: x in validIds ==> root[x] == FinalRoot(rels, validIds, order, x)
  {
    forall x, y | x in validIds && y in validIds
      ensures KeptAt(rels, order, |order|, x, y) <==> Kept(rels, order, x, y)
    {
    }
  }

  /**
   * build_schema: the criteria with a link after the cleanup, ascending by code, each
   * with its final `root` and `linked_criteria` as sorted lists.
   */
  method BuildSchema(relationships: set<Pair>, validIds: set<string>, order: seq<string>)
    returns (results: seq<SchemaEntry>)
    requires WellFormed(relationships, validIds, order)
    ensures StrictlySorted(CriteriaOf(results))
    ensures forall x :: x in CriteriaOf(results) <==>
              x in validIds && (FinalLinked(relationships, validIds, order, x) != {} || FinalRoot(relationships, validIds, order, x) != {})
    ensures forall e :: e in results ==>
              && StrictlySorted(e.linkedCriteria) && Members(e.linkedCriteria) == FinalLinked(relationships, validIds, order, e.criteria)
              && StrictlySorted(e.root) && Members(e.root) == FinalRoot(relationships, validIds, order, e.criteria)
  {
    var root, linked := AddRelationships(relationships, validIds, order);
    for i := 0 to |order|
      invariant StateAt(relationships, validIds, order, i, root, linked)
    {
      root, linked := CleanupStep(relationships, validIds, order, i, root, linked);
    }
    FinalState(relationships, validIds, order, root, linked);
    results := Collect(root, linked);
  }

  /** No criterion links to itself. */
  lemma NoSelfLinks(rels: set<Pair>, validIds: set<string>, order: seq<string>, x: string)
    ensures x !in FinalLinked(rels, validIds, order, x) && x !in FinalRoot(rels, validIds, order, x)
  {
  }

  /** No two criteria link to each other. */
  lemma NoMutualLinks(rels: set<Pair>, validIds: set<string>, order: seq<string>, x: string, y: string)
    requires WellFormed(rels, validIds, order)
    ensures !(y in FinalLinked(rels, validIds, order, x) && x in FinalLinked(rels, validIds, order, y))
  {
    if x in validIds && y in validIds && x != y {
      assert order[IndexIn(order, x)] == x && order[IndexIn(order, y)] == y;
    }
  }

  /** Of two criteria that recorded links to each other, exactly the one visited first keeps its link. */
  lemma MutualPairKeepsFirst(rels: set<Pair>, validIds: set<string>, order: seq<string>, x: string, y: string)
    requires WellFormed(rels, validIds, order)
    requires (x, y) in rels && (y, x) in rels && x != y
    ensures y in FinalLinked(rels, validIds, order, x) <==> IndexIn(order, x) < IndexIn(order, y)
    ensures y in FinalLinked(rels, validIds, order, x) || x in FinalLinked(rels, validIds, order, y)
  {
    assert order[IndexIn(order, x)] == x && order[IndexIn(order, y)] == y;
  }

  /** A recorded link that is neither a self link nor half of a mutual pair survives. */
  lemma OneWayLinkKept(rels: set<Pair>, validIds: set<string>, order: seq<string>, x: string, y: string)
    requires WellFormed(rels, validIds, order)
    requires (x, y) in rels && (y, x) !in rels && x != y
    ensures y in FinalLinked(rels, validIds, order, x) && x in FinalRoot(rels, validIds, order, y)
  {
  }

  /** `x` is in the links of `y` exactly when `y` is in the roots of `x`. */
  lemma RootLinkedSymmetric(rels: set<Pair>, validIds: set<string>, order: seq<string>, x: string, y: string)
    requires x in validIds && y in validIds
    ensures x in FinalLinked(rels, validIds, order, y) <==> y in FinalRoot(rels, validIds, order, x)
  {
  }
}
