/**
 * build_json of Matrix/rebuild_column_hierarchy.py: every code occurring in a
 * (target, source) relationship gets an entry; the target lists the plain source (it
 * pulls from it) and the source lists the target tagged as `{target}-root({target})`.
 * The entries are written ascending by code, each list sorted. The relationships come
 * from the column scan both matrix scripts share.
 */
module ColumnHierarchy {
  import opened Strings
  import opened SortedStrings
  import opened PyCodes
  import opened ColumnScan
  import opened Seqs

  /** The codes occurring in some relationship, at either end. */
  function CodesOf(rels: set<Pair>): set<string> {
    (set p | p in rels :: p.0) + (set p | p in rels :: p.1)
  }

  /** The `linked_criteria` of `x`: its plain sources and its tagged targets. */
  function LinksOf(rels: set<Pair>, x: string): set<string> {
    (set p | p in rels && p.0 == x :: p.1) + (set p | p in rels && p.1 == x :: Tag(p.0))
  }

  /** The sets once the relationships in `done` have been added. */
  ghost predicate Filled(done: set<Pair>, linked: map<string, set<string>>) {
    && linked.Keys == CodesOf(done)
    && forall x :: x in linked ==> linked[x] == LinksOf(done, x)
  }

  /** One more relationship adds its two codes and one link at each end. */
  lemma AddOne(done: set<Pair>, p: Pair)
    ensures CodesOf(done + {p}) == CodesOf(done) + {p.0, p.1}
    ensures forall x :: LinksOf(done + {p}, x) ==
              LinksOf(done, x) + (if x == p.0 then {p.1} else {}) + (if x == p.1 then {Tag(p.0)} else {})
  {
  }

  /** A code outside every relationship has no links. */
  lemma NoLinksOutside(done: set<Pair>, x: string)
    requires x !in CodesOf(done)
    ensures LinksOf(done, x) == {}
  {
  }

  /** A map grown by one relationship, entry by entry, is filled with one more relationship. */
  lemma Grown(done: set<Pair>, p: Pair, linked0: map<string, set<string>>, linked: map<string, set<string>>)
    requires Filled(done, linked0)
    requires linked.Keys == linked0.Keys + {p.0, p.1}
    requires forall x :: x in linked ==>
               linked[x] == (if x in linked0 then linked0[x] else {})
                            + (if x == p.0 then {p.1} else {}) + (if x == p.1 then {Tag(p.0)} else {})
    ensures Filled(done + {p}, linked)
  {
    AddOne(done, p);
    forall x | x in linked && x !in linked0
      ensures LinksOf(done, x) == {}
    {
      NoLinksOutside(done, x);
    }
  }

  /**
   * Creating empty entries for `t` and `s` where missing (`base`), then adding `v` at `t`
   * (`mid`) and `w` at `s`, adds `v` and `w` to what each entry held.
   */
  lemma TwoInserts(m0: map<string, set<string>>, t: string, s: string, v: string, w: string,
                   base: map<string, set<string>>, mid: map<string, set<string>>, m: map<string, set<string>>)
    requires base.Keys == m0.Keys + {t, s}
    requires forall x :: x in base ==> base[x] == if x in m0 then m0[x] else {}
    requires mid == base[t := base[t] + {v}]
    requires m == mid[s := mid[s] + {w}]
    ensures m.Keys == m0.Keys + {t, s}
    ensures forall x :: x in m ==>
              m[x] == (if x in m0 then m0[x] else {}) + (if x == t then {v} else {}) + (if x == s then {w} else {})
  {
  }

  /** The body of the relationship loop: create missing entries, then add both links. */
  method AddPair(ghost done: set<Pair>, p: Pair, linked0: map<string, set<string>>)
    returns (linked: map<string, set<string>>)
    requires Filled(done, linked0)
    ensures Filled(done + {p}, linked)
  {
    var (target, source) := p;
    linked := linked0;
    if target !in linked {
      linked := linked[target := {}];
    }
    if source !in linked {
      linked := linked[source := {}];
    }
    ghost var base := linked;
    linked := linked[target := linked[target] + {source}];
    ghost var mid := linked;
    linked := linked[source := linked[source] + {Tag(target)}];
    TwoInserts(linked0, target, source, source, Tag(target), base, mid, linked);
    Grown(done, p, linked0, linked);
  }

  /** An entry of the output: a code and its sorted `linked_criteria`. */
  datatype HierarchyEntry = HierarchyEntry(criteria: string, linkedCriteria: seq<string>)

  /** The codes of the output, in order. */
  function CriteriaOf(results: seq<HierarchyEntry>): (cs: seq<string>)
    ensures |cs| == |results|
    ensures forall k :: 0 <= k < |results| ==> cs[k] == results[k].criteria
  {
    seq(|results|, k requires 0 <= k < |results| => results[k].criteria)
  }

  /** The relationship loop of build_json: the links of every code of a relationship. */
  method LinkSets(relationships: set<Pair>) returns (linked: map<string, set<string>>)
    ensures Filled(relationships, linked)
  {
    linked := map[];
    var rest := relationships;
    while rest != {}
      invariant rest <= relationships
      invariant Filled(relationships - rest, linked)
      decreases |rest|
    {
      var p :| p in rest;
      linked := AddPair(relationships - rest, p, linked);
      assert (relationships - rest) + {p} == relationships - (rest - {p});
      RemoveShrinks(rest, p);
      rest := rest - {p};
    }
    assert relationships - rest == relationships;
  }

  /**
   * build_json: one entry per code of a relationship, ascending by code, whose sorted
   * list holds exactly its plain sources and its tagged targets.
   */
  method BuildJson(relationships: set<Pair>) returns (results: seq<HierarchyEntry>)
    ensures StrictlySorted(CriteriaOf(results))
    ensures Members(CriteriaOf(results)) == CodesOf(relationships)
    ensures forall e :: e in results ==>
              StrictlySorted(e.linkedCriteria) && Members(e.linkedCriteria) == LinksOf(relationships, e.criteria)
  {
    var linked := LinkSets(relationships);
    var keys := SortSet(linked.Keys);
    results := [];
    for k := 0 to |keys|
      invariant CriteriaOf(results) == keys[..k]
      invariant forall e :: e in results ==>
                  e.criteria in linked && StrictlySorted(e.linkedCriteria) && Members(e.linkedCriteria) == linked[e.criteria]
    {
      var cid := keys[k];
      var l := SortSet(linked[cid]);
      assert CriteriaOf(results + [HierarchyEntry(cid, l)]) == keys[..k + 1];
      results := results + [HierarchyEntry(cid, l)];
    }
    assert keys[..|keys|] == keys;
  }

  /** A target lists its source plainly, and the source lists the target tagged. */
  lemma BothDirections(rels: set<Pair>, target: string, source: string)
    requires (target, source) in rels
    ensures source in LinksOf(rels, target) && Tag(target) in LinksOf(rels, source)
    ensures target in CodesOf(rels) && source in CodesOf(rels)
  {
  }

  /** Every entry written has at least one link. */
  lemma EntriesNonEmpty(rels: set<Pair>, x: string)
    requires x in CodesOf(rels)
    ensures LinksOf(rels, x) != {}
  {
    if p :| p in rels && p.0 == x {
      assert p.1 in LinksOf(rels, x);
    } else {
      var p :| p in rels && p.1 == x;
      assert Tag(p.0) in LinksOf(rels, x);
    }
  }
}
