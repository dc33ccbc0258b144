/** The two vertex <-> module relations the simulator walks over, one per clustering.
    Each one is a bimap: a forward view from a vertex to the set of its modules, kept in
    iteration order, and a backward view from a module to the range of its member vertices.
    Neither view is assumed sorted or free of repeats unless a lemma says so. */
module Representants {

  type Vertex = nat
  type Module = nat

  predicate Distinct<T(==)>(s: seq<T>) {
    forall i, j :: 0 <= i < j < |s| ==> s[i] != s[j]
  }

  /** One clustering. A vertex missing from `forward` has no modules; a module missing from
      `backward` has an empty member range. */
  datatype Clustering = Clustering(forward: map<Vertex, seq<Module>>, backward: map<Module, seq<Vertex>>)
  {
    /** The module set of `v`, in the set's iteration order (nothing here depends on that
        order being sorted). */
    function ModulesOf(v: Vertex): seq<Module> {
      if v in forward then forward[v] else []
    }

    /** The backward range of `m` (the equal_range of the bimap's right view). */
    function MembersOf(m: Module): seq<Vertex> {
      if m in backward then backward[m] else []
    }

    /** The forward view lists `m` among the modules of `v`. */
    predicate Lists(v: Vertex, m: Module) {
      m in ModulesOf(v)
    }

    /** The backward range of `m` holds `v`. */
    predicate Holds(m: Module, v: Vertex) {
      v in MembersOf(m)
    }

    /** Both views describe one relation. */
    ghost predicate Valid() {
      forall v: Vertex, m: Module :: Lists(v, m) <==> Holds(m, v)
    }

    /** No vertex is listed twice in a backward range. */
    ghost predicate DistinctRanges() {
      forall m: Module :: m in backward ==> Distinct(backward[m])
    }
  }

  /** A module of a vertex has a non-empty backward range that holds the vertex. */
  lemma ModuleHasMembers(c: Clustering, v: Vertex, m: Module)
    requires c.Valid()
    requires m in c.ModulesOf(v)
    ensures v in c.MembersOf(m) && |c.MembersOf(m)| > 0
  {
    assert c.Lists(v, m);
  }

  /** A member of a module has that module among its own. */
  lemma MemberHasModule(c: Clustering, m: Module, v: Vertex)
    requires c.Valid()
    requires v in c.MembersOf(m)
    ensures m in c.ModulesOf(v)
  {
    assert c.Holds(m, v);
  }

  /** The pair of relations the simulator compares (`two_relations_ref`). */
  datatype TwoRelations = TwoRelations(first: Clustering, second: Clustering)
  {
    ghost predicate Valid() {
      first.Valid() && second.Valid()
    }

    /** The relation of clustering 1 when `isFirst`, else that of clustering 2. */
    function Side(isFirst: bool): Clustering {
      if isFirst then first else second
    }
  }

  /** The forward lookup `gecmi::get_modules`: the module sets of `v` in both clusterings. */
  function LookupModules(rel: TwoRelations, v: Vertex): (sets: (seq<Module>, seq<Module>))
  {
    (rel.first.ModulesOf(v), rel.second.ModulesOf(v))
  }

  /** Each looked-up set holds exactly the modules whose backward range lists the vertex. */
  lemma LookupModulesMembers(rel: TwoRelations, v: Vertex)
    requires rel.Valid()
    ensures forall m: Module :: m in LookupModules(rel, v).0 <==> v in rel.first.MembersOf(m)
    ensures forall m: Module :: m in LookupModules(rel, v).1 <==> v in rel.second.MembersOf(m)
  {
    forall m
      ensures m in LookupModules(rel, v).0 <==> v in rel.first.MembersOf(m)
      ensures m in LookupModules(rel, v).1 <==> v in rel.second.MembersOf(m)
    {
      assert rel.first.Lists(v, m) <==> rel.first.Holds(m, v);
      assert rel.second.Lists(v, m) <==> rel.second.Holds(m, v);
    }
  }
}
