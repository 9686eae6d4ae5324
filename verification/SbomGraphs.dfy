/** The SBOM's dependency graph: components, one record each, references only to components.
    Each lock format is first a graph over its own keys, then translated through references. */
module SbomGraphs {
  import opened Text

  /** A `bom-ref`: a Python purl, or an URN made of an ecosystem and a digest. */
  datatype Ref = Purl(name: string, version: string) | Urn(ecosystem: string, digest: string)

  datatype Relationship = InternalRoot | Direct | Transitive | WorkspaceRoot

  datatype Component = Component(ref: Ref, name: string, version: string, relationship: Relationship, required: bool)

  datatype Record = Record(ref: Ref, dependsOn: set<Ref>)

  datatype LockGraph = LockGraph(components: seq<Component>, records: seq<Record>)

  function Refs(components: seq<Component>): set<Ref> { set c | c in components :: c.ref }

  function RecordRefs(records: seq<Record>): set<Ref> { set r | r in records :: r.ref }

  predicate DistinctComponents(components: seq<Component>) {
    forall i, j :: 0 <= i < j < |components| ==> components[i].ref != components[j].ref
  }

  predicate DistinctRecords(records: seq<Record>) {
    forall i, j :: 0 <= i < j < |records| ==> records[i].ref != records[j].ref
  }

  /** Each component has exactly one dependency record, and every reference resolves. */
  predicate Closed(g: LockGraph) {
    && DistinctComponents(g.components) && DistinctRecords(g.records)
    && RecordRefs(g.records) == Refs(g.components)
    && forall r | r in g.records :: r.dependsOn <= Refs(g.components)
  }

  ghost predicate Enumerates<T(!new)>(keys: seq<T>, s: set<T>) {
    (forall x :: x in keys <==> x in s) && forall i, j :: 0 <= i < j < |keys| ==> keys[i] != keys[j]
  }

  /** The graph says about each key what its component and its edges say. */
  ghost predicate Translates<K(!new)>(g: LockGraph, keys: seq<K>, component: K -> Component, edges: K -> set<K>) {
    && |g.components| == |g.records| == |keys|
    && forall i | 0 <= i < |keys| ::
         && g.components[i] == component(keys[i])
         && g.records[i].ref == component(keys[i]).ref
         && g.records[i].dependsOn == set k | k in edges(keys[i]) :: component(k).ref
  }

  /** The loop that appends a component and a dependency record per key. */
  method Translate<K(!new, ==)>(keys: seq<K>, component: K -> Component, edges: K -> set<K>) returns (g: LockGraph)
    ensures Translates(g, keys, component, edges)
  {
    var components: seq<Component>, records: seq<Record> := [], [];
    for i := 0 to |keys|
      invariant |components| == |records| == i
      invariant forall j | 0 <= j < i ::
        && components[j] == component(keys[j])
        && records[j] == Record(component(keys[j]).ref, set k | k in edges(keys[j]) :: component(k).ref)
    {
      components := components + [component(keys[i])];
      records := records + [Record(component(keys[i]).ref, set k | k in edges(keys[i]) :: component(k).ref)];
    }
    g := LockGraph(components, records);
  }

  /** Distinct keys have distinct references. */
  ghost predicate DistinctRefs<K(!new)>(keys: seq<K>, component: K -> Component) {
    forall i, j :: 0 <= i < j < |keys| ==> component(keys[i]).ref != component(keys[j]).ref
  }

  lemma EdgesResolve<K(!new)>(g: LockGraph, keys: seq<K>, component: K -> Component, edges: K -> set<K>)
    requires Translates(g, keys, component, edges)
    requires forall k, e | k in keys && e in edges(k) :: e in keys
    ensures forall r | r in g.records :: r.dependsOn <= Refs(g.components)
  {
    forall r | r in g.records ensures r.dependsOn <= Refs(g.components) {
      var i :| 0 <= i < |g.records| && g.records[i] == r;
      forall ref | ref in r.dependsOn ensures ref in Refs(g.components) {
        var k :| k in edges(keys[i]) && component(k).ref == ref;
        assert keys[i] in keys && k in keys;
        var j :| 0 <= j < |keys| && keys[j] == k;
        assert g.components[j] in g.components;
      }
    }
  }

  lemma SameDistinctness<K(!new)>(g: LockGraph, keys: seq<K>, component: K -> Component, edges: K -> set<K>)
    requires Translates(g, keys, component, edges)
    ensures DistinctComponents(g.components) <==> DistinctRefs(keys, component)
    ensures DistinctRecords(g.records) <==> DistinctRefs(keys, component)
  {
    if DistinctComponents(g.components) || DistinctRecords(g.records) {
      forall i, j | 0 <= i < j < |keys| ensures component(keys[i]).ref != component(keys[j]).ref {
        assert g.components[i].ref == component(keys[i]).ref && g.components[j].ref == component(keys[j]).ref;
        assert g.records[i].ref == component(keys[i]).ref && g.records[j].ref == component(keys[j]).ref;
      }
    }
  }

  /** With edges that stay among the keys, the translation is closed exactly when the
      references are distinct. */
  lemma TranslationClosed<K(!new)>(g: LockGraph, keys: seq<K>, component: K -> Component, edges: K -> set<K>)
    requires Translates(g, keys, component, edges)
    requires forall k, e | k in keys && e in edges(k) :: e in keys
    ensures Closed(g) <==> DistinctRefs(keys, component)
    ensures Refs(g.components) == set k | k in keys :: component(k).ref
  {
    forall ref ensures ref in RecordRefs(g.records) <==> ref in Refs(g.components) {
      if ref in RecordRefs(g.records) {
        var i :| 0 <= i < |g.records| && g.records[i].ref == ref;
        assert g.components[i].ref == ref;
      }
      if ref in Refs(g.components) {
        var i :| 0 <= i < |g.components| && g.components[i].ref == ref;
        assert g.records[i].ref == ref;
      }
    }
    EdgesResolve(g, keys, component, edges);
    SameDistinctness(g, keys, component, edges);
    assert Refs(g.components) == set k | k in keys :: component(k).ref;
  }

  function Merge(a: LockGraph, b: LockGraph): LockGraph {
    LockGraph(a.components + b.components, a.records + b.records)
  }

  /** One graph after the other, when both speak about keys of one kind. */
  lemma MergeTranslates<K(!new)>(a: LockGraph, b: LockGraph, p: seq<K>, q: seq<K>, component: K -> Component, edges: K -> set<K>)
    requires Translates(a, p, component, edges) && Translates(b, q, component, edges)
    ensures Translates(Merge(a, b), p + q, component, edges)
  {
  }

  function Each<K, L>(keys: seq<K>, wrap: K -> L): seq<L> { seq(|keys|, i requires 0 <= i < |keys| => wrap(keys[i])) }

  lemma WrapRefs<K(!new), L(!new)>(edges: set<K>, component: K -> Component, wrap: K -> L, outer: L -> Component)
    requires forall k :: outer(wrap(k)) == component(k)
    ensures (set e | e in edges :: component(e).ref) == set f | f in (set e | e in edges :: wrap(e)) :: outer(f).ref
  {
    var wrapped := set e | e in edges :: wrap(e);
    forall e | e in edges ensures component(e).ref in set f | f in wrapped :: outer(f).ref { assert wrap(e) in wrapped; }
  }

  /** A graph over keys of one kind is one over wrapped keys. */
  lemma WrapTranslates<K(!new), L(!new)>(g: LockGraph, keys: seq<K>, component: K -> Component, edges: K -> set<K>,
                                         wrap: K -> L, outer: L -> Component, reach: L -> set<L>)
    requires Translates(g, keys, component, edges)
    requires forall k :: outer(wrap(k)) == component(k)
    requires forall k | k in keys :: reach(wrap(k)) == set e | e in edges(k) :: wrap(e)
    ensures Translates(g, Each(keys, wrap), outer, reach)
  {
    forall i | 0 <= i < |keys| ensures g.records[i].dependsOn == set e | e in reach(wrap(keys[i])) :: outer(e).ref {
      assert keys[i] in keys;
      WrapRefs(edges(keys[i]), component, wrap, outer);
    }
  }

  /** Adding references to one record adds edges to its key. */
  lemma ExtendTranslates<K(!new)>(g: LockGraph, keys: seq<K>, component: K -> Component, edges: K -> set<K>,
                                  at: nat, extra: set<K>, more: K -> set<K>)
    requires Translates(g, keys, component, edges) && at < |keys|
    requires forall i, j :: 0 <= i < j < |keys| ==> keys[i] != keys[j]
    requires forall k | k in keys :: more(k) == if k == keys[at] then edges(k) + extra else edges(k)
    ensures var refs := set k | k in extra :: component(k).ref;
      var records := g.records[at := g.records[at].(dependsOn := g.records[at].dependsOn + refs)];
      Translates(g.(records := records), keys, component, more)
  {
    var refs := set k | k in extra :: component(k).ref;
    var records := g.records[at := g.records[at].(dependsOn := g.records[at].dependsOn + refs)];
    forall i | 0 <= i < |keys| ensures records[i].dependsOn == set k | k in more(keys[i]) :: component(k).ref {
      assert keys[i] in keys;
    }
  }

  // ---------------------------------------------------------------- references by digest

  predicate NulFree(s: string) { '\0' !in s }

  /** What `_locked_component` hashes: the fields joined by NUL. */
  function FieldText(ecosystem: string, fields: seq<string>): string { Join([ecosystem] + fields, '\0') }

  function LockedRef(sha: string -> string, ecosystem: string, fields: seq<string>): Ref {
    Urn(ecosystem, sha(FieldText(ecosystem, fields)))
  }

  /** Fields without NUL can be read back from the text. */
  lemma FieldTextInjective(ecosystem: string, a: seq<string>, b: seq<string>)
    requires NulFree(ecosystem) && (forall f | f in a :: NulFree(f)) && forall f | f in b :: NulFree(f)
    requires FieldText(ecosystem, a) == FieldText(ecosystem, b)
    ensures a == b
  {
    JoinInjective([ecosystem] + a, [ecosystem] + b, '\0');
    assert ([ecosystem] + a)[1..] == a && ([ecosystem] + b)[1..] == b;
  }
}
