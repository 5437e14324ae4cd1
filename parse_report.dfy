/**
 * Aggregation of a decoded scan report into blocking policies: violations
 * with status "fail" are grouped by rule id, each group becomes one
 * BlockingPolicy with its de-duplicated components (at most 50) and the
 * sorted list of vulnerabilities that name the rule, and the policies are
 * ordered by (priority, policy id). The JSON document is an input value;
 * reading and decoding the file is not part of this model.
 */
module ParseReport {
  import opened Wrappers
  import opened Ordering

  /** Safety cap on the components listed for one policy. */
  const MaxComponentsPerIssue: nat := 50

  datatype Component = Component(name: string, path: string)

  /** A policy blocking the scan, with its aggregated components. */
  datatype BlockingPolicy = BlockingPolicy(
    policyId: string,
    category: string,
    severity: string,
    priority: int,
    effort: string,
    components: seq<Component>,
    cveIds: seq<string>)

  /**
   * One entry of `metadata.violations`. A missing or non-string status is any
   * string other than "fail"; a missing or empty rule id is "".
   */
  datatype Violation = Violation(
    status: string,
    ruleId: string,
    category: Option<string>,
    severity: Option<string>,
    priority: Option<int>,
    effort: Option<string>,
    componentRefs: seq<string>)

  /** One entry of `metadata.components`; a missing path is "". */
  datatype ComponentEntry = ComponentEntry(name: Option<string>, path: string)

  /** One entry of `metadata.vulnerabilities`; the CVSS base score is copied through unread. */
  datatype Vulnerability = Vulnerability(violations: seq<string>, exploit: seq<string>, baseScore: Option<real>)

  /**
   * `report.metadata`: the values of the violations object in document order,
   * the components object, and the vulnerabilities object in document order.
   */
  datatype Metadata = Metadata(
    violations: seq<Violation>,
    components: map<string, ComponentEntry>,
    vulnerabilities: seq<(string, Vulnerability)>)

  datatype CveDetail = CveDetail(cvss: Option<real>, exploited: bool, fixable: bool)

  /** The fields of the report the status gate and the aggregation read. */
  datatype Report = Report(
    fileName: Option<string>,
    scanLevel: Option<int>,
    qualityStatus: Option<string>,
    metadata: Metadata)

  datatype ScanResult = ScanResult(
    artifactName: string,
    scanLevel: int,
    scanStatus: string,
    blockingPolicies: seq<BlockingPolicy>,
    cveDetails: map<string, CveDetail>)

  // ---------------------------------------------------------------------
  // Selecting and grouping violations

  /** A violation contributes when its status is "fail" and its rule id is truthy. */
  predicate Counts(v: Violation) {
    v.status == "fail" && v.ruleId != ""
  }

  /** The rule ids of the contributing violations, in document order. */
  function FailIds(vs: seq<Violation>): seq<string> {
    if vs == [] then []
    else
      var last := vs[|vs| - 1];
      FailIds(vs[..|vs| - 1]) + (if Counts(last) then [last.ruleId] else [])
  }

  lemma {:induction false} FailIdsMembers(vs: seq<Violation>)
    ensures forall id :: id in FailIds(vs) <==> exists i :: 0 <= i < |vs| && Counts(vs[i]) && vs[i].ruleId == id
  {
    if vs != [] {
      var pre := vs[..|vs| - 1];
      FailIdsMembers(pre);
      assert forall i :: 0 <= i < |pre| ==> pre[i] == vs[i];
    }
  }

  /** The distinct elements of xs in order of first appearance. */
  function Dedup(xs: seq<string>): (r: seq<string>)
    ensures forall x :: x in r <==> x in xs
    ensures forall i, j :: 0 <= i < j < |r| ==> r[i] != r[j]
  {
    if xs == [] then []
    else
      var d := Dedup(xs[..|xs| - 1]);
      var x := xs[|xs| - 1];
      assert xs == xs[..|xs| - 1] + [x];
      if x in d then d else d + [x]
  }

  /** The contributing violations with rule id `id`, in document order. */
  function GroupOf(vs: seq<Violation>, id: string): seq<Violation> {
    if vs == [] then []
    else
      var last := vs[|vs| - 1];
      GroupOf(vs[..|vs| - 1], id) + (if Counts(last) && last.ruleId == id then [last] else [])
  }

  /** A group holds contributing violations of its rule id, and is empty iff no violation has that id. */
  lemma {:induction false} GroupOfProps(vs: seq<Violation>, id: string)
    ensures forall k :: 0 <= k < |GroupOf(vs, id)| ==> Counts(GroupOf(vs, id)[k]) && GroupOf(vs, id)[k].ruleId == id
    ensures GroupOf(vs, id) != [] <==> id in FailIds(vs)
  {
    if vs != [] {
      GroupOfProps(vs[..|vs| - 1], id);
    }
  }

  /** The first violation of a group is the first contributing violation with that rule id. */
  lemma {:induction false} GroupStartsAtFirst(vs: seq<Violation>, id: string)
    requires id in FailIds(vs)
    ensures GroupOf(vs, id) != []
    ensures exists i :: (0 <= i < |vs| && vs[i] == GroupOf(vs, id)[0] &&
      forall j :: 0 <= j < i ==> !(Counts(vs[j]) && vs[j].ruleId == id))
  {
    var pre := vs[..|vs| - 1];
    var last := vs[|vs| - 1];
    GroupOfProps(pre, id);
    GroupOfProps(vs, id);
    FailIdsMembers(pre);
    if id in FailIds(pre) {
      GroupStartsAtFirst(pre, id);
      var i :| 0 <= i < |pre| && pre[i] == GroupOf(pre, id)[0] &&
        (forall j :: 0 <= j < i ==> !(Counts(pre[j]) && pre[j].ruleId == id));
      assert vs[i] == GroupOf(vs, id)[0];
      assert forall j :: 0 <= j < i ==> vs[j] == pre[j];
    } else {
      assert GroupOf(pre, id) == [];
      assert forall j :: 0 <= j < |pre| ==> !(Counts(pre[j]) && pre[j].ruleId == id);
      assert forall j :: 0 <= j < |pre| ==> vs[j] == pre[j];
      assert vs[|vs| - 1] == GroupOf(vs, id)[0];
    }
  }

  lemma FailIdsSnoc(xs: seq<Violation>, v: Violation)
    ensures FailIds(xs + [v]) == FailIds(xs) + (if Counts(v) then [v.ruleId] else [])
  {
    assert (xs + [v])[..|xs|] == xs;
  }

  /** A violation extends only the group of its own rule id, and only when it counts. */
  lemma GroupSnoc(xs: seq<Violation>, v: Violation, id: string)
    ensures GroupOf(xs + [v], id) == GroupOf(xs, id) + (if Counts(v) && v.ruleId == id then [v] else [])
  {
    assert (xs + [v])[..|xs|] == xs;
  }

  lemma DedupSnoc(xs: seq<string>, x: string)
    ensures Dedup(xs + [x]) == if x in Dedup(xs) then Dedup(xs) else Dedup(xs) + [x]
  {
    assert (xs + [x])[..|xs|] == xs;
  }

  /** order and groups are the `by_policy` dictionary after the violations xs. */
  ghost predicate Grouped(xs: seq<Violation>, order: seq<string>, groups: map<string, seq<Violation>>) {
    && order == Dedup(FailIds(xs))
    && (forall id :: id in groups <==> id in order)
    && (forall id :: id in groups ==> groups[id] == GroupOf(xs, id))
    && (forall id :: id !in groups ==> GroupOf(xs, id) == [])
  }

  /** A violation that does not count leaves the dictionary as it is. */
  lemma GroupSkip(xs: seq<Violation>, v: Violation, order: seq<string>, groups: map<string, seq<Violation>>)
    requires Grouped(xs, order, groups) && !Counts(v)
    ensures Grouped(xs + [v], order, groups)
  {
    FailIdsSnoc(xs, v);
    assert FailIds(xs + [v]) == FailIds(xs);
    forall id ensures GroupOf(xs + [v], id) == GroupOf(xs, id) {
      GroupSnoc(xs, v, id);
      var none: seq<Violation> := [];
      assert GroupOf(xs, id) + none == GroupOf(xs, id);
    }
  }

  /** A counting violation of a rule id already seen is appended to its group. */
  lemma GroupAppend(xs: seq<Violation>, v: Violation, order: seq<string>, groups: map<string, seq<Violation>>)
    requires Grouped(xs, order, groups) && Counts(v) && v.ruleId in groups
    ensures Grouped(xs + [v], order, groups[v.ruleId := groups[v.ruleId] + [v]])
  {
    var id0 := v.ruleId;
    var groups2 := groups[id0 := groups[id0] + [v]];
    assert Dedup(FailIds(xs + [v])) == order by {
      FailIdsSnoc(xs, v);
      DedupSnoc(FailIds(xs), id0);
      assert id0 in order;
    }
    forall id ensures id in groups2 <==> id in order {
      assert id in groups2 <==> id in groups || id == id0;
    }
    GroupsAfter(xs, v, groups, groups2);
    assert Grouped(xs + [v], order, groups2);
  }

  /** A counting violation of a new rule id opens a group at the end of the key order. */
  lemma GroupOpen(xs: seq<Violation>, v: Violation, order: seq<string>, groups: map<string, seq<Violation>>)
    requires Grouped(xs, order, groups) && Counts(v) && v.ruleId !in groups
    ensures Grouped(xs + [v], order + [v.ruleId], groups[v.ruleId := [v]])
  {
    var id0 := v.ruleId;
    var groups2 := groups[id0 := [v]];
    assert Dedup(FailIds(xs + [v])) == order + [id0] by {
      FailIdsSnoc(xs, v);
      DedupSnoc(FailIds(xs), id0);
      assert id0 !in order;
    }
    forall id ensures id in groups2 <==> id in order + [id0] {
      assert id in order + [id0] <==> id in order || id == id0;
    }
    assert groups2 == groups[id0 := GroupOf(xs, id0) + [v]] by {
      assert GroupOf(xs, id0) == [];
      assert GroupOf(xs, id0) + [v] == [v];
    }
    GroupsAfter(xs, v, groups, groups2);
    assert Grouped(xs + [v], order + [id0], groups2);
  }

  /** The groups after a counting violation: its own group grows by it, the others stay. */
  lemma GroupsAfter(xs: seq<Violation>, v: Violation, groups: map<string, seq<Violation>>,
                    groups2: map<string, seq<Violation>>)
    requires forall id :: id in groups ==> groups[id] == GroupOf(xs, id)
    requires forall id :: id !in groups ==> GroupOf(xs, id) == []
    requires Counts(v) && groups2 == groups[v.ruleId := GroupOf(xs, v.ruleId) + [v]]
    ensures forall id :: id in groups2 ==> groups2[id] == GroupOf(xs + [v], id)
    ensures forall id :: id !in groups2 ==> GroupOf(xs + [v], id) == []
  {
    forall id | id in groups2 ensures groups2[id] == GroupOf(xs + [v], id) {
      GroupSnoc(xs, v, id);
      if id != v.ruleId {
        var none: seq<Violation> := [];
        assert GroupOf(xs, id) + none == GroupOf(xs, id);
      }
    }
    forall id | id !in groups2 ensures GroupOf(xs + [v], id) == [] {
      GroupSnoc(xs, v, id);
      var none: seq<Violation> := [];
      assert GroupOf(xs, id) + none == GroupOf(xs, id);
    }
  }

  /** One iteration of the grouping loop, on the prefix of the violations read so far. */
  lemma GroupAdvance(vs: seq<Violation>, i: nat, order: seq<string>, groups: map<string, seq<Violation>>,
                     order2: seq<string>, groups2: map<string, seq<Violation>>)
    requires i < |vs| && Grouped(vs[..i], order, groups)
    requires !Counts(vs[i]) ==> order2 == order && groups2 == groups
    requires Counts(vs[i]) && vs[i].ruleId in groups ==>
      order2 == order && groups2 == groups[vs[i].ruleId := groups[vs[i].ruleId] + [vs[i]]]
    requires Counts(vs[i]) && vs[i].ruleId !in groups ==>
      order2 == order + [vs[i].ruleId] && groups2 == groups[vs[i].ruleId := [vs[i]]]
    ensures Grouped(vs[..i + 1], order2, groups2)
  {
    assert vs[..i + 1] == vs[..i] + [vs[i]];
    if !Counts(vs[i]) {
      GroupSkip(vs[..i], vs[i], order, groups);
    } else if vs[i].ruleId in groups {
      GroupAppend(vs[..i], vs[i], order, groups);
    } else {
      GroupOpen(vs[..i], vs[i], order, groups);
    }
  }

  /**
   * The grouping loop of `_extract_blocking_policies`: `order` is the key
   * order of the `by_policy` dictionary, `groups` its contents.
   */
  method GroupViolations(vs: seq<Violation>) returns (order: seq<string>, groups: map<string, seq<Violation>>)
    ensures order == Dedup(FailIds(vs))
    ensures forall id :: id in groups <==> id in order
    ensures forall id :: id in groups ==> groups[id] == GroupOf(vs, id)
  {
    order := [];
    groups := map[];
    var i := 0;
    while i < |vs|
      invariant 0 <= i <= |vs|
      invariant Grouped(vs[..i], order, groups)
    {
      var v := vs[i];
      ghost var order0, groups0 := order, groups;
      if v.status == "fail" && v.ruleId != "" {
        var policyId := v.ruleId;
        if policyId in groups {
          groups := groups[policyId := groups[policyId] + [v]];
        } else {
          order := order + [policyId];
          groups := groups[policyId := [v]];
        }
      }
      GroupAdvance(vs, i, order0, groups0, order, groups);
      i := i + 1;
    }
    assert vs[..|vs|] == vs;
  }

  // ---------------------------------------------------------------------
  // Components of a group

  /** `components.get(id, {})`, with the name defaulting to "unknown" and the path to "". */
  function Resolve(comps: map<string, ComponentEntry>, id: string): Component {
    var e := if id in comps then comps[id] else ComponentEntry(None, "");
    Component(e.name.GetOr("unknown"), e.path)
  }

  function ResolveAll(comps: map<string, ComponentEntry>, refs: seq<string>): (r: seq<Component>)
    ensures |r| == |refs|
  {
    if refs == [] then []
    else ResolveAll(comps, refs[..|refs| - 1]) + [Resolve(comps, refs[|refs| - 1])]
  }

  /** Every component referenced by the group, reference by reference, in order. */
  function Candidates(vl: seq<Violation>, comps: map<string, ComponentEntry>): seq<Component> {
    if vl == [] then []
    else Candidates(vl[..|vl| - 1], comps) + ResolveAll(comps, vl[|vl| - 1].componentRefs)
  }

  function PathsOf(cs: seq<Component>): set<string> {
    set c | c in cs :: c.path
  }

  /** Index of the first component of cs with path p. */
  function FirstIndex(cs: seq<Component>, p: string): (r: nat)
    requires p in PathsOf(cs)
    ensures r < |cs| && cs[r].path == p
    ensures forall j :: 0 <= j < r ==> cs[j].path != p
  {
    var pre := cs[..|cs| - 1];
    assert forall c :: c in pre ==> c in cs;
    if p in PathsOf(pre) then FirstIndex(pre, p)
    else
      assert forall j :: 0 <= j < |pre| ==> pre[j].path != p by {
        forall j | 0 <= j < |pre| ensures pre[j].path != p {
          assert pre[j] in pre;
        }
      }
      |cs| - 1
  }

  /**
   * The components in first-seen order of their paths, skipping empty paths:
   * the `seen_paths` loop.
   */
  function DedupPaths(cs: seq<Component>): seq<Component> {
    if cs == [] then []
    else
      var d := DedupPaths(cs[..|cs| - 1]);
      var c := cs[|cs| - 1];
      if c.path != "" && c.path !in PathsOf(d) then d + [c] else d
  }

  /** The kept components have distinct non-empty paths, and every non-empty path is kept. */
  lemma {:induction false} DedupPathsProps(cs: seq<Component>)
    ensures forall i, j :: 0 <= i < j < |DedupPaths(cs)| ==> DedupPaths(cs)[i].path != DedupPaths(cs)[j].path
    ensures forall i :: 0 <= i < |DedupPaths(cs)| ==> DedupPaths(cs)[i].path != ""
    ensures forall p :: p in PathsOf(DedupPaths(cs)) <==> p != "" && p in PathsOf(cs)
  {
    if cs != [] {
      var pre := cs[..|cs| - 1];
      var d := DedupPaths(pre);
      var c := cs[|cs| - 1];
      DedupPathsProps(pre);
      assert cs == pre + [c];
      assert PathsOf(cs) == PathsOf(pre) + {c.path};
      if c.path != "" && c.path !in PathsOf(d) {
        assert PathsOf(d + [c]) == PathsOf(d) + {c.path};
        assert forall i :: 0 <= i < |d| ==> d[i] in d;
      }
    }
  }

  /**
   * Each kept component is the first one seen with its path, and the kept
   * components keep their relative order.
   */
  lemma {:induction false} DedupPathsFirstSeen(cs: seq<Component>)
    ensures forall k :: 0 <= k < |DedupPaths(cs)| ==>
      DedupPaths(cs)[k].path in PathsOf(cs) &&
      DedupPaths(cs)[k] == cs[FirstIndex(cs, DedupPaths(cs)[k].path)]
    ensures forall k, l :: 0 <= k < l < |DedupPaths(cs)| ==>
      FirstIndex(cs, DedupPaths(cs)[k].path) < FirstIndex(cs, DedupPaths(cs)[l].path)
  {
    if cs != [] {
      var pre := cs[..|cs| - 1];
      var c := cs[|cs| - 1];
      var d := DedupPaths(pre);
      DedupPathsFirstSeen(pre);
      DedupPathsProps(pre);
      assert PathsOf(cs) == PathsOf(pre) + {c.path} by {
        assert cs == pre + [c];
      }
      forall k | 0 <= k < |d|
        ensures d[k].path in PathsOf(pre) && FirstIndex(cs, d[k].path) == FirstIndex(pre, d[k].path)
      {
        assert d[k] in d;
      }
      if c.path != "" && c.path !in PathsOf(d) {
        var r := d + [c];
        assert c.path !in PathsOf(pre);
        assert FirstIndex(cs, c.path) == |cs| - 1;
        forall k | 0 <= k < |r|
          ensures r[k].path in PathsOf(cs) && r[k] == cs[FirstIndex(cs, r[k].path)]
        {
          if k < |d| {
            assert r[k] == d[k];
          }
        }
      }
    }
  }

  /** `affected[:MAX_COMPONENTS_PER_ISSUE]`. */
  function Cap(cs: seq<Component>): (r: seq<Component>)
    ensures |r| <= MaxComponentsPerIssue && r <= cs
    ensures |r| == if |cs| <= MaxComponentsPerIssue then |cs| else MaxComponentsPerIssue
    ensures |cs| <= MaxComponentsPerIssue ==> r == cs
  {
    if |cs| <= MaxComponentsPerIssue then cs else cs[..MaxComponentsPerIssue]
  }

  /** One step of the `seen_paths` loop keeps `affected` equal to the de-duplication of what was read. */
  lemma CollectStep(xs: seq<Component>, c: Component, affected: seq<Component>, seen: set<string>,
                    affected2: seq<Component>, seen2: set<string>)
    requires affected == DedupPaths(xs) && seen == PathsOf(affected)
    requires c.path != "" && c.path !in seen ==> affected2 == affected + [c] && seen2 == seen + {c.path}
    requires !(c.path != "" && c.path !in seen) ==> affected2 == affected && seen2 == seen
    ensures affected2 == DedupPaths(xs + [c]) && seen2 == PathsOf(affected2)
  {
    assert (xs + [c])[..|xs|] == xs;
    if c.path != "" && c.path !in seen {
      assert PathsOf(affected + [c]) == PathsOf(affected) + {c.path};
    }
  }

  lemma ResolveAllSnoc(comps: map<string, ComponentEntry>, refs: seq<string>, j: nat)
    requires j < |refs|
    ensures ResolveAll(comps, refs[..j + 1]) == ResolveAll(comps, refs[..j]) + [Resolve(comps, refs[j])]
  {
    assert refs[..j + 1][..j] == refs[..j];
  }

  /** One iteration of the reference loop, on the prefix of the references read so far. */
  lemma CollectAdvance(done: seq<Component>, comps: map<string, ComponentEntry>, refs: seq<string>, j: nat,
                       affected: seq<Component>, seen: set<string>, affected2: seq<Component>, seen2: set<string>)
    requires j < |refs|
    requires affected == DedupPaths(done + ResolveAll(comps, refs[..j])) && seen == PathsOf(affected)
    requires var c := Resolve(comps, refs[j]);
      if c.path != "" && c.path !in seen then affected2 == affected + [c] && seen2 == seen + {c.path}
      else affected2 == affected && seen2 == seen
    ensures affected2 == DedupPaths(done + ResolveAll(comps, refs[..j + 1])) && seen2 == PathsOf(affected2)
  {
    var c := Resolve(comps, refs[j]);
    var xs := done + ResolveAll(comps, refs[..j]);
    CollectStep(xs, c, affected, seen, affected2, seen2);
    ResolveAllSnoc(comps, refs, j);
    assert xs + [c] == done + ResolveAll(comps, refs[..j + 1]) by {
      assert done + (ResolveAll(comps, refs[..j]) + [c]) == (done + ResolveAll(comps, refs[..j])) + [c];
    }
  }

  /**
   * The inner component loop over one violation's references, continuing
   * from the components `done` already read.
   */
  method CollectRefs(refs: seq<string>, comps: map<string, ComponentEntry>, ghost done: seq<Component>,
                     affected0: seq<Component>, seen0: set<string>)
    returns (affected: seq<Component>, seenPaths: set<string>)
    requires affected0 == DedupPaths(done) && seen0 == PathsOf(affected0)
    ensures affected == DedupPaths(done + ResolveAll(comps, refs)) && seenPaths == PathsOf(affected)
  {
    affected, seenPaths := affected0, seen0;
    var j := 0;
    assert done + ResolveAll(comps, refs[..0]) == done;
    while j < |refs|
      invariant 0 <= j <= |refs|
      invariant affected == DedupPaths(done + ResolveAll(comps, refs[..j]))
      invariant seenPaths == PathsOf(affected)
    {
      var c := Resolve(comps, refs[j]);
      ghost var before, seenBefore := affected, seenPaths;
      if c.path != "" && c.path !in seenPaths {
        seenPaths := seenPaths + {c.path};
        affected := affected + [c];
      }
      CollectAdvance(done, comps, refs, j, before, seenBefore, affected, seenPaths);
      j := j + 1;
    }
    assert refs[..|refs|] == refs;
  }

  /**
   * The component-collection loops: for every violation of the group and
   * every component it references, the component is appended when its path
   * is non-empty and not yet seen.
   */
  method CollectComponents(vl: seq<Violation>, comps: map<string, ComponentEntry>) returns (affected: seq<Component>)
    ensures affected == DedupPaths(Candidates(vl, comps))
  {
    affected := [];
    var seenPaths: set<string> := {};
    var i := 0;
    while i < |vl|
      invariant 0 <= i <= |vl|
      invariant affected == DedupPaths(Candidates(vl[..i], comps))
      invariant seenPaths == PathsOf(affected)
    {
      affected, seenPaths := CollectRefs(vl[i].componentRefs, comps, Candidates(vl[..i], comps), affected, seenPaths);
      assert Candidates(vl[..i + 1], comps) == Candidates(vl[..i], comps) + ResolveAll(comps, vl[i].componentRefs) by {
        assert vl[..i + 1][..i] == vl[..i] && vl[..i + 1][i] == vl[i];
      }
      i := i + 1;
    }
    assert vl[..|vl|] == vl;
  }

  // ---------------------------------------------------------------------
  // Vulnerabilities of a policy

  /** Ids of the vulnerabilities whose `violations` list names the policy, in document order. */
  function MatchingCves(vulns: seq<(string, Vulnerability)>, policyId: string): (r: seq<string>)
    ensures forall id :: id in r <==>
      exists k :: 0 <= k < |vulns| && vulns[k].0 == id && policyId in vulns[k].1.violations
  {
    if vulns == [] then []
    else
      var pre := vulns[..|vulns| - 1];
      var last := vulns[|vulns| - 1];
      assert forall k :: 0 <= k < |pre| ==> pre[k] == vulns[k];
      MatchingCves(pre, policyId) + (if policyId in last.1.violations then [last.0] else [])
  }

  /** `sorted(cve_ids)`. */
  function CveIdsOf(vulns: seq<(string, Vulnerability)>, policyId: string): seq<string> {
    SortBy(MatchingCves(vulns, policyId), StrKey)
  }

  /** The CVE ids of a policy are sorted and are exactly the vulnerabilities that name it. */
  lemma CveIdsSortedAndExact(vulns: seq<(string, Vulnerability)>, policyId: string)
    ensures forall i, j :: 0 <= i < j < |CveIdsOf(vulns, policyId)| ==>
      StrLe(CveIdsOf(vulns, policyId)[i], CveIdsOf(vulns, policyId)[j])
    ensures forall id :: id in CveIdsOf(vulns, policyId) <==>
      exists k :: 0 <= k < |vulns| && vulns[k].0 == id && policyId in vulns[k].1.violations
  {
    var m := MatchingCves(vulns, policyId);
    SortedStrings(m);
    forall id
      ensures id in CveIdsOf(vulns, policyId) <==> id in m
    {
      assert id in CveIdsOf(vulns, policyId) <==> id in multiset(CveIdsOf(vulns, policyId));
      assert id in m <==> id in multiset(m);
    }
  }

  /** The cve-id comprehension, as the loop it stands for. */
  method CollectCveIds(vulns: seq<(string, Vulnerability)>, policyId: string) returns (ids: seq<string>)
    ensures ids == CveIdsOf(vulns, policyId)
  {
    var found: seq<string> := [];
    var k := 0;
    while k < |vulns|
      invariant 0 <= k <= |vulns|
      invariant found == MatchingCves(vulns[..k], policyId)
    {
      assert vulns[..k + 1][..k] == vulns[..k] && vulns[..k + 1][k] == vulns[k];
      if policyId in vulns[k].1.violations {
        found := found + [vulns[k].0];
      }
      k := k + 1;
    }
    assert vulns[..|vulns|] == vulns;
    ids := SortBy(found, StrKey);
  }

  // ---------------------------------------------------------------------
  // Blocking policies

  /** The BlockingPolicy built for one group; the scalar fields come from its first violation. */
  function PolicyFor(meta: Metadata, policyId: string, vl: seq<Violation>): BlockingPolicy
    requires vl != []
  {
    var first := vl[0];
    BlockingPolicy(
      policyId,
      first.category.GetOr("unknown"),
      first.severity.GetOr("unknown"),
      first.priority.GetOr(4),
      first.effort.GetOr("unknown"),
      Cap(DedupPaths(Candidates(vl, meta.components))),
      CveIdsOf(meta.vulnerabilities, policyId))
  }

  /** The policies for the given rule ids, in that order, before sorting. */
  function PoliciesFor(meta: Metadata, ids: seq<string>): (r: seq<BlockingPolicy>)
    requires forall id :: id in ids ==> id in FailIds(meta.violations)
    ensures |r| == |ids|
  {
    if ids == [] then []
    else
      var id := ids[|ids| - 1];
      GroupOfProps(meta.violations, id);
      PoliciesFor(meta, ids[..|ids| - 1]) + [PolicyFor(meta, id, GroupOf(meta.violations, id))]
  }

  lemma {:induction false} PoliciesForElems(meta: Metadata, ids: seq<string>)
    requires forall id :: id in ids ==> id in FailIds(meta.violations)
    ensures forall k :: 0 <= k < |ids| ==> (GroupOf(meta.violations, ids[k]) != [] &&
      PoliciesFor(meta, ids)[k] == PolicyFor(meta, ids[k], GroupOf(meta.violations, ids[k])))
  {
    if ids != [] {
      var pre := ids[..|ids| - 1];
      var id := ids[|ids| - 1];
      assert forall k :: 0 <= k < |pre| ==> pre[k] == ids[k];
      PoliciesForElems(meta, pre);
      GroupOfProps(meta.violations, id);
      var ps := PoliciesFor(meta, pre);
      assert PoliciesFor(meta, ids) == ps + [PolicyFor(meta, id, GroupOf(meta.violations, id))];
      forall k | 0 <= k < |ids|
        ensures GroupOf(meta.violations, ids[k]) != [] &&
          PoliciesFor(meta, ids)[k] == PolicyFor(meta, ids[k], GroupOf(meta.violations, ids[k]))
      {
        if k < |pre| {
          assert PoliciesFor(meta, ids)[k] == ps[k];
        }
      }
    }
  }

  function PolicyKey(p: BlockingPolicy): Key {
    (p.priority, p.policyId)
  }

  /** `_extract_blocking_policies(metadata)`. */
  function BlockingPoliciesOf(meta: Metadata): seq<BlockingPolicy> {
    SortBy(UnsortedPolicies(meta), PolicyKey)
  }

  lemma SameElements<T>(a: seq<T>, b: seq<T>)
    requires multiset(a) == multiset(b)
    ensures forall x :: x in a <==> x in b
  {
    forall x
      ensures x in a <==> x in b
    {
      assert x in a <==> x in multiset(a);
      assert x in b <==> x in multiset(b);
    }
  }

  lemma TwiceInSeq<T>(s: seq<T>, i: nat, j: nat)
    requires i < j < |s| && s[i] == s[j]
    ensures multiset(s)[s[i]] >= 2
  {
    assert s == s[..j] + s[j..];
    assert s[i] in s[..j];
    assert s[j] == s[j..][0];
  }

  lemma {:induction false} DistinctIdsOnce(s: seq<BlockingPolicy>, x: BlockingPolicy)
    requires forall i, j :: 0 <= i < j < |s| ==> s[i].policyId != s[j].policyId
    ensures multiset(s)[x] <= 1
  {
    if s != [] {
      var pre := s[..|s| - 1];
      DistinctIdsOnce(pre, x);
      assert s == pre + [s[|s| - 1]];
      if x == s[|s| - 1] {
        forall i | 0 <= i < |pre|
          ensures pre[i] != x
        {
          assert pre[i] == s[i];
        }
      }
    }
  }

  /** Sorting keeps the policy ids distinct. */
  lemma DistinctIdsPermutation(a: seq<BlockingPolicy>, b: seq<BlockingPolicy>)
    requires multiset(a) == multiset(b)
    requires forall i, j :: 0 <= i < j < |b| ==> b[i].policyId != b[j].policyId
    ensures forall i, j :: 0 <= i < j < |a| ==> a[i].policyId != a[j].policyId
  {
    SameElements(a, b);
    forall i, j | 0 <= i < j < |a|
      ensures a[i].policyId != a[j].policyId
    {
      if a[i].policyId == a[j].policyId {
        assert a[i] in b && a[j] in b;
        var p :| 0 <= p < |b| && b[p] == a[i];
        var q :| 0 <= q < |b| && b[q] == a[j];
        assert p == q;
        TwiceInSeq(a, i, j);
        DistinctIdsOnce(b, a[i]);
      }
    }
  }

  /** The policies before sorting: one per distinct rule id, in first-seen order. */
  function UnsortedPolicies(meta: Metadata): seq<BlockingPolicy> {
    PoliciesFor(meta, Dedup(FailIds(meta.violations)))
  }

  /** The k-th unsorted policy is the one of the k-th distinct contributing rule id. */
  lemma UnsortedIds(meta: Metadata)
    ensures |UnsortedPolicies(meta)| == |Dedup(FailIds(meta.violations))|
    ensures forall k :: 0 <= k < |UnsortedPolicies(meta)| ==>
      UnsortedPolicies(meta)[k].policyId == Dedup(FailIds(meta.violations))[k]
  {
    PoliciesForElems(meta, Dedup(FailIds(meta.violations)));
  }

  lemma UnsortedDistinct(meta: Metadata)
    ensures forall i, j :: 0 <= i < j < |UnsortedPolicies(meta)| ==>
      UnsortedPolicies(meta)[i].policyId != UnsortedPolicies(meta)[j].policyId
  {
    UnsortedIds(meta);
  }

  /** Sorting orders the policies by (priority, policy id) and keeps the ids distinct. */
  lemma BlockingPoliciesOrdered(meta: Metadata)
    ensures SortedBy(BlockingPoliciesOf(meta), PolicyKey)
    ensures multiset(BlockingPoliciesOf(meta)) == multiset(UnsortedPolicies(meta))
    ensures forall i, j :: 0 <= i < j < |BlockingPoliciesOf(meta)| ==>
      BlockingPoliciesOf(meta)[i].policyId != BlockingPoliciesOf(meta)[j].policyId
  {
    SortBySorted(UnsortedPolicies(meta), PolicyKey);
    SortByPerm(UnsortedPolicies(meta), PolicyKey);
    UnsortedDistinct(meta);
    DistinctIdsPermutation(BlockingPoliciesOf(meta), UnsortedPolicies(meta));
  }

  /** Every blocking policy is the aggregate of the group of a contributing rule id. */
  lemma BlockingPoliciesAreGroups(meta: Metadata)
    ensures forall p :: p in BlockingPoliciesOf(meta) ==>
      p.policyId in FailIds(meta.violations) && GroupOf(meta.violations, p.policyId) != [] &&
      p == PolicyFor(meta, p.policyId, GroupOf(meta.violations, p.policyId))
  {
    var ids := Dedup(FailIds(meta.violations));
    var unsorted := UnsortedPolicies(meta);
    SortByPerm(unsorted, PolicyKey);
    SameElements(BlockingPoliciesOf(meta), unsorted);
    PoliciesForElems(meta, ids);
    forall p | p in BlockingPoliciesOf(meta)
      ensures p.policyId in FailIds(meta.violations) && GroupOf(meta.violations, p.policyId) != [] &&
        p == PolicyFor(meta, p.policyId, GroupOf(meta.violations, p.policyId))
    {
      var k :| 0 <= k < |unsorted| && unsorted[k] == p;
      assert ids[k] in ids;
    }
  }

  /** Every contributing rule id has a blocking policy. */
  lemma BlockingPoliciesCover(meta: Metadata)
    ensures forall i :: 0 <= i < |meta.violations| && Counts(meta.violations[i]) ==>
      exists p :: p in BlockingPoliciesOf(meta) && p.policyId == meta.violations[i].ruleId
  {
    var vs := meta.violations;
    var ids := Dedup(FailIds(vs));
    var unsorted := UnsortedPolicies(meta);
    assert forall p :: p in unsorted ==> p in BlockingPoliciesOf(meta) by {
      SortByPerm(unsorted, PolicyKey);
      SameElements(BlockingPoliciesOf(meta), unsorted);
    }
    UnsortedIds(meta);
    FailIdsMembers(vs);
    forall i | 0 <= i < |vs| && Counts(vs[i])
      ensures exists p :: p in BlockingPoliciesOf(meta) && p.policyId == vs[i].ruleId
    {
      assert vs[i].ruleId in ids;
      var k :| 0 <= k < |ids| && ids[k] == vs[i].ruleId;
      assert unsorted[k] in unsorted;
    }
  }

  /**
   * A policy's components are the first 50 of its de-duplicated components
   * (all of them when there are fewer), with distinct non-empty paths.
   */
  lemma PolicyComponents(meta: Metadata, policyId: string, vl: seq<Violation>)
    requires vl != []
    ensures |PolicyFor(meta, policyId, vl).components| <= MaxComponentsPerIssue
    ensures var d := DedupPaths(Candidates(vl, meta.components));
      PolicyFor(meta, policyId, vl).components ==
        d[..if |d| <= MaxComponentsPerIssue then |d| else MaxComponentsPerIssue]
    ensures forall i, j :: 0 <= i < j < |PolicyFor(meta, policyId, vl).components| ==>
      PolicyFor(meta, policyId, vl).components[i].path != PolicyFor(meta, policyId, vl).components[j].path
    ensures forall i :: 0 <= i < |PolicyFor(meta, policyId, vl).components| ==>
      PolicyFor(meta, policyId, vl).components[i].path != ""
  {
    var d := DedupPaths(Candidates(vl, meta.components));
    DedupPathsProps(Candidates(vl, meta.components));
    var c := PolicyFor(meta, policyId, vl).components;
    assert forall i :: 0 <= i < |c| ==> c[i] == d[i];
  }

  /** Extending the rule ids by one appends that id's policy. */
  lemma PoliciesForSnoc(meta: Metadata, ids: seq<string>, k: nat)
    requires k < |ids| && forall id :: id in ids ==> id in FailIds(meta.violations)
    ensures GroupOf(meta.violations, ids[k]) != []
    ensures PoliciesFor(meta, ids[..k + 1]) ==
      PoliciesFor(meta, ids[..k]) + [PolicyFor(meta, ids[k], GroupOf(meta.violations, ids[k]))]
  {
    GroupOfProps(meta.violations, ids[k]);
    assert ids[..k + 1][..k] == ids[..k] && ids[..k + 1][k] == ids[k];
  }

  /** The body of the policy loop: one rule id's group becomes its policy. */
  method BuildPolicy(meta: Metadata, policyId: string, violationList: seq<Violation>) returns (policy: BlockingPolicy)
    requires violationList != []
    ensures policy == PolicyFor(meta, policyId, violationList)
  {
    var first := violationList[0];
    var affected := CollectComponents(violationList, meta.components);
    var cveIds := CollectCveIds(meta.vulnerabilities, policyId);
    policy := BlockingPolicy(
      policyId,
      first.category.GetOr("unknown"),
      first.severity.GetOr("unknown"),
      first.priority.GetOr(4),
      first.effort.GetOr("unknown"),
      Cap(affected),
      cveIds);
  }

  /** `_extract_blocking_policies`, with the `by_policy` loop, the per-group loops and the final sort. */
  method ExtractBlockingPolicies(meta: Metadata) returns (result: seq<BlockingPolicy>)
    ensures result == BlockingPoliciesOf(meta)
  {
    var order, byPolicy := GroupViolations(meta.violations);
    ghost var fails := FailIds(meta.violations);
    assert forall id :: id in order ==> id in fails;
    result := [];
    var k := 0;
    while k < |order|
      invariant 0 <= k <= |order|
      invariant result == PoliciesFor(meta, order[..k])
    {
      var policyId := order[k];
      PoliciesForSnoc(meta, order, k);
      var policy := BuildPolicy(meta, policyId, byPolicy[policyId]);
      result := result + [policy];
      k := k + 1;
    }
    assert order[..|order|] == order;
    result := SortBy(result, PolicyKey);
  }

  // ---------------------------------------------------------------------
  // CVE details

  function Elems(xs: seq<string>): (r: set<string>)
    ensures forall x :: x in r <==> x in xs
  {
    if xs == [] then {} else {xs[0]} + Elems(xs[1..])
  }

  /** Every CVE id named by some blocking policy. */
  function NeededCves(bs: seq<BlockingPolicy>): (r: set<string>)
    ensures forall id :: id in r <==> exists k :: 0 <= k < |bs| && id in bs[k].cveIds
  {
    if bs == [] then {}
    else
      var pre := bs[..|bs| - 1];
      assert forall k :: 0 <= k < |pre| ==> pre[k] == bs[k];
      NeededCves(pre) + Elems(bs[|bs| - 1].cveIds)
  }

  /** `vulnerabilities.get(id)`; the keys of a JSON object are distinct, so the first match is the only one. */
  function VulnOf(vulns: seq<(string, Vulnerability)>, id: string): (r: Option<Vulnerability>)
    ensures r.Some? ==> exists k :: 0 <= k < |vulns| && vulns[k] == (id, r.value)
    ensures r.None? ==> forall k :: 0 <= k < |vulns| ==> vulns[k].0 != id
  {
    if vulns == [] then None
    else if vulns[0].0 == id then Some(vulns[0].1)
    else
      var r := VulnOf(vulns[1..], id);
      assert forall k :: 0 <= k < |vulns| - 1 ==> vulns[1..][k] == vulns[k + 1];
      r
  }

  predicate UniqueIds(vulns: seq<(string, Vulnerability)>) {
    forall i, j :: 0 <= i < j < |vulns| ==> vulns[i].0 != vulns[j].0
  }

  function DetailOf(vulns: seq<(string, Vulnerability)>, id: string): CveDetail {
    match VulnOf(vulns, id)
    case None => CveDetail(None, false, false)
    case Some(v) => CveDetail(v.baseScore, "EXISTS" in v.exploit, "FIXABLE" in v.exploit)
  }

  /** `_extract_cve_details(metadata, blocking)`. */
  function CveDetailsOf(meta: Metadata, bs: seq<BlockingPolicy>): map<string, CveDetail> {
    map id | id in NeededCves(bs) :: DetailOf(meta.vulnerabilities, id)
  }

  /**
   * The detail keys are exactly the CVE ids of the blocking policies, and a
   * CVE is exploited iff its exploit flags hold "EXISTS", fixable iff they
   * hold "FIXABLE".
   */
  lemma CveDetailsSpec(meta: Metadata, bs: seq<BlockingPolicy>, id: string)
    requires UniqueIds(meta.vulnerabilities)
    ensures id in CveDetailsOf(meta, bs) <==> exists k :: 0 <= k < |bs| && id in bs[k].cveIds
    ensures id in CveDetailsOf(meta, bs) ==>
      (CveDetailsOf(meta, bs)[id].exploited <==>
        exists k :: 0 <= k < |meta.vulnerabilities| && meta.vulnerabilities[k].0 == id &&
          "EXISTS" in meta.vulnerabilities[k].1.exploit)
    ensures id in CveDetailsOf(meta, bs) ==>
      (CveDetailsOf(meta, bs)[id].fixable <==>
        exists k :: 0 <= k < |meta.vulnerabilities| && meta.vulnerabilities[k].0 == id &&
          "FIXABLE" in meta.vulnerabilities[k].1.exploit)
  {
    var vulns := meta.vulnerabilities;
    match VulnOf(vulns, id)
    case None =>
    case Some(v) =>
      var k0 :| 0 <= k0 < |vulns| && vulns[k0] == (id, v);
      assert forall k :: 0 <= k < |vulns| && vulns[k].0 == id ==> k == k0;
  }

  /** `_extract_cve_details`, with the loop that fills `needed` and the loop over it. */
  method ExtractCveDetails(meta: Metadata, bs: seq<BlockingPolicy>) returns (details: map<string, CveDetail>)
    ensures details == CveDetailsOf(meta, bs)
  {
    var needed: set<string> := {};
    var k := 0;
    while k < |bs|
      invariant 0 <= k <= |bs|
      invariant needed == NeededCves(bs[..k])
    {
      assert bs[..k + 1][..k] == bs[..k] && bs[..k + 1][k] == bs[k];
      needed := needed + Elems(bs[k].cveIds);
      k := k + 1;
    }
    assert bs[..|bs|] == bs;
    details := map[];
    var todo := needed;
    while todo != {}
      invariant todo <= needed
      invariant details.Keys == needed - todo
      invariant forall id :: id in details ==> details[id] == DetailOf(meta.vulnerabilities, id)
      decreases todo
    {
      var cveId :| cveId in todo;
      var flags: seq<string> := [];
      var cvss: Option<real> := None;
      match VulnOf(meta.vulnerabilities, cveId) {
        case Some(cve) =>
          flags := cve.exploit;
          cvss := cve.baseScore;
        case None =>
      }
      details := details[cveId := CveDetail(cvss, "EXISTS" in flags, "FIXABLE" in flags)];
      todo := todo - {cveId};
    }
  }

  // ---------------------------------------------------------------------
  // The report

  /** `parse_report` after the JSON is loaded. */
  function ScanResultOf(r: Report): ScanResult {
    var status := r.qualityStatus.GetOr("unknown");
    var name := r.fileName.GetOr("unknown");
    var level := r.scanLevel.GetOr(0);
    if status != "fail" then ScanResult(name, level, status, [], map[])
    else
      var blocking := BlockingPoliciesOf(r.metadata);
      ScanResult(name, level, status, blocking, CveDetailsOf(r.metadata, blocking))
  }

  /**
   * The status gate: a scan whose quality status is not "fail" reports no
   * blocking policies and no CVE details; a failed scan reports the aggregated
   * policies and the details of exactly their CVEs.
   */
  lemma StatusGate(r: Report)
    ensures r.qualityStatus != Some("fail") ==>
      ScanResultOf(r).blockingPolicies == [] && ScanResultOf(r).cveDetails == map[]
    ensures r.qualityStatus == Some("fail") ==>
      ScanResultOf(r).blockingPolicies == BlockingPoliciesOf(r.metadata) &&
      ScanResultOf(r).cveDetails.Keys == NeededCves(BlockingPoliciesOf(r.metadata))
    ensures ScanResultOf(r).scanStatus == r.qualityStatus.GetOr("unknown")
  {
    if r.qualityStatus != Some("fail") {
      assert r.qualityStatus.GetOr("unknown") != "fail";
    }
  }

  method ParseReport(r: Report) returns (result: ScanResult)
    ensures result == ScanResultOf(r)
  {
    var artifactName := r.fileName.GetOr("unknown");
    var scanLevel := r.scanLevel.GetOr(0);
    var scanStatus := r.qualityStatus.GetOr("unknown");
    if scanStatus != "fail" {
      return ScanResult(artifactName, scanLevel, scanStatus, [], map[]);
    }
    var blocking := ExtractBlockingPolicies(r.metadata);
    var cveDetails := ExtractCveDetails(r.metadata, blocking);
    result := ScanResult(artifactName, scanLevel, scanStatus, blocking, cveDetails);
  }
}
