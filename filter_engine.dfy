/**
 * The filter engine. It applies a policy configuration to the blocking
 * policies of a scan.
 *   - A policy whose id is disabled, exactly or by a glob, is dropped whole.
 *   - Otherwise each affected component is checked against the filters in
 *     order. The first enabled filter whose path pattern matches the component
 *     and whose kind applies to the policy suppresses it.
 *   - A policy is kept only while one of its components survives.
 *   - Every dropped or suppressed component leaves one audit entry.
 */
module FilterEngine {
  import opened Wrappers
  import opened Glob
  import opened Extraction
  import opened ParseReport

  /** `FilteredItem`: the audit record of one removed component. */
  datatype FilteredItem = FilteredItem(policyId: string, componentPath: string, reason: string)

  const DisabledReason: string := "Policy disabled in overrides"

  // ---------------------------------------------------------------------
  // Path matching

  /** `path.replace("\\", "/")`. */
  function Normalize(p: string): string {
    if p == [] then [] else [if p[0] == '\\' then '/' else p[0]] + Normalize(p[1..])
  }

  /** `path.rsplit("/", 1)[-1]`: the text after the last `/`, all of it when there is none. */
  function FileName(p: string): string {
    if p == [] then []
    else if p[|p| - 1] == '/' then []
    else FileName(p[..|p| - 1]) + [p[|p| - 1]]
  }

  /** `path.lstrip("/")`: every leading `/` is removed. */
  function LStrip(p: string): string {
    if p != [] && p[0] == '/' then LStrip(p[1..]) else p
  }

  /** `_matches_path(pattern, component_path, match_type)`. */
  function MatchesPath(pattern: string, path: string, mode: string): bool {
    if pattern == "*" then true
    else
      var p := Normalize(path);
      if mode == "file" then Match(FileName(p), pattern)
      else if mode == "path" then Match(p, pattern)
      else if mode == "root" then Match(LStrip(p), pattern)
      else false
  }

  /** `_matches_policy_id(patterns, id)`: some pattern glob-matches id. */
  function AnyMatch(id: string, patterns: seq<string>): bool {
    patterns != [] && (Match(id, patterns[0]) || AnyMatch(id, patterns[1..]))
  }

  function AllMatched(ids: seq<string>, patterns: seq<string>): bool {
    ids == [] || (AnyMatch(ids[0], patterns) && AllMatched(ids[1..], patterns))
  }

  /** `_all_cves_triaged(cve_ids, triaged_cves)`. */
  function AllCvesTriaged(ids: seq<string>, patterns: seq<string>): bool {
    ids != [] && AllMatched(ids, patterns)
  }

  /** Normalization turns every backslash into `/` and leaves other characters alone. */
  lemma {:induction false} NormalizeSpec(p: string)
    ensures |Normalize(p)| == |p|
    ensures forall i :: 0 <= i < |p| ==> Normalize(p)[i] == (if p[i] == '\\' then '/' else p[i])
  {
    if p != [] {
      NormalizeSpec(p[1..]);
    }
  }

  /**
   * The file name is the longest suffix without `/`. It is all of p, or it
   * follows a `/`.
   */
  lemma {:induction false} FileNameSpec(p: string)
    ensures |FileName(p)| <= |p| && FileName(p) == p[|p| - |FileName(p)|..]
    ensures forall i :: 0 <= i < |FileName(p)| ==> FileName(p)[i] != '/'
    ensures |FileName(p)| < |p| ==> p[|p| - |FileName(p)| - 1] == '/'
  {
    if p == [] {
    } else if p[|p| - 1] == '/' {
      assert FileName(p) == [];
    } else {
      var pre, c := p[..|p| - 1], p[|p| - 1];
      FileNameSpec(pre);
      var f := FileName(pre);
      assert FileName(p) == f + [c];
      assert p == pre + [c];
      assert p[|p| - |f| - 1..] == pre[|pre| - |f|..] + [c];
      if |f| + 1 < |p| {
        assert p[|p| - |f| - 2] == pre[|pre| - |f| - 1];
      }
    }
  }

  /** Stripping removes a prefix made only of `/` and leaves no `/` in front. */
  lemma {:induction false} LStripSpec(p: string)
    ensures |LStrip(p)| <= |p| && LStrip(p) == p[|p| - |LStrip(p)|..]
    ensures forall i :: 0 <= i < |p| - |LStrip(p)| ==> p[i] == '/'
    ensures LStrip(p) == [] || LStrip(p)[0] != '/'
  {
    if p != [] && p[0] == '/' {
      var q := p[1..];
      LStripSpec(q);
      var r := LStrip(q);
      assert LStrip(p) == r;
      assert q[|q| - |r|..] == p[|p| - |r|..];
      forall i | 0 <= i < |p| - |r|
        ensures p[i] == '/'
      {
        if i > 0 {
          assert p[i] == q[i - 1];
        }
      }
    }
  }

  lemma {:induction false} NormalizeAppend(a: string, b: string)
    ensures Normalize(a + b) == Normalize(a) + Normalize(b)
  {
    if a != [] {
      assert (a + b)[0] == a[0];
      assert (a + b)[1..] == a[1..] + b;
      NormalizeAppend(a[1..], b);
    } else {
      assert a + b == b;
    }
  }

  lemma {:induction false} FileNameAfterSlash(dir: string, name: string)
    requires forall i :: 0 <= i < |name| ==> name[i] != '/'
    ensures FileName(dir + "/" + name) == name
  {
    if name != [] {
      var pre := name[..|name| - 1];
      assert (dir + "/" + name)[..|dir + "/" + name| - 1] == dir + "/" + pre;
      FileNameAfterSlash(dir, pre);
      assert name == pre + [name[|name| - 1]];
    } else {
      assert dir + "/" + name == dir + "/";
    }
  }

  /**
   * The mode semantics. A lone `*` matches every path in every mode, and an
   * unknown mode matches nothing else. In file mode only the name after the
   * last separator counts; `\` counts as a separator. In root mode any
   * number of leading `/` is ignored.
   */
  lemma ModeSemantics(pattern: string, dir: string, name: string, mode: string)
    requires forall i :: 0 <= i < |name| ==> name[i] != '/' && name[i] != '\\'
    ensures MatchesPath("*", dir + "/" + name, mode)
    ensures pattern != "*" && mode != "file" && mode != "path" && mode != "root" ==>
      !MatchesPath(pattern, dir + "/" + name, mode)
    ensures MatchesPath(pattern, dir + "/" + name, "file") <==> pattern == "*" || Match(name, pattern)
    ensures MatchesPath(pattern, "/" + name, "root") == MatchesPath(pattern, name, "root")
  {
    NormalizeAppend(dir + "/", name);
    NormalizeAppend(dir, "/");
    NormalizeSpec(name);
    assert Normalize(name) == name;
    assert Normalize("/") == "/";
    assert Normalize(dir + "/" + name) == Normalize(dir) + "/" + name;
    FileNameAfterSlash(Normalize(dir), name);
    NormalizeAppend("/", name);
    assert ("/" + name)[1..] == name;
  }

  /** Some pattern of the list glob-matches id. */
  lemma {:induction false} AnyMatchSpec(id: string, patterns: seq<string>)
    ensures AnyMatch(id, patterns) <==> exists i :: 0 <= i < |patterns| && Match(id, patterns[i])
  {
    if patterns != [] {
      AnyMatchSpec(id, patterns[1..]);
      assert forall i :: 1 <= i < |patterns| ==> patterns[i] == patterns[1..][i - 1];
    }
  }

  lemma {:induction false} AllMatchedSpec(ids: seq<string>, patterns: seq<string>)
    ensures AllMatched(ids, patterns) <==> forall i :: 0 <= i < |ids| ==> AnyMatch(ids[i], patterns)
  {
    if ids != [] {
      AllMatchedSpec(ids[1..], patterns);
      assert forall i :: 1 <= i < |ids| ==> ids[i] == ids[1..][i - 1];
    }
  }

  /**
   * No CVE ids means not triaged. Otherwise all are triaged exactly when
   * each is glob-matched by some triaged pattern.
   */
  lemma AllCvesTriagedSpec(ids: seq<string>, patterns: seq<string>)
    ensures ids == [] ==> !AllCvesTriaged(ids, patterns)
    ensures AllCvesTriaged(ids, patterns) <==>
      ids != [] && forall i :: 0 <= i < |ids| ==> exists j :: 0 <= j < |patterns| && Match(ids[i], patterns[j])
  {
    AllMatchedSpec(ids, patterns);
    forall i | 0 <= i < |ids| {
      AnyMatchSpec(ids[i], patterns);
    }
  }

  // ---------------------------------------------------------------------
  // Suppression of one component

  /** `a or b` on strings. */
  function Or(a: string, b: string): string {
    if a != "" then a else b
  }

  /** `", ".join(parts)`. */
  function Join(parts: seq<string>, sep: string): string {
    if parts == [] then ""
    else if |parts| == 1 then parts[0]
    else parts[0] + sep + Join(parts[1..], sep)
  }

  /** The "cve: reason" parts for the policy's CVEs that have a VEX reason, in CVE order. */
  function VexParts(ids: seq<string>, vex: map<string, string>): seq<string> {
    if ids == [] then []
    else (if ids[0] in vex then [ids[0] + ": " + vex[ids[0]]] else []) + VexParts(ids[1..], vex)
  }

  /**
   * The reason of a triaged suppression, with the source's precedence: the
   * conditional binds loosest, so without any VEX reason the text is "All
   * CVEs triaged" even when the filter gives a reason of its own.
   */
  function TriagedReason(f: Filter, ids: seq<string>): string {
    var vexText := Join(VexParts(ids, f.vexReasons), ", ");
    if vexText != "" then Or(f.reason, "All CVEs triaged (" + vexText + ")") else "All CVEs triaged"
  }

  lemma {:induction false} VexPartsEmpty(ids: seq<string>, vex: map<string, string>)
    ensures VexParts(ids, vex) == [] <==> forall i :: 0 <= i < |ids| ==> ids[i] !in vex
    ensures forall k :: 0 <= k < |VexParts(ids, vex)| ==> VexParts(ids, vex)[k] != ""
  {
    if ids != [] {
      VexPartsEmpty(ids[1..], vex);
      assert forall i :: 1 <= i < |ids| ==> ids[i] == ids[1..][i - 1];
      if ids[0] in vex {
        assert |ids[0] + ": " + vex[ids[0]]| >= 2;
      }
    }
  }

  lemma {:induction false} JoinEmpty(parts: seq<string>, sep: string)
    requires forall k :: 0 <= k < |parts| ==> parts[k] != ""
    ensures Join(parts, sep) == "" <==> parts == []
  {
    if |parts| > 1 {
      assert |parts[0] + sep + Join(parts[1..], sep)| >= |parts[0]|;
    }
  }

  /**
   * The triaged reason. Without any VEX reason among the policy's CVEs it is
   * "All CVEs triaged", whatever the filter's own reason. With one, the
   * filter's reason wins when it is non-empty.
   */
  lemma TriagedReasonPrecedence(f: Filter, ids: seq<string>)
    ensures (forall i :: 0 <= i < |ids| ==> ids[i] !in f.vexReasons) ==> TriagedReason(f, ids) == "All CVEs triaged"
    ensures (exists i :: 0 <= i < |ids| && ids[i] in f.vexReasons) && f.reason != "" ==> TriagedReason(f, ids) == f.reason
    ensures (exists i :: 0 <= i < |ids| && ids[i] in f.vexReasons) && f.reason == "" ==>
      TriagedReason(f, ids) == "All CVEs triaged (" + Join(VexParts(ids, f.vexReasons), ", ") + ")"
  {
    VexPartsEmpty(ids, f.vexReasons);
    JoinEmpty(VexParts(ids, f.vexReasons), ", ");
  }

  /**
   * The filter f suppresses a component at path of policy p. It must be
   * enabled and its pattern must match the path. Then, by kind:
   *   - a secrets filter needs a secrets policy, and an empty list or an id
   *     pattern that matches;
   *   - a policies filter needs an id pattern that matches;
   *   - a triaged filter needs all of the policy's CVEs triaged.
   */
  predicate Applies(p: BlockingPolicy, path: string, f: Filter) {
    f.enabled && MatchesPath(f.pattern, path, f.matches) &&
    match f.kind
    case Secrets => p.category == "secrets" && (f.secrets == [] || AnyMatch(p.policyId, f.secrets))
    case Policies => AnyMatch(p.policyId, f.policies)
    case Triaged => AllCvesTriaged(p.cveIds, f.cves)
  }

  /** The audit reason when f suppresses a component of p. */
  function ReasonFor(p: BlockingPolicy, f: Filter): string {
    match f.kind
    case Secrets => Or(f.reason, "Suppressed by secrets filter")
    case Policies => Or(f.reason, "Suppressed by policies filter")
    case Triaged => TriagedReason(f, p.cveIds)
  }

  /** The reason of the first filter that suppresses the component, if any. */
  function Suppression(p: BlockingPolicy, path: string, fs: seq<Filter>): Option<string> {
    if fs == [] then None
    else if Applies(p, path, fs[0]) then Some(ReasonFor(p, fs[0]))
    else Suppression(p, path, fs[1..])
  }

  /**
   * First match: a component is suppressed iff some filter applies. The
   * reason then comes from the first filter that applies.
   */
  lemma {:induction false} SuppressionFirstMatch(p: BlockingPolicy, path: string, fs: seq<Filter>)
    ensures Suppression(p, path, fs).Some? <==> exists j :: 0 <= j < |fs| && Applies(p, path, fs[j])
    ensures Suppression(p, path, fs).Some? ==>
      exists j :: 0 <= j < |fs| && Applies(p, path, fs[j]) && (forall i :: 0 <= i < j ==> !Applies(p, path, fs[i])) &&
        Suppression(p, path, fs).value == ReasonFor(p, fs[j])
  {
    if fs != [] && !Applies(p, path, fs[0]) {
      SuppressionFirstMatch(p, path, fs[1..]);
      assert forall j :: 1 <= j < |fs| ==> fs[j] == fs[1..][j - 1];
      if Suppression(p, path, fs).Some? {
        var j :| 0 <= j < |fs[1..]| && Applies(p, path, fs[1..][j]) && (forall i :: 0 <= i < j ==> !Applies(p, path, fs[1..][i])) &&
          Suppression(p, path, fs[1..]).value == ReasonFor(p, fs[1..][j]);
        assert Applies(p, path, fs[j + 1]) && Suppression(p, path, fs).value == ReasonFor(p, fs[j + 1]);
        forall i | 0 <= i < j + 1
          ensures !Applies(p, path, fs[i])
        {
          if i > 0 {
            assert fs[i] == fs[1..][i - 1];
          }
        }
      }
    }
  }

  // ---------------------------------------------------------------------
  // Filtering policies

  /** The audit entries of a disabled policy: one per component. */
  function DisabledAudit(p: BlockingPolicy, comps: seq<Component>): seq<FilteredItem> {
    if comps == [] then []
    else DisabledAudit(p, comps[..|comps| - 1]) + [FilteredItem(p.policyId, comps[|comps| - 1].path, DisabledReason)]
  }

  /** The surviving components and the audit entries of the suppressed ones, in order. */
  function FilterComponents(p: BlockingPolicy, comps: seq<Component>, fs: seq<Filter>): (seq<Component>, seq<FilteredItem>) {
    if comps == [] then ([], [])
    else
      var (kept, audit) := FilterComponents(p, comps[..|comps| - 1], fs);
      var c := comps[|comps| - 1];
      match Suppression(p, c.path, fs)
      case Some(reason) => (kept, audit + [FilteredItem(p.policyId, c.path, reason)])
      case None => (kept + [c], audit)
  }

  /** The policy id is in the disabled set or glob-matched by one of its entries. */
  predicate IsDisabled(id: string, disabled: set<string>) {
    id in disabled || exists d :: d in disabled && Match(id, d)
  }

  function Kept(p: BlockingPolicy, fs: seq<Filter>): seq<Component> {
    FilterComponents(p, p.components, fs).0
  }

  /** One policy: dropped when disabled, otherwise kept with its surviving components while any survive. */
  function FilterOne(p: BlockingPolicy, cfg: ConfigValue): (Option<BlockingPolicy>, seq<FilteredItem>) {
    if IsDisabled(p.policyId, cfg.disabled) then (None, DisabledAudit(p, p.components))
    else
      var (kept, audit) := FilterComponents(p, p.components, cfg.filters);
      (if kept == [] then None else Some(p.(components := kept)), audit)
  }

  /** `filter_policies(policies, config)`: the remaining policies and the audit list. */
  function FilterAll(ps: seq<BlockingPolicy>, cfg: ConfigValue): (seq<BlockingPolicy>, seq<FilteredItem>) {
    if ps == [] then ([], [])
    else
      var (result, audit) := FilterAll(ps[..|ps| - 1], cfg);
      var (o, items) := FilterOne(ps[|ps| - 1], cfg);
      (result + (if o.Some? then [o.value] else []), audit + items)
  }

  /** a is a subsequence of b: its elements appear in b in the same order. */
  predicate Subseq<T(==)>(a: seq<T>, b: seq<T>)
    decreases |b|
  {
    a == [] || (b != [] && ((a[0] == b[0] && Subseq(a[1..], b[1..])) || Subseq(a, b[1..])))
  }

  lemma {:induction false} SubseqSnocRight<T>(a: seq<T>, b: seq<T>, x: T)
    requires Subseq(a, b)
    ensures Subseq(a, b + [x])
    decreases |b|
  {
    if a != [] {
      assert (b + [x])[1..] == b[1..] + [x];
      if a[0] == b[0] && Subseq(a[1..], b[1..]) {
        SubseqSnocRight(a[1..], b[1..], x);
      } else {
        SubseqSnocRight(a, b[1..], x);
      }
    }
  }

  lemma {:induction false} SubseqSnocBoth<T>(a: seq<T>, b: seq<T>, x: T)
    requires Subseq(a, b)
    ensures Subseq(a + [x], b + [x])
    decreases |b|
  {
    if b == [] {
      assert a == [];
      assert [x][1..] == [];
    } else {
      assert (b + [x])[1..] == b[1..] + [x];
      if a != [] && a[0] == b[0] && Subseq(a[1..], b[1..]) {
        assert (a + [x])[1..] == a[1..] + [x];
        SubseqSnocBoth(a[1..], b[1..], x);
      } else if a == [] {
        SubseqSnocBoth(a, b[1..], x);
      } else {
        SubseqSnocBoth(a, b[1..], x);
      }
    }
  }

  /** A disabled policy leaves one "Policy disabled in overrides" entry per component, in order. */
  lemma {:induction false} DisabledAuditSpec(p: BlockingPolicy, comps: seq<Component>)
    ensures |DisabledAudit(p, comps)| == |comps|
    ensures forall i :: 0 <= i < |comps| ==>
      DisabledAudit(p, comps)[i] == FilteredItem(p.policyId, comps[i].path, DisabledReason)
  {
    if comps != [] {
      DisabledAuditSpec(p, comps[..|comps| - 1]);
    }
  }

  /**
   * A disabled policy is dropped whole. Each of its components leaves one
   * "Policy disabled in overrides" entry, in order.
   */
  lemma DisabledPolicyDropped(p: BlockingPolicy, cfg: ConfigValue)
    requires IsDisabled(p.policyId, cfg.disabled)
    ensures FilterOne(p, cfg).0.None?
    ensures |FilterOne(p, cfg).1| == |p.components|
    ensures forall i :: 0 <= i < |p.components| ==>
      FilterOne(p, cfg).1[i] == FilteredItem(p.policyId, p.components[i].path, DisabledReason)
  {
    DisabledAuditSpec(p, p.components);
  }

  /** How many of the components no filter suppresses. */
  function KeptCount(p: BlockingPolicy, comps: seq<Component>, fs: seq<Filter>): (r: nat)
    ensures r <= |comps|
  {
    if comps == [] then 0
    else KeptCount(p, comps[..|comps| - 1], fs) + (if Suppression(p, comps[|comps| - 1].path, fs).None? then 1 else 0)
  }

  /** How many of the components some filter suppresses. */
  function SuppressedCount(p: BlockingPolicy, comps: seq<Component>, fs: seq<Filter>): nat {
    if comps == [] then 0
    else SuppressedCount(p, comps[..|comps| - 1], fs) + (if Suppression(p, comps[|comps| - 1].path, fs).Some? then 1 else 0)
  }

  /**
   * Component filtering, the survivors position by position: the k-th
   * component, when no filter suppresses it, is kept at its rank among the
   * unsuppressed ones, and nothing else is kept.
   */
  lemma {:induction false} FilterComponentsKept(p: BlockingPolicy, comps: seq<Component>, fs: seq<Filter>)
    ensures |FilterComponents(p, comps, fs).0| == KeptCount(p, comps, fs)
    ensures forall k :: 0 <= k < |comps| && Suppression(p, comps[k].path, fs).None? ==>
      KeptCount(p, comps[..k], fs) < |FilterComponents(p, comps, fs).0| &&
      FilterComponents(p, comps, fs).0[KeptCount(p, comps[..k], fs)] == comps[k]
  {
    if comps != [] {
      var pre := comps[..|comps| - 1];
      FilterComponentsKept(p, pre, fs);
      KeptCountBound(p, pre, fs);
      var kept := FilterComponents(p, comps, fs).0;
      assert comps[..|pre|] == pre;
      forall k | 0 <= k < |comps| && Suppression(p, comps[k].path, fs).None?
        ensures KeptCount(p, comps[..k], fs) < |kept| && kept[KeptCount(p, comps[..k], fs)] == comps[k]
      {
        if k < |pre| {
          assert comps[..k] == pre[..k] && comps[k] == pre[k];
        }
      }
    }
  }

  /**
   * Component filtering, the audit entries position by position: each
   * suppressed component leaves exactly one entry, at its rank among the
   * suppressed ones, carrying its path and the reason of its first applying
   * filter, and there are no other entries.
   */
  lemma {:induction false} FilterComponentsAudit(p: BlockingPolicy, comps: seq<Component>, fs: seq<Filter>)
    ensures |FilterComponents(p, comps, fs).1| == SuppressedCount(p, comps, fs)
    ensures forall k :: 0 <= k < |comps| && Suppression(p, comps[k].path, fs).Some? ==>
      SuppressedCount(p, comps[..k], fs) < |FilterComponents(p, comps, fs).1| &&
      FilterComponents(p, comps, fs).1[SuppressedCount(p, comps[..k], fs)] ==
        FilteredItem(p.policyId, comps[k].path, Suppression(p, comps[k].path, fs).value)
  {
    if comps != [] {
      var pre := comps[..|comps| - 1];
      FilterComponentsAudit(p, pre, fs);
      SuppressedCountBound(p, pre, fs);
      var audit := FilterComponents(p, comps, fs).1;
      assert comps[..|pre|] == pre;
      forall k | 0 <= k < |comps| && Suppression(p, comps[k].path, fs).Some?
        ensures SuppressedCount(p, comps[..k], fs) < |audit| &&
          audit[SuppressedCount(p, comps[..k], fs)] == FilteredItem(p.policyId, comps[k].path, Suppression(p, comps[k].path, fs).value)
      {
        if k < |pre| {
          assert comps[..k] == pre[..k] && comps[k] == pre[k];
        }
      }
    }
  }

  /**
   * Component filtering as a whole: the survivors are a subsequence of the
   * components, and exactly the unsuppressed ones.
   */
  lemma {:induction false} FilterComponentsSpec(p: BlockingPolicy, comps: seq<Component>, fs: seq<Filter>)
    ensures |FilterComponents(p, comps, fs).0| + |FilterComponents(p, comps, fs).1| == |comps|
    ensures Subseq(FilterComponents(p, comps, fs).0, comps)
    ensures forall c :: c in FilterComponents(p, comps, fs).0 <==> c in comps && Suppression(p, c.path, fs).None?
  {
    if comps != [] {
      var pre := comps[..|comps| - 1];
      var c := comps[|comps| - 1];
      FilterComponentsSpec(p, pre, fs);
      assert comps == pre + [c];
      var (kept, audit) := FilterComponents(p, pre, fs);
      if Suppression(p, c.path, fs).None? {
        SubseqSnocBoth(kept, pre, c);
      } else {
        SubseqSnocRight(kept, pre, c);
      }
    }
  }

  /** No prefix has more unsuppressed components than the whole. */
  lemma {:induction false} KeptCountBound(p: BlockingPolicy, comps: seq<Component>, fs: seq<Filter>)
    ensures forall k :: 0 <= k <= |comps| ==> KeptCount(p, comps[..k], fs) <= KeptCount(p, comps, fs)
  {
    if comps != [] {
      var pre := comps[..|comps| - 1];
      KeptCountBound(p, pre, fs);
      assert forall k :: 0 <= k <= |pre| ==> comps[..k] == pre[..k];
      assert comps[..|comps|] == comps;
    }
  }

  /** No prefix has more suppressed components than the whole. */
  lemma {:induction false} SuppressedCountBound(p: BlockingPolicy, comps: seq<Component>, fs: seq<Filter>)
    ensures forall k :: 0 <= k <= |comps| ==> SuppressedCount(p, comps[..k], fs) <= SuppressedCount(p, comps, fs)
  {
    if comps != [] {
      var pre := comps[..|comps| - 1];
      SuppressedCountBound(p, pre, fs);
      assert forall k :: 0 <= k <= |pre| ==> comps[..k] == pre[..k];
      assert comps[..|comps|] == comps;
    }
  }

  /** Every component is either kept or suppressed. */
  lemma {:induction false} KeptPlusSuppressed(p: BlockingPolicy, comps: seq<Component>, fs: seq<Filter>)
    ensures KeptCount(p, comps, fs) + SuppressedCount(p, comps, fs) == |comps|
  {
    if comps != [] {
      KeptPlusSuppressed(p, comps[..|comps| - 1], fs);
    }
  }

  /** Suppression does not look at a policy's component list. */
  lemma {:induction false} SuppressionIgnoresComponents(p: BlockingPolicy, cs: seq<Component>, path: string, fs: seq<Filter>)
    ensures Suppression(p.(components := cs), path, fs) == Suppression(p, path, fs)
  {
    if fs != [] {
      SuppressionIgnoresComponents(p, cs, path, fs[1..]);
    }
  }

  /** Components that no filter suppresses all survive and leave no audit entry. */
  lemma {:induction false} NothingSuppressed(p: BlockingPolicy, comps: seq<Component>, fs: seq<Filter>)
    requires forall c :: c in comps ==> Suppression(p, c.path, fs).None?
    ensures FilterComponents(p, comps, fs) == (comps, [])
  {
    if comps != [] {
      var pre := comps[..|comps| - 1];
      assert forall c :: c in pre ==> c in comps;
      NothingSuppressed(p, pre, fs);
      assert comps == pre + [comps[|comps| - 1]];
    }
  }

  function TotalComponents(ps: seq<BlockingPolicy>): nat {
    if ps == [] then 0 else TotalComponents(ps[..|ps| - 1]) + |ps[|ps| - 1].components|
  }

  /** One policy: its components are either kept or audited, one entry each. */
  lemma FilterOneCount(p: BlockingPolicy, cfg: ConfigValue)
    ensures |FilterOne(p, cfg).1| + (if FilterOne(p, cfg).0.Some? then |FilterOne(p, cfg).0.value.components| else 0) ==
      |p.components|
  {
    DisabledAuditSpec(p, p.components);
    FilterComponentsSpec(p, p.components, cfg.filters);
  }

  lemma FilterAllSnoc(ps: seq<BlockingPolicy>, p: BlockingPolicy, cfg: ConfigValue)
    ensures FilterAll(ps + [p], cfg) ==
      (FilterAll(ps, cfg).0 + (if FilterOne(p, cfg).0.Some? then [FilterOne(p, cfg).0.value] else []),
       FilterAll(ps, cfg).1 + FilterOne(p, cfg).1)
  {
    assert (ps + [p])[..|ps|] == ps;
  }

  /**
   * `filter_policies` as a whole, on the remaining policies:
   *   - no remaining policy is disabled, and each still has a component;
   *   - each remaining policy is an input policy with its surviving
   *     components and every other field unchanged;
   *   - each input policy that is not disabled and keeps a component remains.
   */
  lemma {:induction false} FilterAllSpec(ps: seq<BlockingPolicy>, cfg: ConfigValue)
    ensures forall r :: r in FilterAll(ps, cfg).0 ==> !IsDisabled(r.policyId, cfg.disabled) && r.components != []
    ensures forall r :: r in FilterAll(ps, cfg).0 ==>
      exists k :: 0 <= k < |ps| && r == ps[k].(components := Kept(ps[k], cfg.filters))
    ensures forall k :: 0 <= k < |ps| && !IsDisabled(ps[k].policyId, cfg.disabled) && Kept(ps[k], cfg.filters) != [] ==>
      ps[k].(components := Kept(ps[k], cfg.filters)) in FilterAll(ps, cfg).0
  {
    if ps != [] {
      var pre := ps[..|ps| - 1];
      var p := ps[|ps| - 1];
      FilterAllSpec(pre, cfg);
      assert ps == pre + [p];
      FilterAllSnoc(pre, p, cfg);
      var result := FilterAll(pre, cfg).0;
      var o := FilterOne(p, cfg).0;
      var out := result + (if o.Some? then [o.value] else []);
      assert FilterAll(ps, cfg).0 == out;
      forall r | r in out
        ensures exists k :: 0 <= k < |ps| && r == ps[k].(components := Kept(ps[k], cfg.filters))
      {
        if r in result {
          var k :| 0 <= k < |pre| && r == pre[k].(components := Kept(pre[k], cfg.filters));
          assert pre[k] == ps[k];
        } else {
          assert r == ps[|ps| - 1].(components := Kept(ps[|ps| - 1], cfg.filters));
        }
      }
      forall k | 0 <= k < |ps| && !IsDisabled(ps[k].policyId, cfg.disabled) && Kept(ps[k], cfg.filters) != []
        ensures ps[k].(components := Kept(ps[k], cfg.filters)) in out
      {
        if k < |pre| {
          assert pre[k] == ps[k];
        }
      }
    }
  }

  /** The audit entries and the remaining components together account for every input component exactly once. */
  lemma {:induction false} FilterAllCount(ps: seq<BlockingPolicy>, cfg: ConfigValue)
    ensures |FilterAll(ps, cfg).1| + TotalComponents(FilterAll(ps, cfg).0) == TotalComponents(ps)
  {
    if ps != [] {
      var pre := ps[..|ps| - 1];
      var p := ps[|ps| - 1];
      FilterAllCount(pre, cfg);
      FilterOneCount(p, cfg);
      assert ps == pre + [p];
      FilterAllSnoc(pre, p, cfg);
      var result := FilterAll(pre, cfg).0;
      var o := FilterOne(p, cfg).0;
      if o.Some? {
        assert (result + [o.value])[..|result|] == result;
        assert TotalComponents(result + [o.value]) == TotalComponents(result) + |o.value.components|;
      } else {
        assert result + [] == result;
      }
    }
  }

  /** A policy as filtering left it passes a second filtering unchanged and unaudited. */
  lemma FilterOneStable(p: BlockingPolicy, cfg: ConfigValue)
    requires FilterOne(p, cfg).0.Some?
    ensures FilterOne(FilterOne(p, cfg).0.value, cfg) == (FilterOne(p, cfg).0, [])
  {
    var kept := Kept(p, cfg.filters);
    var q := p.(components := kept);
    FilterComponentsSpec(p, p.components, cfg.filters);
    forall c | c in kept
      ensures Suppression(q, c.path, cfg.filters).None?
    {
      SuppressionIgnoresComponents(p, kept, c.path, cfg.filters);
    }
    NothingSuppressed(q, kept, cfg.filters);
  }

  /** Filtering is idempotent: filtering the remaining policies again removes nothing. */
  lemma {:induction false} FilterIdempotent(ps: seq<BlockingPolicy>, cfg: ConfigValue)
    ensures FilterAll(FilterAll(ps, cfg).0, cfg) == (FilterAll(ps, cfg).0, [])
  {
    if ps != [] {
      var pre := ps[..|ps| - 1];
      var p := ps[|ps| - 1];
      FilterIdempotent(pre, cfg);
      assert ps == pre + [p];
      FilterAllSnoc(pre, p, cfg);
      var result := FilterAll(pre, cfg).0;
      var o := FilterOne(p, cfg).0;
      if o.Some? {
        FilterOneStable(p, cfg);
        FilterAllSnoc(result, o.value, cfg);
        assert FilterAll(ps, cfg).0 == result + [o.value];
        assert FilterAll(result + [o.value], cfg) == (result + [o.value], [] + []);
        var none: seq<FilteredItem> := [];
        assert none + none == none;
      } else {
        assert FilterAll(ps, cfg).0 == result + [];
        assert result + [] == result;
      }
    }
  }

  // ---------------------------------------------------------------------
  // The loops of filter_policies

  /** The wildcard check: the disabled entries are visited in some order until one matches. */
  method MatchesSomeDisabled(id: string, disabled: set<string>) returns (found: bool)
    ensures found <==> exists d :: d in disabled && Match(id, d)
  {
    found := false;
    var rest := disabled;
    while rest != {} && !found
      invariant rest <= disabled
      invariant found <==> exists d :: d in disabled - rest && Match(id, d)
      decreases rest
    {
      var d :| d in rest;
      assert disabled - (rest - {d}) == (disabled - rest) + {d};
      if Match(id, d) {
        found := true;
      }
      rest := rest - {d};
    }
  }

  /** The loop of `_all_cves_triaged`: false on no ids, and false at the first id no pattern matches. */
  method CheckAllCvesTriaged(cveIds: seq<string>, triagedCves: seq<string>) returns (triaged: bool)
    ensures triaged == AllCvesTriaged(cveIds, triagedCves)
  {
    if cveIds == [] {
      return false;
    }
    var i := 0;
    while i < |cveIds|
      invariant 0 <= i <= |cveIds|
      invariant AllMatched(cveIds, triagedCves) == AllMatched(cveIds[i..], triagedCves)
    {
      assert cveIds[i..][1..] == cveIds[i + 1..];
      if !AnyMatch(cveIds[i], triagedCves) {
        return false;
      }
      i := i + 1;
    }
    return true;
  }

  /** The inner loop over the filters for one component; it stops at the first that applies. */
  method FindSuppression(p: BlockingPolicy, path: string, fs: seq<Filter>) returns (suppressed: bool, reason: string)
    ensures suppressed <==> Suppression(p, path, fs).Some?
    ensures suppressed ==> reason == Suppression(p, path, fs).value
  {
    suppressed, reason := false, "";
    var j := 0;
    while j < |fs|
      invariant 0 <= j <= |fs|
      invariant Suppression(p, path, fs) == Suppression(p, path, fs[j..])
    {
      assert fs[j..][1..] == fs[j + 1..];
      var filt := fs[j];
      if filt.enabled && MatchesPath(filt.pattern, path, filt.matches) {
        if filt.kind == Secrets && p.category == "secrets" {
          if filt.secrets == [] || AnyMatch(p.policyId, filt.secrets) {
            return true, Or(filt.reason, "Suppressed by secrets filter");
          }
        } else if filt.kind == Policies {
          if AnyMatch(p.policyId, filt.policies) {
            return true, Or(filt.reason, "Suppressed by policies filter");
          }
        } else if filt.kind == Triaged {
          var triaged := CheckAllCvesTriaged(p.cveIds, filt.cves);
          if triaged {
            return true, TriagedReason(filt, p.cveIds);
          }
        }
      }
      j := j + 1;
    }
  }

  /** The audit entries of a disabled policy, one component at a time. */
  method AuditDisabled(policy: BlockingPolicy) returns (items: seq<FilteredItem>)
    ensures items == DisabledAudit(policy, policy.components)
  {
    items := [];
    var i := 0;
    while i < |policy.components|
      invariant 0 <= i <= |policy.components|
      invariant items == DisabledAudit(policy, policy.components[..i])
    {
      assert policy.components[..i + 1][..i] == policy.components[..i];
      items := items + [FilteredItem(policy.policyId, policy.components[i].path, DisabledReason)];
      i := i + 1;
    }
    assert policy.components[..|policy.components|] == policy.components;
  }

  /** The loop over the components of a policy that is not disabled. */
  method FilterPolicyComponents(policy: BlockingPolicy, fs: seq<Filter>)
    returns (remaining: seq<Component>, items: seq<FilteredItem>)
    ensures (remaining, items) == FilterComponents(policy, policy.components, fs)
  {
    remaining, items := [], [];
    var i := 0;
    while i < |policy.components|
      invariant 0 <= i <= |policy.components|
      invariant (remaining, items) == FilterComponents(policy, policy.components[..i], fs)
    {
      var comp := policy.components[i];
      assert policy.components[..i + 1][..i] == policy.components[..i];
      var suppressed, reason := FindSuppression(policy, comp.path, fs);
      if suppressed {
        items := items + [FilteredItem(policy.policyId, comp.path, reason)];
      } else {
        remaining := remaining + [comp];
      }
      i := i + 1;
    }
    assert policy.components[..|policy.components|] == policy.components;
  }

  /** `filter_policies`: reads the configuration and returns new lists; nothing is modified. */
  method FilterPolicies(policies: seq<BlockingPolicy>, config: PolicyConfig)
    returns (result: seq<BlockingPolicy>, filteredItems: seq<FilteredItem>)
    ensures (result, filteredItems) == FilterAll(policies, config.Value())
  {
    result, filteredItems := [], [];
    var n := 0;
    while n < |policies|
      invariant 0 <= n <= |policies|
      invariant (result, filteredItems) == FilterAll(policies[..n], config.Value())
    {
      var policy := policies[n];
      assert policies[..n + 1] == policies[..n] + [policy];
      FilterAllSnoc(policies[..n], policy, config.Value());
      var disabled := policy.policyId in config.disabledPolicies;
      if !disabled {
        disabled := MatchesSomeDisabled(policy.policyId, config.disabledPolicies);
      }
      assert disabled == IsDisabled(policy.policyId, config.Value().disabled);
      if disabled {
        var items := AuditDisabled(policy);
        assert FilterOne(policy, config.Value()) == (None, items);
        assert result + [] == result;
        filteredItems := filteredItems + items;
      } else {
        var remaining, items := FilterPolicyComponents(policy, config.filters);
        assert FilterOne(policy, config.Value()) == (if remaining == [] then None else Some(policy.(components := remaining)), items);
        filteredItems := filteredItems + items;
        if remaining != [] {
          result := result + [policy.(components := remaining)];
        } else {
          assert result + [] == result;
        }
      }
      n := n + 1;
    }
    assert policies[..|policies|] == policies;
  }
}
